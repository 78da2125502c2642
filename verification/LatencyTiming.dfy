// When bytes arrive, over whole runs, and how the connection objects follow those runs.
module LatencyTiming {
  import opened Header
  import opened LatencyPackets
  import opened LatencyRuns
  import opened NetConn
  import opened SendClock
  import opened Wrappers

  // ---- timing over runs ----

  ghost predicate Clocked(net: Network, delay: int, l: Link, last: int) {
    && AllTimed(net, delay, l.sent, last)
    && LastEnd(l.sent, last) <= l.lastSendEnd
  }

  lemma {:induction false} SendersAreTimed(net: Network, delay: int, last: int, clock: int, ops: seq<Op>)
    ensures Clocked(net, delay, Run(net, delay, Fresh(last, clock), ops), last)
    decreases |ops|
  {
    if ops != [] {
      var n := |ops| - 1;
      var l := Run(net, delay, Fresh(last, clock), ops[..n]);
      SendersAreTimed(net, delay, last, clock, ops[..n]);
      if ops[n].WriteOp? {
        var mid := Max(l.lastSendEnd, ops[n].start);
        var ks := WritePackets(net, delay, ops[n].start, l.lastSendEnd, ops[n].p);
        SendTimed(net, delay, ops[n].start, ops[n].start, mid, ops[n].p);
        TimedConcat(net, delay, l.sent, ks, last, mid);
      }
    }
  }

  // Packets become readable in order, each at least its transmission time after the one before.
  lemma ReadTimesAreSpaced(net: Network, delay: int, last: int, clock: int, ops: seq<Op>, i: nat, j: nat)
    requires i < j < |Run(net, delay, Fresh(last, clock), ops).sent|
    ensures var ks := Run(net, delay, Fresh(last, clock), ops).sent;
            ks[i].end + PktTime(net, |ks[j].data|) <= ks[j].end
    decreases j
  {
    var ks := Run(net, delay, Fresh(last, clock), ops).sent;
    SendersAreTimed(net, delay, last, clock, ops);
    assert WellTimed(net, delay, Previous(ks, j, last), ks[j]);
    if i < j - 1 {
      ReadTimesAreSpaced(net, delay, last, clock, ops, i, j - 1);
    }
  }

  // Back-pressure: with a bandwidth limit no packet leaves a backlog beyond the delay and its own time.
  lemma BacklogIsBounded(net: Network, delay: int, last: int, clock: int, ops: seq<Op>, i: nat)
    requires net.kbps > 0 && i < |Run(net, delay, Fresh(last, clock), ops).sent|
    ensures var k := Run(net, delay, Fresh(last, clock), ops).sent[i];
            k.end - k.at <= delay + PktTime(net, |k.data|)
  {
    SendersAreTimed(net, delay, last, clock, ops);
    var ks := Run(net, delay, Fresh(last, clock), ops).sent;
    assert WellTimed(net, delay, Previous(ks, i, last), ks[i]);
  }

  // ---- where the bytes of each Read come from ----

  function Bytes(ds: seq<Delivery>): seq<Byte> {
    if ds == [] then [] else Bytes(ds[..|ds| - 1]) + ds[|ds| - 1].data
  }

  // The bytes of a delivery are those of its packet from its position on.
  ghost predicate FromPacket(sent: seq<Packet>, d: Delivery) {
    && d.packet < |sent| && d.from + |d.data| <= |sent[d.packet].data|
    && sent[d.packet].data[d.from..d.from + |d.data|] == d.data
  }

  // The buffer is the rest of the last packet taken.
  ghost predicate BufferIsRest(l: Link) {
    && l.taken <= |l.sent|
    && (l.taken == 0 ==> l.readBuf == [])
    && (l.taken > 0 ==>
          var data := l.sent[l.taken - 1].data;
          |l.readBuf| <= |data| && l.readBuf == data[|data| - |l.readBuf|..])
  }

  ghost predicate Traced(l: Link) {
    && BufferIsRest(l)
    && Bytes(l.deliveries) == l.read
    && (forall d {:trigger FromPacket(l.sent, l.deliveries[d])} :: 0 <= d < |l.deliveries| ==>
          FromPacket(l.sent, l.deliveries[d]))
  }

  lemma WriteTraced(net: Network, delay: int, l: Link, op: Op)
    requires Traced(l) && op.WriteOp?
    ensures Traced(Step(net, delay, l, op))
  {
    var l' := Step(net, delay, l, op);
    forall d | 0 <= d < |l'.deliveries| ensures FromPacket(l'.sent, l'.deliveries[d]) {
      assert FromPacket(l.sent, l.deliveries[d]);
    }
  }

  // A Read that hands out the front of the last `b` bytes of a packet.
  lemma HandsOut(sent: seq<Packet>, taken: nat, b: seq<Byte>, m: nat, at: int, ds: seq<Delivery>)
    requires 0 < taken <= |sent| && m <= |b| <= |sent[taken - 1].data|
    requires b == sent[taken - 1].data[|sent[taken - 1].data| - |b|..]
    requires forall d {:trigger FromPacket(sent, ds[d])} :: 0 <= d < |ds| ==> FromPacket(sent, ds[d])
    ensures var ds' := ds + Record(sent, taken, b[..m], b[m..], at);
            && Bytes(ds') == Bytes(ds) + b[..m]
            && (forall d {:trigger FromPacket(sent, ds'[d])} :: 0 <= d < |ds'| ==> FromPacket(sent, ds'[d]))
            && b[m..] == sent[taken - 1].data[|sent[taken - 1].data| - |b[m..]|..]
  {
    var data := sent[taken - 1].data;
    var r := Record(sent, taken, b[..m], b[m..], at);
    var ds' := ds + r;
    if m > 0 {
      assert ds'[..|ds'| - 1] == ds;
      assert FromPacket(sent, r[0]);
    } else {
      assert ds' == ds && b[..m] == [];
    }
    forall d | 0 <= d < |ds'| ensures FromPacket(sent, ds'[d]) {
      assert FromPacket(sent, if d < |ds| then ds[d] else r[0]);
    }
  }

  lemma BufferedReadTraced(net: Network, delay: int, l: Link, op: Op)
    requires Traced(l) && op.ReadOp? && l.readBuf != []
    ensures Traced(Step(net, delay, l, op))
  {
    HandsOut(l.sent, l.taken, l.readBuf, if op.n < |l.readBuf| then op.n else |l.readBuf|, op.end, l.deliveries);
  }

  lemma PacketReadTraced(net: Network, delay: int, l: Link, op: Op)
    requires Transparent(net, delay, l) && l.readBuf == [] && l.taken < |l.sent| && Small(l.sent[l.taken])
    requires Traced(l) && op.ReadOp?
    ensures Traced(Step(net, delay, l, op))
  {
    var data := l.sent[l.taken].data;
    PacketReadStep(net, delay, l, op.n, op.end);
    assert data[|data| - |data|..] == data;
    HandsOut(l.sent, l.taken + 1, data, if op.n < |data| then op.n else |data|, op.end, l.deliveries);
  }

  lemma ReadTraced(net: Network, delay: int, l: Link, op: Op)
    requires Transparent(net, delay, l) && NextSmall(l) && Traced(l) && op.ReadOp?
    ensures Traced(Step(net, delay, l, op))
  {
    if l.readBuf != [] {
      BufferedReadTraced(net, delay, l, op);
    } else if l.taken < |l.sent| {
      PacketReadTraced(net, delay, l, op);
    } else {
      NextPacket(net, delay, l);
    }
  }

  lemma {:induction false} RunsAreTraced(net: Network, delay: int, last: int, clock: int, ops: seq<Op>)
    requires AllWritesFit(net, ops)
    ensures Traced(Run(net, delay, Fresh(last, clock), ops))
    decreases |ops|
  {
    if ops != [] {
      var init, op := ops[..|ops| - 1], ops[|ops| - 1];
      var l := Run(net, delay, Fresh(last, clock), init);
      FitsSnoc(net, ops);
      RunsAreTraced(net, delay, last, clock, init);
      if op.WriteOp? {
        WriteTraced(net, delay, l, op);
      } else {
        FittingRunStays(net, delay, last, clock, init);
        SentSmallIff(net, delay, last, clock, init);
        ReadTraced(net, delay, l, op);
      }
    }
  }

  // ---- no byte is early ----

  // Reads return in clock order and after the sleep they owe.
  ghost predicate Timely(l: Link, op: Op) {
    op.ReadOp? ==>
      var o := ReadOutcome(l.readBuf, l.wire, op.n);
      o.Returned? ==> l.readClock <= op.end && (o.release.Some? ==> o.release.value <= op.end)
  }

  ghost predicate TimelyRun(net: Network, delay: int, l: Link, ops: seq<Op>) {
    ops == [] ||
    (TimelyRun(net, delay, l, ops[..|ops| - 1])
     && Timely(Run(net, delay, l, ops[..|ops| - 1]), ops[|ops| - 1]))
  }

  // The read time fits the 64-bit field of the header.
  predicate TimeFits(delay: int, k: Packet) {
    -TWO63 <= k.end + delay < TWO63
  }

  ghost predicate TimesFit(delay: int, ks: seq<Packet>) {
    forall i {:trigger TimeFits(delay, ks[i])} :: 0 <= i < |ks| ==> TimeFits(delay, ks[i])
  }

  // A delivery waited for its packet's read time.
  ghost predicate OnTime(delay: int, sent: seq<Packet>, d: Delivery) {
    d.packet < |sent| && sent[d.packet].end + delay <= d.at
  }

  ghost predicate Punctual(delay: int, l: Link) {
    && l.taken <= |l.sent|
    && (l.taken > 0 ==> l.sent[l.taken - 1].end + delay <= l.readClock)
    && (forall d {:trigger OnTime(delay, l.sent, l.deliveries[d])} :: 0 <= d < |l.deliveries| ==>
          OnTime(delay, l.sent, l.deliveries[d]))
  }

  lemma WritePunctual(net: Network, delay: int, l: Link, op: Op)
    requires Punctual(delay, l) && op.WriteOp?
    ensures Punctual(delay, Step(net, delay, l, op))
  {
    var l' := Step(net, delay, l, op);
    forall d | 0 <= d < |l'.deliveries| ensures OnTime(delay, l'.sent, l'.deliveries[d]) {
      assert OnTime(delay, l.sent, l.deliveries[d]);
    }
  }

  lemma ReleaseTime(net: Network, delay: int, l: Link)
    requires Transparent(net, delay, l) && NextSmall(l) && TimesFit(delay, l.sent) && l.readBuf == []
    ensures l.taken == |l.sent| ==> Parse(l.wire) == None
    ensures l.taken < |l.sent| ==>
              Parse(l.wire).Some? && Parse(l.wire).value.header.readTime == l.sent[l.taken].end + delay
  {
    NextPacket(net, delay, l);
    if l.taken < |l.sent| {
      var k := l.sent[l.taken];
      assert TimeFits(delay, k);
      RoundTripIff(PacketHeader(k.end + delay, |k.data|));
    }
  }

  // A Read that takes a packet owes a sleep until exactly the packet's end plus the delay, if and only if that
  // time fits the header; a Read from the buffer owes none.
  lemma ReadOwesIff(net: Network, delay: int, last: int, clock: int, ops: seq<Op>, n: nat)
    requires AllWritesFit(net, ops)
    ensures var l := Run(net, delay, Fresh(last, clock), ops);
            var o := ReadOutcome(l.readBuf, l.wire, n);
            && l.taken <= |l.sent|
            && (o.Returned? && l.readBuf != [] ==> o.release == None)
            && (o.Returned? && l.readBuf == [] ==>
                  && l.taken < |l.sent|
                  && (o.release == Some(l.sent[l.taken].end + delay) <==> TimeFits(delay, l.sent[l.taken])))
  {
    var l := Run(net, delay, Fresh(last, clock), ops);
    FittingRunStays(net, delay, last, clock, ops);
    if l.readBuf == [] {
      NextPacket(net, delay, l);
      if l.taken < |l.sent| {
        var k := l.sent[l.taken];
        DecodeEncode(PacketHeader(k.end + delay, |k.data|));
        SignedUnsignedIff(k.end + delay, TWO64);
      }
    }
  }

  lemma ReadPunctual(net: Network, delay: int, l: Link, op: Op)
    requires Transparent(net, delay, l) && NextSmall(l) && TimesFit(delay, l.sent) && Traced(l) && Punctual(delay, l)
    requires op.ReadOp? && Timely(l, op)
    ensures Punctual(delay, Step(net, delay, l, op))
  {
    if l.readBuf == [] {
      ReleaseTime(net, delay, l);
    }
    var l' := Step(net, delay, l, op);
    forall d | 0 <= d < |l'.deliveries| ensures OnTime(delay, l.sent, l'.deliveries[d]) {
      if d < |l.deliveries| {
        assert OnTime(delay, l.sent, l.deliveries[d]);
      }
    }
  }

  lemma {:induction false} SentGrows(net: Network, delay: int, l: Link, ops: seq<Op>)
    requires ops != []
    ensures Run(net, delay, l, ops[..|ops| - 1]).sent <= Run(net, delay, l, ops).sent
  {
  }

  lemma EarlierTimesFit(delay: int, some: seq<Packet>, all: seq<Packet>)
    requires some <= all && TimesFit(delay, all)
    ensures TimesFit(delay, some)
  {
    forall i | 0 <= i < |some| ensures TimeFits(delay, some[i]) {
      assert TimeFits(delay, all[i]);
    }
  }

  lemma {:induction false} DeliveriesArePunctual(net: Network, delay: int, last: int, clock: int, ops: seq<Op>)
    requires AllWritesFit(net, ops) && TimesFit(delay, Run(net, delay, Fresh(last, clock), ops).sent)
    requires TimelyRun(net, delay, Fresh(last, clock), ops)
    ensures Punctual(delay, Run(net, delay, Fresh(last, clock), ops))
    decreases |ops|
  {
    if ops != [] {
      var init, op := ops[..|ops| - 1], ops[|ops| - 1];
      var l := Run(net, delay, Fresh(last, clock), init);
      FitsSnoc(net, ops);
      SentGrows(net, delay, Fresh(last, clock), ops);
      EarlierTimesFit(delay, l.sent, Run(net, delay, Fresh(last, clock), ops).sent);
      DeliveriesArePunctual(net, delay, last, clock, init);
      if op.WriteOp? {
        WritePunctual(net, delay, l, op);
      } else {
        FittingRunStays(net, delay, last, clock, init);
        SentSmallIff(net, delay, last, clock, init);
        RunsAreTraced(net, delay, last, clock, init);
        ReadPunctual(net, delay, l, op);
      }
    }
  }

  // The bytes read are the bytes of the deliveries in order; those of each delivery come from one packet, and
  // none is handed out before that packet's Write started plus the delay plus its transmission time.
  lemma NothingArrivesEarly(net: Network, delay: int, last: int, clock: int, ops: seq<Op>, d: nat)
    requires AllWritesFit(net, ops) && TimesFit(delay, Run(net, delay, Fresh(last, clock), ops).sent)
    requires TimelyRun(net, delay, Fresh(last, clock), ops)
    ensures Bytes(Run(net, delay, Fresh(last, clock), ops).deliveries) == Run(net, delay, Fresh(last, clock), ops).read
    ensures d < |Run(net, delay, Fresh(last, clock), ops).deliveries| ==>
              var l := Run(net, delay, Fresh(last, clock), ops);
              var e := l.deliveries[d];
              && FromPacket(l.sent, e)
              && e.at >= l.sent[e.packet].start + delay + PktTime(net, |l.sent[e.packet].data|)
  {
    RunsAreTraced(net, delay, last, clock, ops);
    DeliveriesArePunctual(net, delay, last, clock, ops);
    SendersAreTimed(net, delay, last, clock, ops);
    var l := Run(net, delay, Fresh(last, clock), ops);
    if d < |l.deliveries| {
      var e := l.deliveries[d];
      assert FromPacket(l.sent, e) && OnTime(delay, l.sent, e);
      assert WellTimed(net, delay, Previous(l.sent, e.packet, last), l.sent[e.packet]);
    }
  }

  // ---- the connection objects follow the runs above ----

  // One direction between two connections that share a wire and a clock.
  ghost predicate Tracks(writer: Conn, reader: Conn, l: Link)
    reads writer, reader, writer.outbound, writer.clock
  {
    && writer != reader && reader.inbound == writer.outbound && reader.clock == writer.clock
    && writer.outbound.bytes == l.wire && reader.readBuf == l.readBuf && writer.lastSendEnd == l.lastSendEnd
    && l.readClock <= writer.clock.t && l.writeClock <= writer.clock.t
  }

  method TrackedWrite(writer: Conn, reader: Conn, p: seq<Byte>, ghost l: Link) returns (ghost op: Op)
    requires Tracks(writer, reader, l)
    modifies writer`lastSendEnd, writer.outbound, writer.clock
    ensures op.WriteOp? && op.p == p && InTurn(l, op) && old(writer.clock.t) <= op.start <= writer.clock.t
    ensures Tracks(writer, reader, Step(writer.network, writer.delay, l, op))
  {
    var n;
    ghost var start, ks;
    n, start, ks := writer.Write(p);
    op := WriteOp(p, start);
  }

  // The bytes returned are what the run says was read, and the run stays timely.
  method TrackedRead(writer: Conn, reader: Conn, n: nat, ghost l: Link)
    returns (r: Option<(seq<Byte>, bool)>, ghost op: Op)
    requires Tracks(writer, reader, l)
    modifies reader`readBuf, writer.outbound, writer.clock
    ensures op.ReadOp? && op.n == n && Timely(l, op)
    ensures Tracks(writer, reader, Step(writer.network, writer.delay, l, op))
    ensures Step(writer.network, writer.delay, l, op).read == l.read + if r.Some? then r.value.0 else []
  {
    r := reader.Read(n);
    op := ReadOp(n, reader.clock.t);
  }
}
