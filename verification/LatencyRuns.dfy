// Whole runs of one direction of a latency connection: any sequence of Writes and Reads, and exactly when
// they are transparent.
module LatencyRuns {
  import opened Header
  import opened LatencyPackets
  import opened NetConn
  import opened Wrappers

  // `start` is now() at the start of a Write, `end` the time a Read returned.
  datatype Op = WriteOp(p: seq<Byte>, start: int) | ReadOp(n: nat, end: int)

  // Bytes `data`, from position `from` of packet number `packet`, handed out by a Read that returned at `at`.
  datatype Delivery = Delivery(packet: nat, from: nat, data: seq<Byte>, at: int)

  datatype Link = Link(
    wire: seq<Byte>, readBuf: seq<Byte>, lastSendEnd: int, writeClock: int,
    sent: seq<Packet>, taken: nat, written: seq<Byte>, read: seq<Byte>,
    eofs: nat, readClock: int, deliveries: seq<Delivery>)

  function Fresh(lastSendEnd: int, clock: int): Link {
    Link([], [], lastSendEnd, clock, [], 0, [], [], 0, clock, [])
  }

  // The record of a Read that handed out `data` and kept `buf`, if the last packet taken can account for it.
  function Record(sent: seq<Packet>, taken: nat, data: seq<Byte>, buf: seq<Byte>, at: int): seq<Delivery> {
    if data != [] && 0 < taken <= |sent| && |data| + |buf| <= |sent[taken - 1].data|
    then [Delivery(taken - 1, |sent[taken - 1].data| - |buf| - |data|, data, at)]
    else []
  }

  function Step(net: Network, delay: int, l: Link, op: Op): Link {
    match op
    case WriteOp(p, start) =>
      var ks := WritePackets(net, delay, start, l.lastSendEnd, p);
      l.(wire := l.wire + EncodePackets(delay, ks), lastSendEnd := LastEnd(ks, Max(l.lastSendEnd, start)),
         writeClock := LastAt(ks, start), sent := l.sent + ks, written := l.written + p)
    case ReadOp(n, end) =>
      match ReadOutcome(l.readBuf, l.wire, n)
      case Blocked => l
      case Returned(data, eof, buf, wire, release) =>
        var taken := l.taken + if release.Some? then 1 else 0;
        l.(wire := wire, readBuf := buf, taken := taken, read := l.read + data,
           eofs := l.eofs + (if eof then 1 else 0), readClock := end,
           deliveries := l.deliveries + Record(l.sent, taken, data, buf, end))
  }

  function Run(net: Network, delay: int, l: Link, ops: seq<Op>): Link {
    if ops == [] then l else Step(net, delay, Run(net, delay, l, ops[..|ops| - 1]), ops[|ops| - 1])
  }

  lemma {:induction false} RunConcat(net: Network, delay: int, l: Link, ops: seq<Op>, more: seq<Op>)
    ensures Run(net, delay, l, ops + more) == Run(net, delay, Run(net, delay, l, ops), more)
  {
    if more == [] {
      assert ops + more == ops;
    } else {
      assert (ops + more)[..|ops + more| - 1] == ops + more[..|more| - 1];
      RunConcat(net, delay, l, ops, more[..|more| - 1]);
    }
  }

  // ---- transparency ----

  // The bytes read, the read buffer and the payloads in flight make up the bytes written; no packet is empty or
  // too large and no Read has reported an end of file.
  ghost predicate Transparent(net: Network, delay: int, l: Link) {
    && l.taken <= |l.sent|
    && l.wire == EncodePackets(delay, l.sent[l.taken..])
    && l.written == l.read + l.readBuf + Payload(l.sent[l.taken..])
    && l.eofs == 0
    && (forall i {:trigger GoodSize(net, l.sent[i])} :: 0 <= i < |l.sent| ==> GoodSize(net, l.sent[i]))
  }

  // The bytes still to come after more packets have been sent.
  lemma MoreInFlight(delay: int, sent: seq<Packet>, taken: nat, ks: seq<Packet>)
    requires taken <= |sent|
    ensures EncodePackets(delay, (sent + ks)[taken..])
            == EncodePackets(delay, sent[taken..]) + EncodePackets(delay, ks)
    ensures Payload((sent + ks)[taken..]) == Payload(sent[taken..]) + Payload(ks)
  {
    assert (sent + ks)[taken..] == sent[taken..] + ks;
    EncodeConcat(delay, sent[taken..], ks);
    PayloadConcat(sent[taken..], ks);
  }

  lemma MoreGoodSizes(net: Network, sent: seq<Packet>, ks: seq<Packet>)
    requires forall i {:trigger GoodSize(net, sent[i])} :: 0 <= i < |sent| ==> GoodSize(net, sent[i])
    requires forall i {:trigger GoodSize(net, ks[i])} :: 0 <= i < |ks| ==> GoodSize(net, ks[i])
    ensures forall i {:trigger GoodSize(net, (sent + ks)[i])} :: 0 <= i < |sent + ks| ==> GoodSize(net, (sent + ks)[i])
  {
  }

  lemma Reassociate(a: seq<Byte>, b: seq<Byte>, c: seq<Byte>, d: seq<Byte>)
    ensures a + b + c + d == a + b + (c + d)
  {
  }

  lemma WriteTransparent(net: Network, delay: int, l: Link, p: seq<Byte>, start: int)
    requires Transparent(net, delay, l)
    ensures Transparent(net, delay, Step(net, delay, l, WriteOp(p, start)))
  {
    var ks := WritePackets(net, delay, start, l.lastSendEnd, p);
    SendFragments(net, delay, start, start, Max(l.lastSendEnd, start), p);
    MoreInFlight(delay, l.sent, l.taken, ks);
    MoreGoodSizes(net, l.sent, ks);
    Reassociate(l.read, l.readBuf, Payload(l.sent[l.taken..]), p);
  }

  // What a Read with an empty buffer finds on the wire.
  lemma NextPacket(net: Network, delay: int, l: Link)
    requires Transparent(net, delay, l)
    ensures l.taken == |l.sent| ==> Parse(l.wire) == None
    ensures l.taken < |l.sent| ==>
              var k := l.sent[l.taken];
              var a := Announced(|k.data|);
              && k.data != [] && a <= |k.data|
              && Parse(l.wire) == Some(Frame(Decode(Encode(PacketHeader(k.end + delay, |k.data|))), k.data[..a],
                                             k.data[a..] + EncodePackets(delay, l.sent[l.taken + 1..])))
  {
    if l.taken < |l.sent| {
      var pending := l.sent[l.taken..];
      assert pending[1..] == l.sent[l.taken + 1..];
      assert GoodSize(net, l.sent[l.taken]);
      ParseEncoded(delay, pending[0], EncodePackets(delay, pending[1..]));
    }
  }

  // The next Read, if it takes a packet, takes a small one.
  predicate NextSmall(l: Link) {
    l.readBuf == [] && l.taken < |l.sent| ==> Small(l.sent[l.taken])
  }

  // Bytes move from the buffer to the reader without loss.
  lemma Drained(read: seq<Byte>, buf: seq<Byte>, m: nat)
    requires m <= |buf|
    ensures read + buf[..m] + buf[m..] == read + buf
  {
  }

  lemma TakesPacket(sent: seq<Packet>, taken: nat, read: seq<Byte>)
    requires taken < |sent|
    ensures read + [] + Payload(sent[taken..]) == read + sent[taken].data + Payload(sent[taken + 1..])
  {
  }

  // A small packet is taken whole.
  lemma NextPacketWhole(net: Network, delay: int, l: Link)
    requires Transparent(net, delay, l) && l.taken < |l.sent| && Small(l.sent[l.taken])
    ensures var k := l.sent[l.taken];
            && k.data != []
            && Parse(l.wire) == Some(Frame(Decode(Encode(PacketHeader(k.end + delay, |k.data|))), k.data,
                                           EncodePackets(delay, l.sent[l.taken + 1..])))
  {
    var k, rest := l.sent[l.taken], EncodePackets(delay, l.sent[l.taken + 1..]);
    NextPacket(net, delay, l);
    AnnouncedIff(|k.data|);
    assert k.data[..|k.data|] == k.data && k.data[|k.data|..] + rest == rest;
  }

  lemma BufferedReadTransparent(net: Network, delay: int, l: Link, n: nat, end: int)
    requires Transparent(net, delay, l) && l.readBuf != []
    ensures Transparent(net, delay, Step(net, delay, l, ReadOp(n, end)))
  {
    Drained(l.read, l.readBuf, if n < |l.readBuf| then n else |l.readBuf|);
  }

  // The state after a Read that took a small packet.
  lemma PacketReadStep(net: Network, delay: int, l: Link, n: nat, end: int)
    requires Transparent(net, delay, l) && l.readBuf == [] && l.taken < |l.sent| && Small(l.sent[l.taken])
    ensures var data := l.sent[l.taken].data;
            var m := if n < |data| then n else |data|;
            Step(net, delay, l, ReadOp(n, end)) ==
            l.(wire := EncodePackets(delay, l.sent[l.taken + 1..]), readBuf := data[m..], taken := l.taken + 1,
               read := l.read + data[..m], readClock := end,
               deliveries := l.deliveries + Record(l.sent, l.taken + 1, data[..m], data[m..], end))
  {
    NextPacketWhole(net, delay, l);
  }

  lemma PacketReadTransparent(net: Network, delay: int, l: Link, n: nat, end: int)
    requires Transparent(net, delay, l) && l.readBuf == [] && l.taken < |l.sent| && Small(l.sent[l.taken])
    ensures Transparent(net, delay, Step(net, delay, l, ReadOp(n, end)))
    ensures Step(net, delay, l, ReadOp(n, end)).taken == l.taken + 1
  {
    var data := l.sent[l.taken].data;
    PacketReadStep(net, delay, l, n, end);
    Drained(l.read, data, if n < |data| then n else |data|);
    TakesPacket(l.sent, l.taken, l.read);
  }

  lemma ReadTransparent(net: Network, delay: int, l: Link, n: nat, end: int)
    requires Transparent(net, delay, l) && NextSmall(l)
    ensures Transparent(net, delay, Step(net, delay, l, ReadOp(n, end)))
  {
    if l.readBuf != [] {
      BufferedReadTransparent(net, delay, l, n, end);
    } else if l.taken < |l.sent| {
      PacketReadTransparent(net, delay, l, n, end);
    } else {
      NextPacket(net, delay, l);
    }
  }

  // A Read that reaches a packet of 2^31 bytes or more never blocks and ends transparency at once: part of the
  // packet stays on the wire in front of the next header.
  lemma BigPacketBreaks(net: Network, delay: int, l: Link, n: nat, end: int)
    requires Transparent(net, delay, l) && !NextSmall(l)
    ensures ReadOutcome(l.readBuf, l.wire, n).Returned?
    ensures !Transparent(net, delay, Step(net, delay, l, ReadOp(n, end)))
  {
    var k, rest := l.sent[l.taken], EncodePackets(delay, l.sent[l.taken + 1..]);
    NextPacket(net, delay, l);
    AnnouncedIff(|k.data|);
    assert |k.data[Announced(|k.data|)..] + rest| > |rest|;
  }

  // ---- which runs are transparent ----

  // A Write whose packets fit the 32-bit size field; the caller knows the MTU and the payload.
  predicate WriteFits(net: Network, op: Op) {
    op.WriteOp? ==> PacketLength(net, |op.p|) < TWO31
  }

  ghost predicate AllWritesFit(net: Network, ops: seq<Op>) {
    forall i {:trigger WriteFits(net, ops[i])} :: 0 <= i < |ops| ==> WriteFits(net, ops[i])
  }

  ghost predicate OnlyReads(ops: seq<Op>) {
    forall i :: 0 <= i < |ops| ==> ops[i].ReadOp?
  }

  // Transparent at every moment of the run.
  ghost predicate Stays(net: Network, delay: int, l: Link, ops: seq<Op>) {
    Transparent(net, delay, Run(net, delay, l, ops)) && (ops != [] ==> Stays(net, delay, l, ops[..|ops| - 1]))
  }

  lemma FitsSnoc(net: Network, ops: seq<Op>)
    requires ops != []
    ensures AllWritesFit(net, ops) <==> AllWritesFit(net, ops[..|ops| - 1]) && WriteFits(net, ops[|ops| - 1])
  {
    var init := ops[..|ops| - 1];
    assert forall i :: 0 <= i < |init| ==> init[i] == ops[i];
    if AllWritesFit(net, ops) {
      forall i | 0 <= i < |init| ensures WriteFits(net, init[i]) {
        assert WriteFits(net, ops[i]);
      }
    }
    if AllWritesFit(net, init) && WriteFits(net, ops[|ops| - 1]) {
      forall i | 0 <= i < |ops| ensures WriteFits(net, ops[i]) {
        if i < |init| {
          assert WriteFits(net, init[i]);
        }
      }
    }
  }

  // The packets sent are all small exactly when all Writes fit.
  lemma {:induction false} SentSmallIff(net: Network, delay: int, last: int, clock: int, ops: seq<Op>)
    ensures AllSmall(Run(net, delay, Fresh(last, clock), ops).sent) <==> AllWritesFit(net, ops)
    decreases |ops|
  {
    if ops != [] {
      var init, op := ops[..|ops| - 1], ops[|ops| - 1];
      var l := Run(net, delay, Fresh(last, clock), init);
      SentSmallIff(net, delay, last, clock, init);
      FitsSnoc(net, ops);
      if op.WriteOp? {
        SendSmallIff(net, delay, op.start, op.start, Max(l.lastSendEnd, op.start), op.p);
        SmallConcat(l.sent, WritePackets(net, delay, op.start, l.lastSendEnd, op.p));
      }
    }
  }

  lemma {:induction false} FittingRunStays(net: Network, delay: int, last: int, clock: int, ops: seq<Op>)
    requires AllWritesFit(net, ops)
    ensures Stays(net, delay, Fresh(last, clock), ops)
    decreases |ops|
  {
    if ops != [] {
      var init, op := ops[..|ops| - 1], ops[|ops| - 1];
      var l := Run(net, delay, Fresh(last, clock), init);
      FitsSnoc(net, ops);
      FittingRunStays(net, delay, last, clock, init);
      SentSmallIff(net, delay, last, clock, init);
      match op
      case WriteOp(p, start) => WriteTransparent(net, delay, l, p, start);
      case ReadOp(n, end) => ReadTransparent(net, delay, l, n, end);
    }
  }

  // While a run stays transparent only small packets have been taken.
  ghost predicate TakenSmall(l: Link) {
    l.taken <= |l.sent| && AllSmall(l.sent[..l.taken])
  }

  lemma ReadTakenSmall(net: Network, delay: int, l: Link, op: Op)
    requires Transparent(net, delay, l) && TakenSmall(l) && op.ReadOp?
    requires Transparent(net, delay, Step(net, delay, l, op))
    ensures TakenSmall(Step(net, delay, l, op))
  {
    if !NextSmall(l) {
      BigPacketBreaks(net, delay, l, op.n, op.end);
      assert false;
    } else if l.readBuf == [] {
      NextPacket(net, delay, l);
      if l.taken < |l.sent| {
        assert l.sent[..l.taken + 1] == l.sent[..l.taken] + [l.sent[l.taken]];
        SmallConcat(l.sent[..l.taken], [l.sent[l.taken]]);
      }
    }
  }

  lemma {:induction false} StaysTakenSmall(net: Network, delay: int, last: int, clock: int, ops: seq<Op>)
    requires Stays(net, delay, Fresh(last, clock), ops)
    ensures TakenSmall(Run(net, delay, Fresh(last, clock), ops))
    decreases |ops|
  {
    if ops != [] {
      var init, op := ops[..|ops| - 1], ops[|ops| - 1];
      var l := Run(net, delay, Fresh(last, clock), init);
      StaysTakenSmall(net, delay, last, clock, init);
      if op.ReadOp? {
        ReadTakenSmall(net, delay, l, op);
      } else {
        assert Step(net, delay, l, op).sent[..l.taken] == l.sent[..l.taken];
      }
    }
  }

  lemma {:induction false} StaysSuffix(net: Network, delay: int, l: Link, ops: seq<Op>, more: seq<Op>)
    requires Stays(net, delay, l, ops + more)
    ensures Stays(net, delay, Run(net, delay, l, ops), more)
    decreases |more|
  {
    RunConcat(net, delay, l, ops, more);
    if more != [] {
      assert (ops + more)[..|ops + more| - 1] == ops + more[..|more| - 1];
      StaysSuffix(net, delay, l, ops, more[..|more| - 1]);
    } else {
      assert ops + more == ops;
    }
  }

  // The Read that empties the buffer, or takes the next packet whole.
  function NextRead(l: Link): Op
    requires l.readBuf != [] || l.taken < |l.sent|
  {
    ReadOp(if l.readBuf != [] then |l.readBuf| else |l.sent[l.taken].data|, 0)
  }

  lemma NextReadAdvances(net: Network, delay: int, l: Link)
    requires Transparent(net, delay, l) && NextSmall(l) && l.taken < |l.sent|
    ensures var l' := Step(net, delay, l, NextRead(l));
            && Transparent(net, delay, l') && l'.sent == l.sent
            && (if l.readBuf != [] then l'.taken == l.taken && l'.readBuf == [] else l'.taken == l.taken + 1)
  {
    var n := NextRead(l).n;
    if l.readBuf != [] {
      BufferedReadTransparent(net, delay, l, n, 0);
    } else {
      PacketReadStep(net, delay, l, n, 0);
      PacketReadTransparent(net, delay, l, n, 0);
    }
  }

  lemma StaysAfter(net: Network, delay: int, l: Link, op: Op, rest: seq<Op>)
    requires Stays(net, delay, l, [op] + rest)
    ensures Stays(net, delay, Step(net, delay, l, op), rest)
  {
    assert [op][..0] == [] && Run(net, delay, l, [op]) == Step(net, delay, l, op);
    StaysSuffix(net, delay, l, [op], rest);
  }

  lemma BigReadBreaks(net: Network, delay: int, l: Link, op: Op)
    requires Transparent(net, delay, l) && !NextSmall(l) && op.ReadOp?
    ensures !Stays(net, delay, l, [op])
  {
    BigPacketBreaks(net, delay, l, op.n, op.end);
    assert [op][..0] == [] && Run(net, delay, l, [op]) == Step(net, delay, l, op);
  }

  // Enough Reads reach any packet in flight of 2^31 bytes or more.
  lemma {:induction false} ReadsThatBreak(net: Network, delay: int, l: Link, q: nat) returns (rs: seq<Op>)
    requires Transparent(net, delay, l) && l.taken <= q < |l.sent| && !Small(l.sent[q])
    ensures OnlyReads(rs) && !Stays(net, delay, l, rs)
    decreases q - l.taken, |l.readBuf|
  {
    var op := NextRead(l);
    if !NextSmall(l) {
      BigReadBreaks(net, delay, l, op);
      rs := [op];
    } else {
      NextReadAdvances(net, delay, l);
      var rest := ReadsThatBreak(net, delay, Step(net, delay, l, op), q);
      rs := [op] + rest;
      if Stays(net, delay, l, rs) {
        StaysAfter(net, delay, l, op, rest);
      }
    }
  }

  lemma {:induction false} ContinuationThatBreaks(net: Network, delay: int, last: int, clock: int, ops: seq<Op>)
    returns (rs: seq<Op>)
    requires !AllWritesFit(net, ops)
    ensures OnlyReads(rs) && !Stays(net, delay, Fresh(last, clock), ops + rs)
  {
    var l0 := Fresh(last, clock);
    if !Stays(net, delay, l0, ops) {
      rs := [];
      assert ops + rs == ops;
    } else {
      var l := Run(net, delay, l0, ops);
      SentSmallIff(net, delay, last, clock, ops);
      StaysTakenSmall(net, delay, last, clock, ops);
      var pending := l.sent[l.taken..];
      assert l.sent == l.sent[..l.taken] + pending;
      SmallConcat(l.sent[..l.taken], pending);
      var q :| 0 <= q < |pending| && !Small(pending[q]);
      rs := ReadsThatBreak(net, delay, l, l.taken + q);
      if Stays(net, delay, l0, ops + rs) {
        StaysSuffix(net, delay, l0, ops, rs);
      }
    }
  }

  // Stream transparency, exactly: a run stays transparent, and goes on doing so whatever is read, if and only if
  // the packets of all its Writes fit the size field. The condition speaks of MTU and payload lengths alone.
  lemma TransparentIff(net: Network, delay: int, last: int, clock: int, ops: seq<Op>)
    ensures AllWritesFit(net, ops) <==>
            forall rs {:trigger OnlyReads(rs)} ::
              OnlyReads(rs) ==> Stays(net, delay, Fresh(last, clock), ops + rs)
  {
    if AllWritesFit(net, ops) {
      forall rs | OnlyReads(rs) ensures Stays(net, delay, Fresh(last, clock), ops + rs) {
        forall i | 0 <= i < |ops + rs| ensures WriteFits(net, (ops + rs)[i]) {
          if i < |ops| {
            assert WriteFits(net, ops[i]);
          }
        }
        FittingRunStays(net, delay, last, clock, ops + rs);
      }
    } else {
      var rs := ContinuationThatBreaks(net, delay, last, clock, ops);
    }
  }

  // With a positive MTU below 2^31 no run ever breaks.
  lemma UsualMtuIsTransparent(net: Network, delay: int, last: int, clock: int, ops: seq<Op>)
    requires 0 < net.mtu < TWO31
    ensures Transparent(net, delay, Run(net, delay, Fresh(last, clock), ops))
  {
    forall i | 0 <= i < |ops| ensures WriteFits(net, ops[i]) {
    }
    FittingRunStays(net, delay, last, clock, ops);
  }
}
