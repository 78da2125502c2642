// The send clock of a connection, exactly, over whole runs.
module SendClock {
  import opened Header
  import opened LatencyPackets
  import opened LatencyRuns
  import opened NetConn

  // A Write starts no earlier than the writer's clock, which never goes back.
  ghost predicate InTurn(l: Link, op: Op) {
    op.WriteOp? ==> l.writeClock <= op.start
  }

  ghost predicate InTurnRun(net: Network, delay: int, l: Link, ops: seq<Op>) {
    ops == [] ||
    (InTurnRun(net, delay, l, ops[..|ops| - 1])
     && InTurn(Run(net, delay, l, ops[..|ops| - 1]), ops[|ops| - 1]))
  }

  // At time t a connection busy until `busy` may take the next packet.
  predicate Clear(net: Network, delay: int, busy: int, t: int) {
    net.kbps <= 0 || busy - t <= delay
  }

  ghost predicate Earliest(net: Network, delay: int, busy: int, from: int, at: int) {
    && from <= at && Clear(net, delay, busy, at)
    && (forall t {:trigger Clear(net, delay, busy, t)} :: from <= t < at ==> !Clear(net, delay, busy, t))
  }

  // The packet is on the wire one transmission time after the later of the previous packet's end and its own
  // Write's start, and it left the writer as early as the backlog allowed.
  ghost predicate ExactlyTimed(net: Network, delay: int, prevEnd: int, prevAt: int, k: Packet) {
    var busy := if prevEnd < k.start then k.start else prevEnd;
    && k.end == busy + PktTime(net, |k.data|)
    && Earliest(net, delay, busy, if prevAt < k.start then k.start else prevAt, k.at)
  }

  ghost function PreviousAt(ks: seq<Packet>, i: nat, at: int): int
    requires i < |ks|
  {
    if i == 0 then at else ks[i - 1].at
  }

  ghost predicate AllExact(net: Network, delay: int, ks: seq<Packet>, last: int, at: int) {
    forall i {:trigger PreviousAt(ks, i, at)} :: 0 <= i < |ks| ==>
      ExactlyTimed(net, delay, Previous(ks, i, last), PreviousAt(ks, i, at), ks[i])
  }

  // ---- one Write ----

  lemma FirstExact(net: Network, delay: int, start: int, tNow: int, last: int, p: seq<Byte>)
    requires start <= tNow && start <= last && p != []
    ensures var k := FirstPacket(net, delay, start, tNow, last, p);
            ExactlyTimed(net, delay, last, tNow, k) && tNow <= k.at && last <= k.end && k.start == start
  {
  }

  lemma {:induction false} SendExact(net: Network, delay: int, start: int, tNow: int, last: int, p: seq<Byte>)
    requires start <= tNow && start <= last
    ensures var ks := Send(net, delay, start, tNow, last, p);
            && AllExact(net, delay, ks, last, tNow)
            && (forall i :: 0 <= i < |ks| ==> ks[i].start == start)
            && last <= LastEnd(ks, last)
    decreases |p|
  {
    if p != [] {
      var k := FirstPacket(net, delay, start, tNow, last, p);
      var rest := Send(net, delay, start, k.at, k.end, p[|k.data|..]);
      FirstExact(net, delay, start, tNow, last, p);
      SendExact(net, delay, start, k.at, k.end, p[|k.data|..]);
      ExactCons(net, delay, k, rest, last, tNow);
    }
  }

  lemma ExactCons(net: Network, delay: int, k: Packet, rest: seq<Packet>, last: int, at: int)
    requires ExactlyTimed(net, delay, last, at, k) && AllExact(net, delay, rest, k.end, k.at)
    ensures AllExact(net, delay, [k] + rest, last, at)
  {
    var ks := [k] + rest;
    forall i | 0 <= i < |ks|
      ensures ExactlyTimed(net, delay, Previous(ks, i, last), PreviousAt(ks, i, at), ks[i])
    {
      if i > 0 {
        assert PreviousAt(ks, i, at) == PreviousAt(rest, i - 1, k.at);
        assert Previous(ks, i, last) == Previous(rest, i - 1, k.end);
      }
    }
  }

  // ---- whole runs ----

  ghost predicate ClockOk(net: Network, delay: int, l: Link, last: int, clock: int) {
    && AllExact(net, delay, l.sent, last, clock)
    && LastEnd(l.sent, last) <= l.lastSendEnd
    && (l.lastSendEnd == LastEnd(l.sent, last) || l.lastSendEnd <= l.writeClock)
    && LastAt(l.sent, clock) <= l.writeClock
  }

  // A later Write sees of the earlier packets only the end and the clock of the last one.
  lemma ExactConcat(net: Network, delay: int, ks: seq<Packet>, ls: seq<Packet>, last: int, at: int, mid: int,
                    start: int)
    requires AllExact(net, delay, ks, last, at) && AllExact(net, delay, ls, mid, start)
    requires forall i :: 0 <= i < |ls| ==> ls[i].start == start
    requires mid == Max(LastEnd(ks, last), start) && LastAt(ks, at) <= start
    ensures AllExact(net, delay, ks + ls, last, at)
  {
    var es := ks + ls;
    forall i | 0 <= i < |es|
      ensures ExactlyTimed(net, delay, Previous(es, i, last), PreviousAt(es, i, at), es[i])
    {
      if i < |ks| {
        assert PreviousAt(es, i, at) == PreviousAt(ks, i, at) && Previous(es, i, last) == Previous(ks, i, last);
      } else {
        var j := i - |ks|;
        assert ExactlyTimed(net, delay, Previous(ls, j, mid), PreviousAt(ls, j, start), ls[j]);
      }
    }
  }

  lemma WriteClockOk(net: Network, delay: int, l: Link, op: Op, last: int, clock: int)
    requires ClockOk(net, delay, l, last, clock) && op.WriteOp? && InTurn(l, op)
    ensures ClockOk(net, delay, Step(net, delay, l, op), last, clock)
  {
    var mid := Max(l.lastSendEnd, op.start);
    var ks := WritePackets(net, delay, op.start, l.lastSendEnd, op.p);
    SendExact(net, delay, op.start, op.start, mid, op.p);
    ExactConcat(net, delay, l.sent, ks, last, clock, mid, op.start);
  }

  lemma {:induction false} RunClockOk(net: Network, delay: int, last: int, clock: int, ops: seq<Op>)
    requires InTurnRun(net, delay, Fresh(last, clock), ops)
    ensures ClockOk(net, delay, Run(net, delay, Fresh(last, clock), ops), last, clock)
    decreases |ops|
  {
    if ops != [] {
      var init, op := ops[..|ops| - 1], ops[|ops| - 1];
      RunClockOk(net, delay, last, clock, init);
      if op.WriteOp? {
        WriteClockOk(net, delay, Run(net, delay, Fresh(last, clock), init), op, last, clock);
      }
    }
  }

  // The send clock over any run: every packet ends one transmission time after the later of the previous
  // packet's end and its Write's start, and leaves at the first moment its writer is there and the backlog is
  // at most the delay.
  lemma SendClockIsExact(net: Network, delay: int, last: int, clock: int, ops: seq<Op>, i: nat)
    requires InTurnRun(net, delay, Fresh(last, clock), ops)
    ensures var ks := Run(net, delay, Fresh(last, clock), ops).sent;
            i < |ks| ==> ExactlyTimed(net, delay, Previous(ks, i, last), PreviousAt(ks, i, clock), ks[i])
  {
    RunClockOk(net, delay, last, clock, ops);
    var ks := Run(net, delay, Fresh(last, clock), ops).sent;
    if i < |ks| {
      assert ExactlyTimed(net, delay, Previous(ks, i, last), PreviousAt(ks, i, clock), ks[i]);
    }
  }

  // The packets a Write adds carry its start and its payload.
  lemma PacketsOfAWrite(net: Network, delay: int, l: Link, p: seq<Byte>, start: int)
    ensures var l' := Step(net, delay, l, WriteOp(p, start));
            && l.sent <= l'.sent
            && (forall i :: |l.sent| <= i < |l'.sent| ==> l'.sent[i].start == start)
            && Payload(l'.sent[|l.sent|..]) == p
  {
    var ks := WritePackets(net, delay, start, l.lastSendEnd, p);
    SendExact(net, delay, start, start, Max(l.lastSendEnd, start), p);
    SendFragments(net, delay, start, start, Max(l.lastSendEnd, start), p);
    assert (l.sent + ks)[|l.sent|..] == ks;
  }

  // On an idle connection a Write of one packet is readable exactly one delay and its transmission time after
  // its start.
  lemma IdleDelayIsExact(net: Network, delay: int, last: int, clock: int, ops: seq<Op>, p: seq<Byte>, start: int)
    requires InTurnRun(net, delay, Fresh(last, clock), ops)
    requires InTurn(Run(net, delay, Fresh(last, clock), ops), WriteOp(p, start))
    requires p != [] && (net.mtu > 0 ==> |p| <= net.mtu)
    requires last <= start
    requires forall k :: k in Run(net, delay, Fresh(last, clock), ops).sent ==> k.end <= start
    ensures var l := Run(net, delay, Fresh(last, clock), ops);
            var l' := Step(net, delay, l, WriteOp(p, start));
            && |l'.sent| == |l.sent| + 1 && l'.sent[|l.sent|].data == p
            && l'.wire == l.wire + (Encode(PacketHeader(start + delay + PktTime(net, |p|), |p|)) + p)
  {
    RunClockOk(net, delay, last, clock, ops);
    IdleStep(net, delay, Run(net, delay, Fresh(last, clock), ops), last, clock, p, start);
  }

  lemma IdleStep(net: Network, delay: int, l: Link, last: int, clock: int, p: seq<Byte>, start: int)
    requires ClockOk(net, delay, l, last, clock) && InTurn(l, WriteOp(p, start))
    requires p != [] && (net.mtu > 0 ==> |p| <= net.mtu)
    requires last <= start && forall k :: k in l.sent ==> k.end <= start
    ensures var l' := Step(net, delay, l, WriteOp(p, start));
            && |l'.sent| == |l.sent| + 1 && l'.sent[|l.sent|].data == p
            && l'.wire == l.wire + (Encode(PacketHeader(start + delay + PktTime(net, |p|), |p|)) + p)
  {
    assert LastEnd(l.sent, last) <= start;
    OnePacket(net, delay, start, start, p);
  }

  lemma OnePacket(net: Network, delay: int, start: int, last: int, p: seq<Byte>)
    requires p != [] && (net.mtu > 0 ==> |p| <= net.mtu)
    ensures var ks := Send(net, delay, start, start, last, p);
            && |ks| == 1 && ks[0].data == p
            && EncodePackets(delay, ks) == Encode(PacketHeader(last + delay + PktTime(net, |p|), |p|)) + p
  {
    var k := FirstPacket(net, delay, start, start, last, p);
    assert k.data == p && p[|p|..] == [];
    assert Send(net, delay, start, k.at, k.end, []) == [];
    assert EncodePackets(delay, [k]) == EncodePacket(delay, k) + EncodePackets(delay, [k][1..]);
  }
}
