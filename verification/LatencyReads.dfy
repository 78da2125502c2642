// What each Read of a run hands out, and that enough Reads deliver everything.
module LatencyReads {
  import opened Header
  import opened LatencyPackets
  import opened LatencyRuns
  import opened NetConn

  // What the next Read can take from: the buffer, or the next packet if the buffer is empty.
  function Available(l: Link): seq<Byte> {
    if l.readBuf != [] then l.readBuf
    else if l.taken < |l.sent| then l.sent[l.taken].data
    else []
  }

  lemma {:induction false} NoPayloadIff(net: Network, ks: seq<Packet>)
    requires forall i {:trigger GoodSize(net, ks[i])} :: 0 <= i < |ks| ==> GoodSize(net, ks[i])
    ensures Payload(ks) == [] <==> ks == []
  {
    if ks != [] {
      assert GoodSize(net, ks[0]);
    }
  }

  // Nothing is available exactly when everything written has been read.
  lemma NothingLeftIff(net: Network, delay: int, l: Link)
    requires Transparent(net, delay, l)
    ensures Available(l) == [] <==> l.read == l.written
  {
    var pending := l.sent[l.taken..];
    forall i | 0 <= i < |pending| ensures GoodSize(net, pending[i]) {
      assert GoodSize(net, l.sent[l.taken + i]);
    }
    NoPayloadIff(net, pending);
    if l.taken < |l.sent| {
      assert GoodSize(net, l.sent[l.taken]);
    }
    if Available(l) == [] {
      assert l.read + [] + [] == l.read;
    } else {
      assert |l.written| == |l.read| + |l.readBuf| + |Payload(pending)|;
    }
  }

  lemma StepHandsOut(net: Network, delay: int, l: Link, n: nat, end: int)
    requires Transparent(net, delay, l) && NextSmall(l)
    ensures var a, o, l' := Available(l), ReadOutcome(l.readBuf, l.wire, n), Step(net, delay, l, ReadOp(n, end));
            var m := if n < |a| then n else |a|;
            && (o.Blocked? <==> a == [])
            && (o.Returned? ==> o.data == a[..m] && o.readBuf == a[m..] && !o.eof)
            && l'.read == l.read + a[..m] && l'.written == l.written && l'.sent == l.sent
  {
    if l.readBuf == [] {
      if l.taken < |l.sent| {
        NextPacketWhole(net, delay, l);
      } else {
        NextPacket(net, delay, l);
        assert l.read + [] == l.read;
      }
    }
  }

  lemma RunIsReadable(net: Network, delay: int, last: int, clock: int, ops: seq<Op>)
    requires AllWritesFit(net, ops)
    ensures var l := Run(net, delay, Fresh(last, clock), ops);
            Transparent(net, delay, l) && NextSmall(l)
  {
    FittingRunStays(net, delay, last, clock, ops);
    SentSmallIff(net, delay, last, clock, ops);
  }

  // Every Read after a fitting run: it blocks exactly when all written bytes have been read; otherwise it hands out
  // the next bytes written, as many as it asked for or as are available, keeps the rest and reports no end of file.
  lemma ReadHandsOut(net: Network, delay: int, last: int, clock: int, ops: seq<Op>, n: nat, end: int)
    requires AllWritesFit(net, ops)
    ensures var l := Run(net, delay, Fresh(last, clock), ops);
            var a, o, l' := Available(l), ReadOutcome(l.readBuf, l.wire, n), Step(net, delay, l, ReadOp(n, end));
            var m := if n < |a| then n else |a|;
            && (o.Blocked? <==> l.read == l.written)
            && (o.Blocked? <==> a == [])
            && (o.Returned? ==> o.data == a[..m] && o.readBuf == a[m..] && !o.eof)
            && l'.read == l.read + a[..m] && l'.read <= l'.written == l.written
  {
    var l := Run(net, delay, Fresh(last, clock), ops);
    RunIsReadable(net, delay, last, clock, ops);
    NothingLeftIff(net, delay, l);
    StepHandsOut(net, delay, l, n, end);
    ReadTransparent(net, delay, l, n, end);
    ReadIsPrefix(net, delay, Step(net, delay, l, ReadOp(n, end)));
  }

  lemma ReadIsPrefix(net: Network, delay: int, l: Link)
    requires Transparent(net, delay, l)
    ensures l.read <= l.written
  {
  }

  ghost predicate PositiveReads(rs: seq<Op>) {
    forall i :: 0 <= i < |rs| ==> rs[i].ReadOp? && rs[i].n > 0
  }

  lemma ReadsFit(net: Network, ops: seq<Op>, rs: seq<Op>)
    requires AllWritesFit(net, ops) && PositiveReads(rs)
    ensures AllWritesFit(net, ops + rs)
  {
    forall i | 0 <= i < |ops + rs| ensures WriteFits(net, (ops + rs)[i]) {
      if i < |ops| {
        assert WriteFits(net, ops[i]);
      }
    }
  }

  // Each Read of at least one byte delivers one or finds everything delivered.
  lemma {:induction false} ReadsProgress(net: Network, delay: int, last: int, clock: int, ops: seq<Op>, rs: seq<Op>)
    requires AllWritesFit(net, ops) && PositiveReads(rs)
    ensures var l, l' := Run(net, delay, Fresh(last, clock), ops), Run(net, delay, Fresh(last, clock), ops + rs);
            && l'.written == l.written && l'.read <= l'.written
            && (l'.read == l'.written || |l'.read| >= |l.read| + |rs|)
    decreases |rs|
  {
    if rs == [] {
      assert ops + rs == ops;
      RunIsReadable(net, delay, last, clock, ops);
      ReadIsPrefix(net, delay, Run(net, delay, Fresh(last, clock), ops));
    } else {
      var init, r := rs[..|rs| - 1], rs[|rs| - 1];
      ReadsProgress(net, delay, last, clock, ops, init);
      ReadsFit(net, ops, init);
      assert (ops + rs)[..|ops + rs| - 1] == ops + init;
      ReadHandsOut(net, delay, last, clock, ops + init, r.n, r.end);
    }
  }

  // As many Reads as bytes are outstanding, of any positive sizes, deliver everything written.
  lemma ReadsDeliverAll(net: Network, delay: int, last: int, clock: int, ops: seq<Op>, rs: seq<Op>)
    requires AllWritesFit(net, ops) && PositiveReads(rs)
    requires var l := Run(net, delay, Fresh(last, clock), ops); |l.written| - |l.read| <= |rs|
    ensures Run(net, delay, Fresh(last, clock), ops + rs).read == Run(net, delay, Fresh(last, clock), ops).written
  {
    ReadsProgress(net, delay, last, clock, ops, rs);
  }
}
