// The latency-measuring handshake: two parties over two reliable FIFO channels.
module Sync {
  import opened Wrappers

  const WARMUP := 10
  const GIVE_UP := 50
  const ACCURACY := 1_000_000
  const GOOD_RUN := 3

  // Zero receive time: fill in and respond. Both zero: stop.
  datatype Msg = Msg(sendT: int, recvT: int)

  datatype Kind = Ping | Pong | Stop

  function KindOf(m: Msg): Kind {
    if m.recvT != 0 then Pong else if m.sendT != 0 then Ping else Stop
  }

  // `pending` is an answer computed but not written yet; `lags` are the lags measured so far, `pings` the times
  // read for the party's own pings and `stamps` those it put on the other's pings.
  datatype Party = Party(
    att: nat, good: nat, latency: int, localDone: bool, remoteDone: bool, send: bool,
    pending: Option<Msg>, lags: seq<int>, pings: seq<int>, stamps: seq<int>)
  {
    predicate Finished() { localDone && remoteDone && pending.None? }
  }

  datatype System = System(a: Party, b: Party, ab: seq<Msg>, ba: seq<Msg>) {
    function Swap(): System { System(b, a, ba, ab) }
    predicate Finished() { a.Finished() && b.Finished() }
  }

  ghost predicate Initial(p: Party) {
    && p.att == 0 && p.good == 0 && p.latency == 0 && !p.localDone && !p.remoteDone && p.send
    && p.pending.None? && |p.lags| == 0 && |p.pings| == 0 && |p.stamps| == 0
  }

  ghost predicate Init(s: System) {
    Initial(s.a) && Initial(s.b) && |s.ab| == 0 && |s.ba| == 0
  }

  // Go's division.
  function Truncated(x: int, y: nat): int
    requires y > 0
  {
    if x >= 0 then x / y else -((-x) / y)
  }

  lemma TruncatedIs(x: int, y: nat)
    requires y > 0
    ensures x >= 0 ==> Truncated(x, y) * y <= x < (Truncated(x, y) + 1) * y
    ensures x <= 0 ==> (Truncated(x, y) - 1) * y < x <= Truncated(x, y) * y
  {
    var q := if x >= 0 then x / y else (-x) / y;
    assert (-q) * y == -(q * y);
  }

  predicate Near(e: int) { -ACCURACY < e < ACCURACY }

  // Processing a message received at time `now` (lines 198-229).
  function Handle(p: Party, m: Msg, now: int): Party
    requires KindOf(m).Pong? ==> p.att > 0
  {
    match KindOf(m)
    case Stop => p.(remoteDone := true)
    case Ping => p.(pending := Some(Msg(m.sendT, now)), stamps := p.stamps + [now])
    case Pong =>
      var lag := m.recvT - m.sendT;
      var latency := p.latency + lag;
      var avg := Truncated(latency, p.att);
      var e := lag - avg;
      var good := if Near(e) then p.good + 1 else 0;
      var p' := p.(good := good, lags := p.lags + [lag]);
      if p.att < GIVE_UP && (p.att < WARMUP || good < GOOD_RUN) then
        p'.(latency := latency, send := true)
      else
        p'.(latency := avg, localDone := true, pending := Some(Msg(0, 0)))
  }

  // What the first party can do next; `t` is the time it reads from its clock.
  datatype Action = WritePending | WritePing(t: int) | Receive(t: int)

  predicate Enabled(s: System, act: Action) {
    match act
    case WritePending => s.a.pending.Some?
    case WritePing(t) => s.a.pending.None? && !s.a.Finished() && s.a.send && t != 0
    case Receive(t) =>
      && s.a.pending.None? && !s.a.Finished() && !s.a.send && t != 0 && s.ba != []
      && (KindOf(s.ba[0]).Pong? ==> s.a.att > 0)
  }

  function Apply(s: System, act: Action): System
    requires Enabled(s, act)
  {
    match act
    case WritePending => s.(a := s.a.(pending := None), ab := s.ab + [s.a.pending.value])
    case WritePing(t) =>
      s.(a := s.a.(att := s.a.att + 1, send := false, pings := s.a.pings + [t]), ab := s.ab + [Msg(t, 0)])
    case Receive(t) => s.(a := Handle(s.a, s.ba[0], t), ba := s.ba[1..])
  }

  // ---- counting messages, pending answers included ----

  function Count(ms: seq<Msg>, k: Kind): nat {
    if ms == [] then 0 else (if KindOf(ms[0]) == k then 1 else 0) + Count(ms[1..], k)
  }

  lemma {:induction false} CountSnoc(ms: seq<Msg>, m: Msg, k: Kind)
    ensures Count(ms + [m], k) == Count(ms, k) + if KindOf(m) == k then 1 else 0
  {
    if ms != [] {
      assert (ms + [m])[1..] == ms[1..] + [m];
      CountSnoc(ms[1..], m, k);
    } else {
      assert [] + [m] == [m];
    }
  }

  function PendingCount(p: Party, k: Kind): nat {
    if p.pending.Some? && KindOf(p.pending.value) == k then 1 else 0
  }

  function Outgoing(p: Party, out: seq<Msg>, k: Kind): nat {
    Count(out, k) + PendingCount(p, k)
  }

  function Bit(b: bool): nat { if b then 1 else 0 }

  // A party waits for the answer to its last ping.
  predicate Awaiting(p: Party) { p.att > 0 && !p.send && !p.localDone }

  function Sum(xs: seq<int>): int {
    if xs == [] then 0 else Sum(xs[..|xs| - 1]) + xs[|xs| - 1]
  }

  // ---- the invariant, one half per party ----

  ghost predicate Half(p: Party, q: Party, out: seq<Msg>, inbox: seq<Msg>) {
    // exactly one unanswered ping while waiting for an answer, none otherwise
    && Outgoing(p, out, Ping) + Outgoing(q, inbox, Pong) == Bit(Awaiting(p))
    // one stop message when done, in flight or received
    && Outgoing(p, out, Stop) + Bit(q.remoteDone) == Bit(p.localDone)
    && PendingCount(p, Ping) == 0
    && p.att <= GIVE_UP
    && (p.send ==> p.att < GIVE_UP && !p.localDone)
    && (p.att == 0 ==> p.send)
    && (p.localDone ==> p.att == GIVE_UP || (p.att >= WARMUP && p.good >= GOOD_RUN))
    // one lag per answered ping; the latency is their sum and, when done, their average
    && |p.lags| + Bit(Awaiting(p)) == p.att
    && (!p.localDone ==> p.latency == Sum(p.lags))
    && (p.localDone ==> p.att > 0 && p.latency == Truncated(Sum(p.lags), p.att))
  }

  ghost predicate Inv(s: System) {
    Half(s.a, s.b, s.ab, s.ba) && Half(s.b, s.a, s.ba, s.ab)
  }

  lemma InitInv(s: System)
    requires Init(s)
    ensures Inv(s) && Measure(s) == 1006
  {
  }

  lemma WriteInv(s: System, act: Action)
    requires Inv(s) && Enabled(s, act) && !act.Receive?
    ensures Inv(Apply(s, act))
  {
    var m := if act.WritePing? then Msg(act.t, 0) else s.a.pending.value;
    CountSnoc(s.ab, m, Ping);
    CountSnoc(s.ab, m, Pong);
    CountSnoc(s.ab, m, Stop);
  }

  lemma CountHead(ms: seq<Msg>)
    requires ms != []
    ensures forall k :: Count(ms, k) == Bit(KindOf(ms[0]) == k) + Count(ms[1..], k)
  {
  }

  lemma ReceiveStopInv(s: System, t: int)
    requires Inv(s) && Enabled(s, Receive(t)) && KindOf(s.ba[0]) == Stop
    ensures Inv(Apply(s, Receive(t)))
  {
  }

  lemma ReceivePingInv(s: System, t: int)
    requires Inv(s) && Enabled(s, Receive(t)) && KindOf(s.ba[0]) == Ping
    ensures Inv(Apply(s, Receive(t)))
  {
  }

  lemma ReceivePongInv(s: System, t: int)
    requires Inv(s) && Enabled(s, Receive(t)) && KindOf(s.ba[0]) == Pong
    ensures Inv(Apply(s, Receive(t)))
  {
    CountHead(s.ba);
    var a' := Apply(s, Receive(t)).a;
    assert a'.lags[..|s.a.lags|] == s.a.lags;
  }

  lemma ReceiveInv(s: System, t: int)
    requires Inv(s) && Enabled(s, Receive(t))
    ensures Inv(Apply(s, Receive(t)))
  {
    match KindOf(s.ba[0])
    case Stop => ReceiveStopInv(s, t);
    case Ping => ReceivePingInv(s, t);
    case Pong => ReceivePongInv(s, t);
  }

  lemma StepInv(s: System, act: Action)
    requires Inv(s) && Enabled(s, act)
    ensures Inv(Apply(s, act))
  {
    if act.Receive? {
      ReceiveInv(s, act.t);
    } else {
      WriteInv(s, act);
    }
  }

  // ---- what the lags are ----

  // Pings under way carry the time of the last ping, answers that time and the other party's last stamp.
  ghost predicate MsgOk(m: Msg, pings: seq<int>, stamps: seq<int>) {
    match KindOf(m)
    case Stop => true
    case Ping => |pings| > 0 && m == Msg(pings[|pings| - 1], 0)
    case Pong => |pings| == |stamps| > 0 && m == Msg(pings[|pings| - 1], stamps[|stamps| - 1])
  }

  // Own pings go out, answers to them come in.
  ghost predicate MsgsOk(ms: seq<Msg>, kind: Kind, pings: seq<int>, stamps: seq<int>) {
    forall i {:trigger ms[i]} :: 0 <= i < |ms| && KindOf(ms[i]) == kind ==> MsgOk(ms[i], pings, stamps)
  }

  // Each lag is the other party's stamp on this party's ping of the same number minus the time of that ping.
  ghost predicate LagsOk(p: Party, q: Party) {
    && |p.lags| <= |q.stamps| <= |p.pings| == p.att
    && (forall k :: 0 <= k < |p.lags| ==> p.lags[k] == q.stamps[k] - p.pings[k])
  }

  ghost predicate Measures(p: Party, q: Party, out: seq<Msg>, inbox: seq<Msg>) {
    && LagsOk(p, q)
    && |q.stamps| + Count(out, Ping) == p.att
    && MsgsOk(out, Ping, p.pings, q.stamps) && MsgsOk(inbox, Pong, p.pings, q.stamps)
    && (q.pending.Some? && KindOf(q.pending.value).Pong? ==> MsgOk(q.pending.value, p.pings, q.stamps))
  }

  lemma {:induction false} CountedMsg(ms: seq<Msg>, i: nat)
    requires i < |ms|
    ensures Count(ms, KindOf(ms[i])) > 0
  {
    if i > 0 {
      CountedMsg(ms[1..], i - 1);
    }
  }

  // A new ping goes out only when none is under way and no answer either.
  lemma PingMeasures(s: System, t: int)
    requires Inv(s) && Enabled(s, WritePing(t)) && Measures(s.a, s.b, s.ab, s.ba)
    ensures var s' := Apply(s, WritePing(t)); Measures(s'.a, s'.b, s'.ab, s'.ba)
  {
    CountSnoc(s.ab, Msg(t, 0), Ping);
    forall i | 0 <= i < |s.ab| ensures KindOf(s.ab[i]) != Ping {
      CountedMsg(s.ab, i);
    }
    forall i | 0 <= i < |s.ba| ensures KindOf(s.ba[i]) != Pong {
      CountedMsg(s.ba, i);
    }
  }

  lemma AnswerMeasures(s: System)
    requires Inv(s) && Enabled(s, WritePending) && Measures(s.a, s.b, s.ab, s.ba)
    ensures var s' := Apply(s, WritePending); Measures(s'.a, s'.b, s'.ab, s'.ba)
  {
    CountSnoc(s.ab, s.a.pending.value, Ping);
  }

  lemma ReceiveMeasures(s: System, t: int)
    requires Inv(s) && Enabled(s, Receive(t)) && Measures(s.a, s.b, s.ab, s.ba)
    ensures var s' := Apply(s, Receive(t)); Measures(s'.a, s'.b, s'.ab, s'.ba)
  {
    CountHead(s.ba);
  }

  // The same moves as the other party sees them.
  lemma OtherAnswers(s: System)
    requires Inv(s) && Enabled(s, WritePending) && Measures(s.b, s.a, s.ba, s.ab)
    ensures var s' := Apply(s, WritePending); Measures(s'.b, s'.a, s'.ba, s'.ab)
  {
  }

  lemma OtherPings(s: System, t: int)
    requires Inv(s) && Enabled(s, WritePing(t)) && Measures(s.b, s.a, s.ba, s.ab)
    ensures var s' := Apply(s, WritePing(t)); Measures(s'.b, s'.a, s'.ba, s'.ab)
  {
  }

  lemma OtherReceives(s: System, t: int)
    requires Inv(s) && Enabled(s, Receive(t)) && Measures(s.b, s.a, s.ba, s.ab)
    ensures var s' := Apply(s, Receive(t)); Measures(s'.b, s'.a, s'.ba, s'.ab)
  {
    CountHead(s.ba);
    forall i | 0 <= i < |s.ab| && KindOf(s.ba[0]) == Ping ensures KindOf(s.ab[i]) != Pong {
      CountedMsg(s.ab, i);
    }
  }

  lemma StepMeasures(s: System, act: Action)
    requires Inv(s) && Enabled(s, act)
    requires Measures(s.a, s.b, s.ab, s.ba) && Measures(s.b, s.a, s.ba, s.ab)
    ensures var s' := Apply(s, act);
            Measures(s'.a, s'.b, s'.ab, s'.ba) && Measures(s'.b, s'.a, s'.ba, s'.ab)
  {
    match act
    case WritePending =>
      AnswerMeasures(s);
      OtherAnswers(s);
    case WritePing(t) =>
      PingMeasures(s, t);
      OtherPings(s, t);
    case Receive(t) =>
      ReceiveMeasures(s, t);
      OtherReceives(s, t);
  }

  // ---- when a party stops ----

  function Average(lags: seq<int>): int
    requires lags != []
  {
    Truncated(Sum(lags), |lags|)
  }

  // The lag of attempt k+1 is within a millisecond of the average up to it.
  predicate Steady(lags: seq<int>, k: nat)
    requires k < |lags|
  {
    -1_000_000 < lags[k] - Average(lags[..k + 1]) < 1_000_000
  }

  // The stop rule: after 50 attempts, or after at least 10 of which the last three were steady.
  predicate Stops(lags: seq<int>) {
    var n := |lags|;
    n >= 50 || (n >= 10 && Steady(lags, n - 1) && Steady(lags, n - 2) && Steady(lags, n - 3))
  }

  // How many of the last lags were steady.
  function SteadyRun(lags: seq<int>): nat {
    if lags == [] then 0
    else if Steady(lags, |lags| - 1) then SteadyRun(lags[..|lags| - 1]) + 1
    else 0
  }

  lemma SteadyPrefix(lags: seq<int>, k: nat)
    requires k + 1 < |lags|
    ensures Steady(lags[..|lags| - 1], k) <==> Steady(lags, k)
  {
    assert lags[..|lags| - 1][..k + 1] == lags[..k + 1];
  }

  lemma StopsIff(lags: seq<int>)
    requires lags != []
    ensures Stops(lags) <==> !(|lags| < GIVE_UP && (|lags| < WARMUP || SteadyRun(lags) < GOOD_RUN))
  {
    var n := |lags|;
    if n >= 3 {
      var init := lags[..n - 1];
      SteadyPrefix(lags, n - 2);
      SteadyPrefix(lags, n - 3);
      SteadyPrefix(init, n - 3);
      assert init[..n - 2] == lags[..n - 2];
    }
  }

  ghost predicate RuleOk(p: Party) {
    && p.good == SteadyRun(p.lags)
    && (p.localDone <==> Stops(p.lags))
    && (forall k :: 0 <= k < |p.lags| ==> !Stops(p.lags[..k]))
  }

  lemma EarlierDoNotStop(lags: seq<int>, lag: int)
    requires !Stops(lags) && forall k :: 0 <= k < |lags| ==> !Stops(lags[..k])
    ensures forall k :: 0 <= k < |lags + [lag]| ==> !Stops((lags + [lag])[..k])
  {
    forall k | 0 <= k < |lags + [lag]| ensures !Stops((lags + [lag])[..k]) {
      if k == |lags| {
        assert (lags + [lag])[..k] == lags;
      } else {
        assert (lags + [lag])[..k] == lags[..k];
      }
    }
  }

  lemma SteadyNext(lags: seq<int>, lag: int)
    ensures var lags' := lags + [lag];
            SteadyRun(lags') == if Near(lag - Average(lags')) then SteadyRun(lags) + 1 else 0
  {
    var lags' := lags + [lag];
    assert lags'[..|lags|] == lags && lags'[..|lags'|] == lags';
  }

  lemma SumSnoc(lags: seq<int>, lag: int)
    ensures Sum(lags + [lag]) == Sum(lags) + lag
  {
    assert (lags + [lag])[..|lags|] == lags;
  }

  lemma SameQuotient(x: int, y: nat, x': int, y': nat)
    requires x == x' && y == y' > 0
    ensures Truncated(x, y) == Truncated(x', y')
  {
  }

  lemma AverageIs(lags: seq<int>, sum: int, n: nat)
    requires sum == Sum(lags) && n == |lags| > 0
    ensures Average(lags) == Truncated(sum, n)
  {
    SameQuotient(sum, n, Sum(lags), |lags|);
  }

  lemma PongRule(p: Party, m: Msg, t: int)
    requires KindOf(m) == Pong && p.att == |p.lags| + 1 && p.latency == Sum(p.lags) && !p.localDone && RuleOk(p)
    ensures RuleOk(Handle(p, m, t))
  {
    var lag := m.recvT - m.sendT;
    SumSnoc(p.lags, lag);
    AverageIs(p.lags + [lag], p.latency + lag, p.att);
    SteadyNext(p.lags, lag);
    StopsIff(p.lags + [lag]);
    EarlierDoNotStop(p.lags, lag);
  }

  lemma ReceiveRule(s: System, t: int)
    requires Inv(s) && Enabled(s, Receive(t)) && RuleOk(s.a)
    ensures RuleOk(Apply(s, Receive(t)).a)
  {
    if KindOf(s.ba[0]) == Pong {
      CountHead(s.ba);
      PongRule(s.a, s.ba[0], t);
    }
  }

  // ---- progress ----

  function Weight(ms: seq<Msg>): nat {
    4 * Count(ms, Ping) + 2 * Count(ms, Pong) + Count(ms, Stop)
  }

  // Work left for one party and the messages it has under way.
  function Work(p: Party, out: seq<Msg>): int {
    10 * (GIVE_UP - p.att) + 3 * Bit(!p.localDone) + Weight(out)
    + 5 * PendingCount(p, Ping) + 3 * PendingCount(p, Pong) + 2 * PendingCount(p, Stop)
  }

  function Measure(s: System): int { Work(s.a, s.ab) + Work(s.b, s.ba) }

  lemma WriteWorks(s: System, act: Action)
    requires Enabled(s, act) && !act.Receive?
    ensures Measure(Apply(s, act)) < Measure(s)
  {
    var m := if act.WritePing? then Msg(act.t, 0) else s.a.pending.value;
    CountSnoc(s.ab, m, Ping);
    CountSnoc(s.ab, m, Pong);
    CountSnoc(s.ab, m, Stop);
  }

  lemma ReceiveWorks(s: System, t: int)
    requires Inv(s) && Enabled(s, Receive(t))
    ensures Measure(Apply(s, Receive(t))) < Measure(s)
  {
    CountHead(s.ba);
  }

  lemma StepWorks(s: System, act: Action)
    requires Inv(s) && Enabled(s, act)
    ensures Measure(Apply(s, act)) < Measure(s)
  {
    if act.Receive? {
      ReceiveWorks(s, act.t);
    } else {
      WriteWorks(s, act);
    }
  }

  // The first party can move, whatever its clock says.
  predicate CanMove(s: System, t: int) {
    Enabled(s, WritePending) || Enabled(s, WritePing(t)) || Enabled(s, Receive(t))
  }

  // A party is stuck only with nothing in its inbox; in particular an answer never reaches a party that has
  // not asked, so the average never divides by zero.
  lemma StuckMeansWaiting(s: System, t: int)
    requires Inv(s) && t != 0 && !CanMove(s, t)
    ensures s.a.Finished() || (s.ba == [] && !s.a.send && s.a.pending.None?)
  {
  }

  // No deadlock: if neither party can move, both have finished and both channels are empty.
  lemma NoDeadlock(s: System, t: int)
    requires Inv(s) && t != 0 && !CanMove(s, t) && !CanMove(s.Swap(), t)
    ensures s.Finished() && s.ab == [] && s.ba == []
  {
  }

  // A finished party never leaves a message unread.
  lemma FinishedHasEmptyInbox(s: System)
    requires Inv(s) && s.a.Finished()
    ensures s.ba == [] && s.b.pending.None?
  {
  }

  // ---- whole runs ----

  ghost predicate Step(s: System, s': System) {
    || (exists act :: Enabled(s, act) && s' == Apply(s, act))
    || (exists act :: Enabled(s.Swap(), act) && s' == Apply(s.Swap(), act).Swap())
  }

  ghost predicate Run(ss: seq<System>) {
    |ss| > 0 && Init(ss[0]) && forall k :: 0 <= k < |ss| - 1 ==> Step(ss[k], ss[k + 1])
  }

  lemma StepKeeps(s: System, s': System)
    requires Inv(s) && Step(s, s')
    ensures Inv(s') && Measure(s') < Measure(s)
  {
    if act :| Enabled(s, act) && s' == Apply(s, act) {
      StepInv(s, act);
      StepWorks(s, act);
    } else {
      var act :| Enabled(s.Swap(), act) && s' == Apply(s.Swap(), act).Swap();
      StepInv(s.Swap(), act);
      StepWorks(s.Swap(), act);
    }
  }

  // Both parties measure and stop as they should.
  ghost predicate Exact(s: System) {
    && Measures(s.a, s.b, s.ab, s.ba) && Measures(s.b, s.a, s.ba, s.ab)
    && RuleOk(s.a) && RuleOk(s.b)
  }

  lemma ActExact(s: System, act: Action)
    requires Inv(s) && Enabled(s, act) && Exact(s)
    ensures Exact(Apply(s, act))
  {
    StepMeasures(s, act);
    if act.Receive? {
      ReceiveRule(s, act.t);
    }
  }

  lemma StepExact(s: System, s': System)
    requires Inv(s) && Step(s, s') && Exact(s)
    ensures Exact(s')
  {
    if act :| Enabled(s, act) && s' == Apply(s, act) {
      ActExact(s, act);
    } else {
      var act :| Enabled(s.Swap(), act) && s' == Apply(s.Swap(), act).Swap();
      ActExact(s.Swap(), act);
    }
  }

  lemma {:induction false} RunExact(ss: seq<System>)
    requires Run(ss)
    ensures Exact(ss[|ss| - 1])
  {
    if |ss| > 1 {
      var pre := ss[..|ss| - 1];
      RunExact(pre);
      RunKeeps(pre);
      assert Step(ss[|ss| - 2], ss[|ss| - 1]);
      StepExact(ss[|ss| - 2], ss[|ss| - 1]);
    }
  }

  // In every run each lag is the time the other party stamped on this party's ping of that number minus the time
  // this party read for it, and a party is done exactly when its lags meet the stop rule, which they met for the
  // first time with the last one.
  lemma LagsAndStopAreExact(ss: seq<System>)
    requires Run(ss)
    ensures var s := ss[|ss| - 1];
            && LagsOk(s.a, s.b) && LagsOk(s.b, s.a)
            && (s.a.localDone <==> Stops(s.a.lags)) && (s.b.localDone <==> Stops(s.b.lags))
            && (forall k :: 0 <= k < |s.a.lags| ==> !Stops(s.a.lags[..k]))
            && (forall k :: 0 <= k < |s.b.lags| ==> !Stops(s.b.lags[..k]))
  {
    RunExact(ss);
  }

  lemma {:induction false} RunKeeps(ss: seq<System>)
    requires Run(ss)
    ensures Inv(ss[|ss| - 1]) && 0 <= Measure(ss[|ss| - 1]) <= 1007 - |ss|
  {
    if |ss| == 1 {
      InitInv(ss[0]);
    } else {
      var pre := ss[..|ss| - 1];
      RunKeeps(pre);
      assert Step(ss[|ss| - 2], ss[|ss| - 1]);
      StepKeeps(ss[|ss| - 2], ss[|ss| - 1]);
    }
  }

  ghost predicate CanStep(s: System) {
    exists s' :: Step(s, s')
  }

  // In every interleaving: at most 50 attempts per side, at most one unanswered ping per side, and at most
  // 1006 steps.
  lemma EveryRun(ss: seq<System>)
    requires Run(ss)
    ensures var s := ss[|ss| - 1];
            && s.a.att <= GIVE_UP && s.b.att <= GIVE_UP
            && Count(s.ab, Ping) + Count(s.ba, Pong) <= 1 && Count(s.ba, Ping) + Count(s.ab, Pong) <= 1
            && |ss| <= 1007
  {
    RunKeeps(ss);
  }

  // A run that can not go on has finished on both sides, with both channels empty, after 10 to 50 attempts
  // per side, each side holding the average of exactly the lags it measured.
  lemma EveryMaximalRun(ss: seq<System>)
    requires Run(ss) && !CanStep(ss[|ss| - 1])
    ensures var s := ss[|ss| - 1];
            && s.Finished() && s.ab == [] && s.ba == []
            && 10 <= s.a.att == |s.a.lags| <= 50 && s.a.latency == Average(s.a.lags)
            && 10 <= s.b.att == |s.b.lags| <= 50 && s.b.latency == Average(s.b.lags)
  {
    var s := ss[|ss| - 1];
    RunKeeps(ss);
    forall act ensures !Enabled(s, act) && !Enabled(s.Swap(), act) {
      if Enabled(s, act) {
        assert Step(s, Apply(s, act));
      }
      if Enabled(s.Swap(), act) {
        assert Step(s, Apply(s.Swap(), act).Swap());
      }
    }
    NoDeadlock(s, 1);
  }
}
