// The message loops: a ticker publishes elapsed times through the observer and agents answer each update.
module MessageLoop {
  import opened Collections
  import opened ObserverSteps
  import opened Time
  import opened Wrappers

  // ---- choosing the leader (lines 99-102) ----

  lemma SplitMultiset<A>(s: seq<A>, i: nat)
    requires i < |s|
    ensures multiset(s) == multiset(s[..i] + s[i + 1..]) + multiset{s[i]}
  {
    assert s == s[..i] + [s[i]] + s[i + 1..];
  }

  // Go's append over a slice of its own array shifts the tail left in place.
  method PickLeader<A>(agents: array<A>, randIdx: nat) returns (leader: A, rest: seq<A>)
    requires randIdx < agents.Length
    modifies agents
    ensures leader == old(agents[randIdx])
    ensures rest == old(agents[..randIdx] + agents[randIdx + 1..])
    ensures multiset(rest) + multiset{leader} == old(multiset(agents[..]))
    ensures agents[..] == rest + [old(agents[agents.Length - 1])]
  {
    leader := agents[randIdx];
    var n := agents.Length;
    SplitMultiset(agents[..], randIdx);
    forall k | randIdx <= k < n - 1 {
      agents[k] := agents[k + 1];
    }
    rest := agents[..n - 1];
    assert rest == old(agents[..randIdx] + agents[randIdx + 1..]);
    assert old(agents[..])[..randIdx] == old(agents[..randIdx]);
    assert old(agents[..])[randIdx + 1..] == old(agents[randIdx + 1..]);
  }

  // ---- which agent answers which update ----

  // The subject starts with a time and is then updated with elapsed durations.
  datatype Value = StartTime | Elapsed(ns: int)

  function Seconds(d: int): int {
    if d >= 0 then d / SECOND else -((-d) / SECOND)
  }

  predicate OnEvenSecond(d: int) { Seconds(d) % 2 == 0 }

  datatype Mode = ConstantRate | Hotstuff

  // Agent 0 is the leader: it sends on odd seconds, all others on even ones.
  predicate Sends(mode: Mode, i: nat, v: Value)
    requires v.Elapsed?
  {
    match mode
    case ConstantRate => true
    case Hotstuff => (i == 0) != OnEvenSecond(v.ns)
  }

  // ---- runs ----

  // Counting: SendMessage has returned with this outcome and the counter is not incremented yet.
  datatype Agent = Spawned | Idle(reader: nat) | Counting(reader: nat, ok: bool) | Exited(reader: nat)

  // Agent `agent` sent for update number `update`.
  datatype Sent = Sent(agent: nat, update: nat)

  // `outcomes` tells of each send whether it succeeded.
  datatype Loop = Loop(
    obs: System<Value>, agents: seq<Agent>, stopped: bool, sends: seq<Sent>, outcomes: seq<bool>,
    published: nat, failed: nat)

  ghost predicate Starts(l: Loop) {
    && Init(l.obs) && l.obs.nodes[0].value == StartTime
    && (forall i :: 0 <= i < |l.agents| ==> l.agents[i].Spawned?)
    && !l.stopped && l.sends == [] && l.outcomes == [] && l.published == 0 && l.failed == 0
  }

  datatype Move =
    | Tick(ns: int) | Publish(step: Action<Value>) | StopAll
    | Subscribe(i: nat) | Next(i: nat, ok: bool) | CountOne(i: nat) | Leave(i: nat)

  // A type assertion on the value read: it panics unless the value is a duration.
  predicate ReadsDuration(l: Loop, r: nat) {
    && r < |l.obs.readers| && Enabled(l.obs, Advance(r)) && Safe(l.obs, Advance(r))
    && l.obs.nodes[l.obs.nodes[l.obs.readers[r].at].next.value].value.Elapsed?
  }

  predicate CanMove(l: Loop, m: Move) {
    match m
    case Tick(_) => !l.stopped && l.obs.lock.Free?
    case Publish(a) => (a.SetNext? || a.CloseDone? || a.Release?) && Enabled(l.obs, a)
    case StopAll => !l.stopped && l.obs.lock.Free?
    case Subscribe(i) => i < |l.agents| && l.agents[i].Spawned? && Enabled(l.obs, Observe)
    case Next(i, _) => i < |l.agents| && l.agents[i].Idle? && Enabled(l.obs, Advance(l.agents[i].reader))
    case CountOne(i) => i < |l.agents| && l.agents[i].Counting?
    case Leave(i) => i < |l.agents| && l.agents[i].Idle? && l.stopped
  }

  // The move does not panic.
  predicate NoPanic(l: Loop, m: Move) {
    match m
    case Tick(_) => Safe(l.obs, Acquire(StartTime))
    case Publish(a) => Safe(l.obs, a)
    case Subscribe(_) => Safe(l.obs, Observe)
    case Next(i, _) => i < |l.agents| && l.agents[i].Idle? && ReadsDuration(l, l.agents[i].reader)
    case _ => true
  }

  function Do(mode: Mode, l: Loop, m: Move): Loop
    requires CanMove(l, m) && NoPanic(l, m)
  {
    match m
    case Tick(ns) => l.(obs := Apply(l.obs, Acquire(Elapsed(ns))))
    case Publish(a) => l.(obs := Apply(l.obs, a))
    case StopAll => l.(stopped := true)
    case Subscribe(i) => l.(obs := Apply(l.obs, Observe), agents := l.agents[i := Idle(|l.obs.readers|)])
    case Next(i, ok) =>
      var r := l.agents[i].reader;
      var obs := Apply(l.obs, Advance(r));
      var update := obs.readers[r].at;
      if Sends(mode, i, obs.nodes[update].value) then
        l.(obs := obs, agents := l.agents[i := Counting(r, ok)], sends := l.sends + [Sent(i, update)],
           outcomes := l.outcomes + [ok])
      else l.(obs := obs)
    case CountOne(i) =>
      var a := l.agents[i];
      l.(agents := l.agents[i := Idle(a.reader)],
         published := l.published + (if a.ok then 1 else 0), failed := l.failed + (if a.ok then 0 else 1))
    case Leave(i) => l.(agents := l.agents[i := Exited(l.agents[i].reader)])
  }

  // ---- the invariant ----

  ghost predicate ValuesOk(obs: System<Value>) {
    && (forall k {:trigger obs.nodes[k]} :: 1 <= k < |obs.nodes| ==> obs.nodes[k].value.Elapsed?)
    && (obs.lock.Held? ==> obs.lock.value.Elapsed?)
  }

  // The stream an agent has or had.
  function Stream(a: Agent): Option<nat> {
    if a.Spawned? then None else Some(a.reader)
  }

  ghost predicate AgentOk(l: Loop, i: nat)
    requires i < |l.agents|
  {
    Stream(l.agents[i]).Some? ==> Stream(l.agents[i]).value < |l.obs.readers|
  }

  // No two agents share a stream.
  ghost predicate OwnStreams(agents: seq<Agent>) {
    forall i, j :: 0 <= i < j < |agents| && Stream(agents[i]).Some? ==> Stream(agents[i]) != Stream(agents[j])
  }

  // Update u came after agent i subscribed, was read by it and calls for a message.
  ghost predicate Answers(mode: Mode, l: Loop, i: nat, u: nat) {
    && i < |l.agents| && Stream(l.agents[i]).Some?
    && var r := Stream(l.agents[i]).value;
    && r < |l.obs.readers| && l.obs.readers[r].start < u <= l.obs.readers[r].at
    && u < |l.obs.nodes| && l.obs.nodes[u].value.Elapsed? && Sends(mode, i, l.obs.nodes[u].value)
  }

  ghost predicate Exact(mode: Mode, l: Loop, i: nat, u: nat) {
    Sent(i, u) in l.sends <==> Answers(mode, l, i, u)
  }

  // How many sends had this outcome.
  function WithOutcome(outcomes: seq<bool>, ok: bool): nat {
    if outcomes == [] then 0
    else WithOutcome(outcomes[..|outcomes| - 1], ok) + if outcomes[|outcomes| - 1] == ok then 1 else 0
  }

  predicate Counts(a: Agent, ok: bool) { a.Counting? && a.ok == ok }

  // Sends with this outcome that are not counted yet.
  function Uncounted(agents: seq<Agent>, ok: bool): nat {
    if agents == [] then 0
    else Uncounted(agents[..|agents| - 1], ok) + if Counts(agents[|agents| - 1], ok) then 1 else 0
  }

  ghost predicate Counted(l: Loop) {
    && |l.outcomes| == |l.sends|
    && l.published + Uncounted(l.agents, true) == WithOutcome(l.outcomes, true)
    && l.failed + Uncounted(l.agents, false) == WithOutcome(l.outcomes, false)
  }

  ghost predicate Good(mode: Mode, l: Loop) {
    && Inv(l.obs) && ValuesOk(l.obs)
    && (forall i {:trigger AgentOk(l, i)} :: 0 <= i < |l.agents| ==> AgentOk(l, i))
    && OwnStreams(l.agents)
    && (forall i: nat, u: nat {:trigger Exact(mode, l, i, u)} :: Exact(mode, l, i, u))
    && NoDuplicates(l.sends)
    && Counted(l)
  }

  lemma {:induction false} UncountedUpdate(agents: seq<Agent>, i: nat, a: Agent, ok: bool)
    requires i < |agents|
    ensures Uncounted(agents[i := a], ok) + (if Counts(agents[i], ok) then 1 else 0)
            == Uncounted(agents, ok) + (if Counts(a, ok) then 1 else 0)
  {
    var n := |agents| - 1;
    if i < n {
      assert agents[i := a][..n] == agents[..n][i := a];
      UncountedUpdate(agents[..n], i, a, ok);
    } else {
      assert agents[i := a][..n] == agents[..n];
    }
  }

  lemma {:induction false} NoneUncounted(agents: seq<Agent>, ok: bool)
    requires forall i :: 0 <= i < |agents| ==> !agents[i].Counting?
    ensures Uncounted(agents, ok) == 0
  {
    if agents != [] {
      NoneUncounted(agents[..|agents| - 1], ok);
    }
  }

  function Bit(b: bool): int { if b then 1 else 0 }

  // A move of agent i counts what it takes off the uncounted sends.
  ghost predicate Balanced(l: Loop, l': Loop, i: nat, ok: bool)
    requires i < |l.agents| && i < |l'.agents|
  {
    (if ok then l'.published - l.published else l'.failed - l.failed)
    + Bit(Counts(l'.agents[i], ok)) - Bit(Counts(l.agents[i], ok))
    == WithOutcome(l'.outcomes, ok) - WithOutcome(l.outcomes, ok)
  }

  lemma AgentCounted(l: Loop, l': Loop, i: nat)
    requires Counted(l) && i < |l.agents| && |l'.agents| == |l.agents| && l'.agents == l.agents[i := l'.agents[i]]
    requires |l'.outcomes| == |l'.sends| && Balanced(l, l', i, true) && Balanced(l, l', i, false)
    ensures Counted(l')
  {
    UncountedUpdate(l.agents, i, l'.agents[i], true);
    UncountedUpdate(l.agents, i, l'.agents[i], false);
  }

  // No move panics: in particular the duration assertion holds although the subject starts with a time.
  lemma MovesAreSafe(mode: Mode, l: Loop, m: Move)
    requires Good(mode, l) && CanMove(l, m)
    ensures NoPanic(l, m)
  {
  }

  // What an observer step leaves alone.
  lemma ObserverStep(obs: System<Value>, a: Action<Value>)
    requires Inv(obs) && ValuesOk(obs) && Enabled(obs, a) && Safe(obs, a)
    requires a.Acquire? ==> a.value.Elapsed?
    ensures var obs' := Apply(obs, a);
            Inv(obs') && ValuesOk(obs') && ValuesStay(obs, obs') && |obs.readers| <= |obs'.readers|
  {
    StepInv(obs, a);
    StepKeepsNodes(obs, a);
  }

  ghost predicate ValuesStay(obs: System<Value>, obs': System<Value>) {
    && |obs.nodes| <= |obs'.nodes|
    && (forall k {:trigger obs'.nodes[k]} :: 0 <= k < |obs.nodes| ==> obs'.nodes[k].value == obs.nodes[k].value)
  }

  // An agent whose stream did not move answers the same updates.
  lemma AnswersStay(mode: Mode, l: Loop, l': Loop, i: nat, u: nat)
    requires Good(mode, l) && |l'.agents| == |l.agents| && ValuesStay(l.obs, l'.obs)
    requires |l.obs.readers| <= |l'.obs.readers|
    requires i < |l.agents| ==> Stream(l'.agents[i]) == Stream(l.agents[i])
    requires i < |l.agents| && Stream(l.agents[i]).Some? ==>
               var r := Stream(l.agents[i]).value;
               r < |l.obs.readers| ==> l'.obs.readers[r] == l.obs.readers[r]
    ensures Answers(mode, l', i, u) <==> Answers(mode, l, i, u)
  {
    if i < |l.agents| && Stream(l.agents[i]).Some? {
      assert AgentOk(l, i);
      assert ReaderOk(l.obs, l.obs.readers[Stream(l.agents[i]).value]);
    }
  }

  // Moves that leave all streams where they are.
  lemma StillMoveGood(mode: Mode, l: Loop, l': Loop)
    requires Good(mode, l) && |l'.agents| == |l.agents| && l'.sends == l.sends
    requires Inv(l'.obs) && ValuesOk(l'.obs) && ValuesStay(l.obs, l'.obs) && l'.obs.readers == l.obs.readers
    requires forall i {:trigger l'.agents[i]} :: 0 <= i < |l.agents| ==> Stream(l'.agents[i]) == Stream(l.agents[i])
    requires Counted(l')
    ensures Good(mode, l')
  {
    forall i | 0 <= i < |l'.agents| ensures AgentOk(l', i) {
      assert AgentOk(l, i);
    }
    forall i: nat, u: nat ensures Exact(mode, l', i, u) {
      assert Exact(mode, l, i, u);
      AnswersStay(mode, l, l', i, u);
    }
  }

  lemma ObserverMoveGood(mode: Mode, l: Loop, l': Loop, a: Action<Value>)
    requires Good(mode, l) && Enabled(l.obs, a) && Safe(l.obs, a) && (a.Acquire? ==> a.value.Elapsed?)
    requires !a.Observe? && !a.Advance? && l' == l.(obs := Apply(l.obs, a))
    ensures Good(mode, l')
  {
    ObserverStep(l.obs, a);
    StillMoveGood(mode, l, l');
  }

  lemma SubscribeGood(mode: Mode, l: Loop, i: nat)
    requires Good(mode, l) && CanMove(l, Subscribe(i)) && NoPanic(l, Subscribe(i))
    ensures Good(mode, Do(mode, l, Subscribe(i)))
  {
    var l' := Do(mode, l, Subscribe(i));
    ObserverStep(l.obs, Observe);
    AgentCounted(l, l', i);
    forall j | 0 <= j < |l'.agents| ensures AgentOk(l', j) {
      assert AgentOk(l, j);
    }
    assert OwnStreams(l'.agents) by {
      forall j | 0 <= j < |l.agents| && j != i ensures Stream(l'.agents[j]) != Some(|l.obs.readers|) {
        assert AgentOk(l, j);
      }
    }
    forall j: nat, u: nat ensures Exact(mode, l', j, u) {
      assert Exact(mode, l, j, u);
      if j != i {
        AnswersStay(mode, l, l', j, u);
      }
    }
  }

  // A stream advances by one update.
  lemma AdvanceByOne(mode: Mode, l: Loop, r: nat)
    requires Good(mode, l) && Enabled(l.obs, Advance(r)) && Safe(l.obs, Advance(r))
    ensures var old_, new_ := l.obs.readers[r], Apply(l.obs, Advance(r)).readers[r];
            new_.start == old_.start && new_.at == old_.at + 1 < |l.obs.nodes| && old_.start <= old_.at
  {
    assert ReaderOk(l.obs, l.obs.readers[r]);
    var n := l.obs.readers[r].at;
    assert l.obs.nodes[n].next == if n + 1 < |l.obs.nodes| then Some(n + 1) else None;
  }

  lemma NextExactOther(mode: Mode, l: Loop, i: nat, ok: bool, j: nat, u: nat)
    requires Good(mode, l) && CanMove(l, Next(i, ok)) && NoPanic(l, Next(i, ok)) && j != i
    ensures Exact(mode, Do(mode, l, Next(i, ok)), j, u)
  {
    var r := l.agents[i].reader;
    ObserverStep(l.obs, Advance(r));
    assert Exact(mode, l, j, u);
    if j < |l.agents| {
      assert Stream(l.agents[i]) == Some(r);
      assert Stream(l.agents[j]) != Some(r);
    }
    AnswersStay(mode, l, Do(mode, l, Next(i, ok)), j, u);
  }

  // Reading one more update, an agent sends for it exactly when it calls for a message.
  lemma NextExact(mode: Mode, l: Loop, i: nat, ok: bool, u: nat)
    requires Good(mode, l) && CanMove(l, Next(i, ok)) && NoPanic(l, Next(i, ok))
    ensures Exact(mode, Do(mode, l, Next(i, ok)), i, u)
  {
    var r := l.agents[i].reader;
    ObserverStep(l.obs, Advance(r));
    AdvanceByOne(mode, l, r);
    assert Exact(mode, l, i, u) && AgentOk(l, i);
    assert ReaderOk(l.obs, l.obs.readers[r]);
  }

  // It has not sent for that update before.
  lemma NextOnce(mode: Mode, l: Loop, i: nat, ok: bool)
    requires Good(mode, l) && CanMove(l, Next(i, ok)) && NoPanic(l, Next(i, ok))
    ensures NoDuplicates(Do(mode, l, Next(i, ok)).sends)
  {
    var r := l.agents[i].reader;
    AdvanceByOne(mode, l, r);
    assert Exact(mode, l, i, l.obs.readers[r].at + 1);
  }

  lemma NextCounted(mode: Mode, l: Loop, i: nat, ok: bool)
    requires Good(mode, l) && CanMove(l, Next(i, ok)) && NoPanic(l, Next(i, ok))
    ensures Counted(Do(mode, l, Next(i, ok)))
  {
    var l' := Do(mode, l, Next(i, ok));
    if l'.outcomes != l.outcomes {
      assert l'.outcomes[..|l.outcomes|] == l.outcomes;
    }
    AgentCounted(l, l', i);
  }

  lemma NextAgents(mode: Mode, l: Loop, i: nat, ok: bool)
    requires Good(mode, l) && CanMove(l, Next(i, ok)) && NoPanic(l, Next(i, ok))
    ensures var l' := Do(mode, l, Next(i, ok));
            && (forall j {:trigger AgentOk(l', j)} :: 0 <= j < |l'.agents| ==> AgentOk(l', j))
            && OwnStreams(l'.agents)
  {
    var l' := Do(mode, l, Next(i, ok));
    forall j | 0 <= j < |l'.agents| ensures AgentOk(l', j) {
      assert AgentOk(l, j);
    }
  }

  lemma NextGood(mode: Mode, l: Loop, i: nat, ok: bool)
    requires Good(mode, l) && CanMove(l, Next(i, ok)) && NoPanic(l, Next(i, ok))
    ensures Good(mode, Do(mode, l, Next(i, ok)))
  {
    var l' := Do(mode, l, Next(i, ok));
    ObserverStep(l.obs, Advance(l.agents[i].reader));
    NextAgents(mode, l, i, ok);
    NextCounted(mode, l, i, ok);
    NextOnce(mode, l, i, ok);
    forall j: nat, u: nat ensures Exact(mode, l', j, u) {
      if j == i {
        NextExact(mode, l, i, ok, u);
      } else {
        NextExactOther(mode, l, i, ok, j, u);
      }
    }
  }

  lemma MoveGood(mode: Mode, l: Loop, m: Move)
    requires Good(mode, l) && CanMove(l, m) && NoPanic(l, m)
    ensures Good(mode, Do(mode, l, m))
  {
    var l' := Do(mode, l, m);
    match m
    case Tick(ns) => ObserverMoveGood(mode, l, l', Acquire(Elapsed(ns)));
    case Publish(a) => ObserverMoveGood(mode, l, l', a);
    case StopAll => StillMoveGood(mode, l, l');
    case Subscribe(i) => SubscribeGood(mode, l, i);
    case Next(i, ok) => NextGood(mode, l, i, ok);
    case CountOne(i) =>
      AgentCounted(l, l', i);
      StillMoveGood(mode, l, l');
    case Leave(i) =>
      AgentCounted(l, l', i);
      StillMoveGood(mode, l, l');
  }

  ghost predicate Run(mode: Mode, ls: seq<Loop>, ms: seq<Move>) {
    && |ls| == |ms| + 1 && Starts(ls[0])
    && forall k :: 0 <= k < |ms| ==>
         CanMove(ls[k], ms[k]) && (NoPanic(ls[k], ms[k]) ==> ls[k + 1] == Do(mode, ls[k], ms[k]))
  }

  lemma {:induction false} RunGood(mode: Mode, ls: seq<Loop>, ms: seq<Move>)
    requires Run(mode, ls, ms)
    ensures Good(mode, ls[|ms|])
    ensures forall k :: 0 <= k < |ms| ==> NoPanic(ls[k], ms[k])
  {
    if ms == [] {
      NoneUncounted(ls[0].agents, true);
      NoneUncounted(ls[0].agents, false);
    } else {
      var n := |ms| - 1;
      RunGood(mode, ls[..n + 1], ms[..n]);
      forall k | 0 <= k < n ensures NoPanic(ls[k], ms[k]) {
        assert NoPanic(ls[..n + 1][k], ms[..n][k]);
      }
      MovesAreSafe(mode, ls[n], ms[n]);
      MoveGood(mode, ls[n], ms[n]);
    }
  }

  // Agent i has read update u: it came after the agent subscribed, up to its position.
  ghost predicate HasRead(l: Loop, i: nat, u: nat) {
    && i < |l.agents| && Stream(l.agents[i]).Some?
    && Stream(l.agents[i]).value < |l.obs.readers|
    && var r := l.obs.readers[Stream(l.agents[i]).value];
    r.start < u <= r.at
  }

  lemma TimesSent(mode: Mode, ls: seq<Loop>, ms: seq<Move>, i: nat, u: nat)
    requires Run(mode, ls, ms)
    ensures var l := ls[|ms|];
            && multiset(l.sends)[Sent(i, u)] == (if Answers(mode, l, i, u) then 1 else 0)
            && (HasRead(l, i, u) ==> u < |l.obs.nodes| && l.obs.nodes[u].value.Elapsed?)
  {
    RunGood(mode, ls, ms);
    var l := ls[|ms|];
    assert Exact(mode, l, i, u);
    if Answers(mode, l, i, u) {
      ListedOnce(l.sends, Sent(i, u));
    }
    if HasRead(l, i, u) {
      assert ReaderOk(l.obs, l.obs.readers[Stream(l.agents[i]).value]);
    }
  }

  // The constant-rate loop: every agent has sent exactly once for every update it has read, and for nothing else.
  lemma ConstantRateSends(ls: seq<Loop>, ms: seq<Move>, i: nat, u: nat)
    requires Run(ConstantRate, ls, ms)
    ensures multiset(ls[|ms|].sends)[Sent(i, u)] == if HasRead(ls[|ms|], i, u) then 1 else 0
  {
    TimesSent(ConstantRate, ls, ms, i, u);
  }

  // The hotstuff loop: agent 0 has sent exactly once for every update it has read whose whole second is odd, every
  // other agent exactly once for those whose whole second is even.
  lemma HotstuffSends(ls: seq<Loop>, ms: seq<Move>, i: nat, u: nat)
    requires Run(Hotstuff, ls, ms)
    ensures var l := ls[|ms|];
            if !HasRead(l, i, u) then multiset(l.sends)[Sent(i, u)] == 0
            else
              && u < |l.obs.nodes| && l.obs.nodes[u].value.Elapsed?
              && var ns := l.obs.nodes[u].value.ns;
              var second := (if ns < 0 then -ns else ns) / 1_000_000_000;
              multiset(l.sends)[Sent(i, u)] == if second % 2 == (if i == 0 then 1 else 0) then 1 else 0
  {
    TimesSent(Hotstuff, ls, ms, i, u);
  }

  // The leader and the others never send for the same update.
  lemma LeaderAndRestAlternate(ls: seq<Loop>, ms: seq<Move>, j: nat, k: nat)
    requires Run(Hotstuff, ls, ms) && j < |ls[|ms|].sends| && k < |ls[|ms|].sends|
    requires ls[|ms|].sends[j].update == ls[|ms|].sends[k].update
    ensures ls[|ms|].sends[j].agent == 0 <==> ls[|ms|].sends[k].agent == 0
  {
    RunGood(Hotstuff, ls, ms);
    var l := ls[|ms|];
    assert Exact(Hotstuff, l, l.sends[j].agent, l.sends[j].update);
    assert Exact(Hotstuff, l, l.sends[k].agent, l.sends[k].update);
  }

  // When all agents have left, each counter is the number of sends with its outcome, and together they are all.
  lemma CountersAddUp(mode: Mode, ls: seq<Loop>, ms: seq<Move>)
    requires Run(mode, ls, ms)
    requires forall i :: 0 <= i < |ls[|ms|].agents| ==> ls[|ms|].agents[i].Exited?
    ensures var l := ls[|ms|];
            && |l.outcomes| == |l.sends|
            && l.published == WithOutcome(l.outcomes, true) && l.failed == WithOutcome(l.outcomes, false)
            && l.published + l.failed == |l.sends|
  {
    RunGood(mode, ls, ms);
    var l := ls[|ms|];
    NoneUncounted(l.agents, true);
    NoneUncounted(l.agents, false);
    OutcomesSplit(l.outcomes);
  }

  lemma {:induction false} OutcomesSplit(outcomes: seq<bool>)
    ensures WithOutcome(outcomes, true) + WithOutcome(outcomes, false) == |outcomes|
  {
    if outcomes != [] {
      OutcomesSplit(outcomes[..|outcomes| - 1]);
    }
  }

  // ---- nobody waits in vain ----

  // What each agent can do in every reachable state: subscribe whenever the lock is free, read exactly while a
  // published update is unread, count at once, and leave exactly when stopped.
  lemma AgentCan(mode: Mode, ls: seq<Loop>, ms: seq<Move>, i: nat, ok: bool)
    requires Run(mode, ls, ms) && i < |ls[|ms|].agents|
    ensures var l := ls[|ms|];
            && (l.agents[i].Spawned? ==> (CanMove(l, Subscribe(i)) <==> l.obs.lock.Free?))
            && (l.agents[i].Idle? ==>
                  && l.agents[i].reader < |l.obs.readers|
                  && (CanMove(l, Next(i, ok)) <==> l.obs.readers[l.agents[i].reader].at < Published(l.obs))
                  && (CanMove(l, Leave(i)) <==> l.stopped))
            && (l.agents[i].Counting? ==> CanMove(l, CountOne(i)))
  {
    RunGood(mode, ls, ms);
    var l := ls[|ms|];
    assert AgentOk(l, i);
    if l.agents[i].Idle? {
      var r := l.obs.readers[l.agents[i].reader];
      assert ReaderOk(l.obs, r);
      assert l.obs.nodes[r.at].done <==> r.at < Published(l.obs);
    }
  }

  // A tick of a loop that has not been stopped becomes one more published update, whatever the agents do.
  lemma TickPublishes(mode: Mode, ls: seq<Loop>, ms: seq<Move>, ns: int)
    requires Run(mode, ls, ms) && !ls[|ms|].stopped && ls[|ms|].obs.lock.Free?
    ensures var l := ls[|ms|];
            && CanMove(l, Tick(ns)) && NoPanic(l, Tick(ns))
            && var l1 := Do(mode, l, Tick(ns));
            && CanMove(l1, Publish(SetNext)) && NoPanic(l1, Publish(SetNext))
            && var l2 := Do(mode, l1, Publish(SetNext));
            && CanMove(l2, Publish(CloseDone)) && NoPanic(l2, Publish(CloseDone))
            && var l3 := Do(mode, l2, Publish(CloseDone));
            && CanMove(l3, Publish(Release)) && NoPanic(l3, Publish(Release))
            && var l4 := Do(mode, l3, Publish(Release));
            && l4 == l.(obs := l4.obs) && l4.obs.lock.Free? && l4.obs.readers == l.obs.readers
            && |l.obs.nodes| > 0 && |l4.obs.nodes| > 0 && Updates(l4.obs) == Updates(l.obs) + [Elapsed(ns)]
            && Published(l4.obs) == Published(l.obs) + 1
  {
    RunGood(mode, ls, ms);
    UpdatePublishes(ls[|ms|].obs, Elapsed(ns));
  }

  ghost predicate Over(l: Loop) {
    forall m :: !CanMove(l, m)
  }

  // A run that can not go on has been stopped, all agents have left and every send is counted by its outcome.
  lemma EveryMaximalRun(mode: Mode, ls: seq<Loop>, ms: seq<Move>)
    requires Run(mode, ls, ms) && Over(ls[|ms|])
    ensures var l := ls[|ms|];
            && l.stopped && l.obs.lock.Free?
            && (forall i :: 0 <= i < |l.agents| ==> l.agents[i].Exited?)
            && l.published == WithOutcome(l.outcomes, true) && l.failed == WithOutcome(l.outcomes, false)
            && l.published + l.failed == |l.sends|
  {
    var l := ls[|ms|];
    assert !CanMove(l, Publish(SetNext)) && !CanMove(l, Publish(CloseDone)) && !CanMove(l, Publish(Release));
    assert !CanMove(l, StopAll);
    forall i | 0 <= i < |l.agents| ensures l.agents[i].Exited? {
      AgentCan(mode, ls, ms, i, true);
      assert !CanMove(l, Subscribe(i)) && !CanMove(l, CountOne(i)) && !CanMove(l, Leave(i));
    }
    CountersAddUp(mode, ls, ms);
  }
}
