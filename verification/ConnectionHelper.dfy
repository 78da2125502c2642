// The rendezvous behind Connect: one wait group per unordered port pair, released by two notifications.
module ConnectionHelper {
  import opened Collections
  import opened Graph

  const SHIFT := 0x1_0000_0000

  predicate ValidPort(p: int) { 0 <= p < 65536 }

  function Key(lport: int, rport: int): int {
    if lport < rport then lport + rport * SHIFT else rport + lport * SHIFT
  }

  // Keys are equal exactly for the same unordered pair.
  lemma KeyIff(a: int, b: int, c: int, d: int)
    requires ValidPort(a) && ValidPort(b) && ValidPort(c) && ValidPort(d)
    ensures Key(a, b) == Key(c, d) <==> (a == c && b == d) || (a == d && b == c)
  {
  }

  function ConnectionKey(c: Connection): int { Key(c.src.port, c.dest.port) }

  function Keys(cs: seq<Connection>): seq<int> {
    seq(|cs|, i requires 0 <= i < |cs| => ConnectionKey(cs[i]))
  }

  // The connections of a simple plan use pairwise different keys.
  lemma SimplePlanDistinctKeys(cs: seq<Connection>, ports: set<int>)
    requires Simple(cs, ports) && forall p :: p in ports ==> ValidPort(p)
    ensures NoDuplicates(Keys(cs))
  {
    forall i, j | 0 <= i < j < |cs| ensures ConnectionKey(cs[i]) != ConnectionKey(cs[j]) {
      assert Proper(cs[i], ports) && Proper(cs[j], ports);
      assert !Joins(cs[j], cs[i].src.port, cs[i].dest.port);
      KeyIff(cs[i].src.port, cs[i].dest.port, cs[j].src.port, cs[j].dest.port);
    }
  }

  // ---- all Connect calls of one plan, one per key, against arbitrary notifications ----

  // Start: before Add's check; Checked: the key was free; Inserted: wait group in the map; Waiting: blocked on
  // the wait group it looked up; Met: Wait returned; Ended: deleted; Refused, Missed: the two error returns.
  datatype Phase =
    | Start | Checked | Inserted(id: nat) | Waiting(id: nat) | Met(id: nat) | Ended | Refused | Missed

  datatype Event = Added(proc: nat, id: nat) | Looked(key: int, id: nat) | Notified(key: int, id: nat)

  // A wait group: its counter, the call that made it and when.
  datatype WaitGroup = WaitGroup(count: nat, maker: nat, born: nat)

  // `lookups` are the wait groups held by Connected calls that have not called Done yet.
  datatype State = State(
    wgs: map<int, nat>, groups: seq<WaitGroup>, procs: seq<Phase>, lookups: seq<(int, nat)>, log: seq<Event>)

  ghost predicate Init(s: State, keys: seq<int>) {
    && s.wgs == map[] && s.groups == [] && s.lookups == [] && s.log == []
    && |s.procs| == |keys| && forall i :: 0 <= i < |keys| ==> s.procs[i] == Start
  }

  datatype Action =
    | Check(i: nat) | Insert(i: nat) | HostFails(i: nat) | Fetch(i: nat) | Wake(i: nat) | Delete(i: nat)
    | Lookup(key: int) | Done(n: nat)

  predicate Enabled(s: State, a: Action) {
    match a
    case Check(i) => i < |s.procs| && s.procs[i].Start?
    case Insert(i) => i < |s.procs| && s.procs[i].Checked?
    case HostFails(i) => i < |s.procs| && s.procs[i].Inserted?
    case Fetch(i) => i < |s.procs| && s.procs[i].Inserted?
    case Wake(i) => i < |s.procs| && s.procs[i].Waiting? && s.procs[i].id < |s.groups|
                    && s.groups[s.procs[i].id].count == 0
    case Delete(i) => i < |s.procs| && s.procs[i].Met?
    case Lookup(key) => key in s.wgs
    case Done(n) => n < |s.lookups|
  }

  // The step does not panic: Done takes the counter of its wait group below zero only on a released one.
  predicate Safe(s: State, a: Action) {
    a.Done? ==> a.n < |s.lookups| && s.lookups[a.n].1 < |s.groups| && s.groups[s.lookups[a.n].1].count > 0
  }

  function Apply(s: State, a: Action, keys: seq<int>): State
    requires Enabled(s, a) && Safe(s, a) && |s.procs| == |keys|
  {
    match a
    case Check(i) => s.(procs := s.procs[i := if keys[i] in s.wgs then Refused else Checked])
    case Insert(i) =>
      var id := |s.groups|;
      s.(wgs := s.wgs[keys[i] := id], groups := s.groups + [WaitGroup(2, i, |s.log|)],
         procs := s.procs[i := Inserted(id)], log := s.log + [Added(i, id)])
    case HostFails(i) => s.(wgs := s.wgs - {keys[i]}, procs := s.procs[i := Ended])
    case Fetch(i) => s.(procs := s.procs[i := if keys[i] in s.wgs then Waiting(s.wgs[keys[i]]) else Missed])
    case Wake(i) => s.(procs := s.procs[i := Met(s.procs[i].id)])
    case Delete(i) => s.(wgs := s.wgs - {keys[i]}, procs := s.procs[i := Ended])
    case Lookup(key) =>
      s.(lookups := s.lookups + [(key, s.wgs[key])], log := s.log + [Looked(key, s.wgs[key])])
    case Done(n) =>
      var (key, id) := s.lookups[n];
      s.(groups := s.groups[id := s.groups[id].(count := s.groups[id].count - 1)],
         lookups := s.lookups[..n] + s.lookups[n + 1..], log := s.log + [Notified(key, id)])
  }

  // How often `e` happened from log position `from` on.
  function Times(log: seq<Event>, from: nat, e: Event): nat {
    if |log| <= from then 0
    else Times(log[..|log| - 1], from, e) + if log[|log| - 1] == e then 1 else 0
  }

  // How many notifications hold the wait group `id` without having called Done.
  function Pending(lookups: seq<(int, nat)>, id: nat): nat {
    if lookups == [] then 0
    else Pending(lookups[..|lookups| - 1], id) + if lookups[|lookups| - 1].1 == id then 1 else 0
  }

  // The wait group of a call between Add and Delete is the one in the map under its key.
  ghost predicate Holds(s: State, keys: seq<int>, i: nat, id: nat)
    requires i < |keys|
  {
    id < |s.groups| && s.groups[id].maker == i && keys[i] in s.wgs && s.wgs[keys[i]] == id
  }

  ghost predicate ProcOk(s: State, keys: seq<int>, i: nat)
    requires i < |keys| && |s.procs| == |keys|
  {
    match s.procs[i]
    case Start => keys[i] !in s.wgs
    case Checked => keys[i] !in s.wgs
    case Inserted(id) => Holds(s, keys, i, id)
    case Waiting(id) => Holds(s, keys, i, id)
    case Met(id) => Holds(s, keys, i, id) && s.groups[id].count == 0
    case Ended => keys[i] !in s.wgs
    case Refused => false
    case Missed => false
  }

  ghost predicate GroupOk(s: State, keys: seq<int>, id: nat)
    requires id < |s.groups|
  {
    var g := s.groups[id];
    && g.maker < |keys| && g.born < |s.log| && s.log[g.born] == Added(g.maker, id)
    && g.count + Times(s.log, g.born, Notified(keys[g.maker], id)) == 2
    && Times(s.log, g.born, Looked(keys[g.maker], id)) ==
       Times(s.log, g.born, Notified(keys[g.maker], id)) + Pending(s.lookups, id)
  }

  // A notification holds a wait group made for the key it was sent to.
  ghost predicate LookupOk(s: State, keys: seq<int>, l: (int, nat)) {
    l.1 < |s.groups| && s.groups[l.1].maker < |keys| && keys[s.groups[l.1].maker] == l.0
  }

  ghost predicate Inv(s: State, keys: seq<int>) {
    && |s.procs| == |keys|
    && (forall i {:trigger ProcOk(s, keys, i)} :: 0 <= i < |keys| ==> ProcOk(s, keys, i))
    && (forall id {:trigger GroupOk(s, keys, id)} :: 0 <= id < |s.groups| ==> GroupOk(s, keys, id))
    && (forall k {:trigger s.wgs[k]} :: k in s.wgs ==>
          s.wgs[k] < |s.groups| && s.groups[s.wgs[k]].maker < |keys| && keys[s.groups[s.wgs[k]].maker] == k)
    && (forall n {:trigger s.lookups[n]} :: 0 <= n < |s.lookups| ==> LookupOk(s, keys, s.lookups[n]))
  }

  lemma TimesSnoc(log: seq<Event>, from: nat, e: Event, last: Event)
    requires from <= |log|
    ensures Times(log + [last], from, e) == Times(log, from, e) + if last == e then 1 else 0
  {
    assert (log + [last])[..|log|] == log;
  }

  lemma PendingSnoc(lookups: seq<(int, nat)>, l: (int, nat), id: nat)
    ensures Pending(lookups + [l], id) == Pending(lookups, id) + if l.1 == id then 1 else 0
  {
    assert (lookups + [l])[..|lookups|] == lookups;
  }

  lemma {:induction false} PendingRemove(lookups: seq<(int, nat)>, n: nat, id: nat)
    requires n < |lookups|
    ensures Pending(lookups[..n] + lookups[n + 1..], id) ==
            Pending(lookups, id) - if lookups[n].1 == id then 1 else 0
    decreases |lookups|
  {
    var k := |lookups| - 1;
    var rest := lookups[..n] + lookups[n + 1..];
    if n == k {
      assert rest == lookups[..k];
    } else {
      PendingRemove(lookups[..k], n, id);
      assert rest[..k - 1] == lookups[..k][..n] + lookups[..k][n + 1..];
    }
  }

  lemma StepKeepsProcs(s: State, a: Action, keys: seq<int>)
    requires NoDuplicates(keys) && Inv(s, keys) && Enabled(s, a) && Safe(s, a)
    ensures forall i :: 0 <= i < |keys| ==> ProcOk(Apply(s, a, keys), keys, i)
  {
    var s' := Apply(s, a, keys);
    forall i | 0 <= i < |keys| ensures ProcOk(s', keys, i) {
      assert ProcOk(s, keys, i);
    }
  }

  // The events and pending notifications of a group after a step.
  lemma StepCounts(s: State, a: Action, keys: seq<int>, id: nat, key: int, from: nat)
    requires Inv(s, keys) && Enabled(s, a) && Safe(s, a) && from <= |s.log|
    ensures var s' := Apply(s, a, keys);
            var looks, dones := a == Lookup(key) && s.wgs[key] == id, a.Done? && s.lookups[a.n] == (key, id);
            && Times(s'.log, from, Looked(key, id)) ==
               Times(s.log, from, Looked(key, id)) + (if looks then 1 else 0)
            && Times(s'.log, from, Notified(key, id)) ==
               Times(s.log, from, Notified(key, id)) + (if dones then 1 else 0)
  {
    var log' := Apply(s, a, keys).log;
    if log' != s.log {
      var e := log'[|s.log|];
      assert log' == s.log + [e];
      TimesSnoc(s.log, from, Looked(key, id), e);
      TimesSnoc(s.log, from, Notified(key, id), e);
    }
  }

  lemma StepPending(s: State, a: Action, keys: seq<int>, id: nat)
    requires Inv(s, keys) && Enabled(s, a) && Safe(s, a)
    ensures Pending(Apply(s, a, keys).lookups, id) ==
            Pending(s.lookups, id) + (if a.Lookup? && s.wgs[a.key] == id then 1 else 0)
                                   - (if a.Done? && s.lookups[a.n].1 == id then 1 else 0)
  {
    if a.Lookup? {
      PendingSnoc(s.lookups, (a.key, s.wgs[a.key]), id);
    } else if a.Done? {
      PendingRemove(s.lookups, a.n, id);
    }
  }

  lemma OldGroupStays(s: State, a: Action, keys: seq<int>, id: nat)
    requires Inv(s, keys) && Enabled(s, a) && Safe(s, a) && id < |s.groups|
    ensures id < |Apply(s, a, keys).groups| && GroupOk(Apply(s, a, keys), keys, id)
  {
    assert GroupOk(s, keys, id);
    var g := s.groups[id];
    StepCounts(s, a, keys, id, keys[g.maker], g.born);
    StepPending(s, a, keys, id);
    if a.Lookup? {
      assert s.wgs[a.key] == id ==> keys[g.maker] == a.key;
    } else if a.Done? {
      assert LookupOk(s, keys, s.lookups[a.n]);
    }
  }

  lemma {:induction false} NonePending(lookups: seq<(int, nat)>, id: nat)
    requires forall n :: 0 <= n < |lookups| ==> lookups[n].1 < id
    ensures Pending(lookups, id) == 0
  {
    if lookups != [] {
      NonePending(lookups[..|lookups| - 1], id);
    }
  }

  lemma NewGroup(s: State, i: nat, keys: seq<int>)
    requires Inv(s, keys) && Enabled(s, Insert(i))
    ensures GroupOk(Apply(s, Insert(i), keys), keys, |s.groups|)
  {
    var id := |s.groups|;
    forall n | 0 <= n < |s.lookups| ensures s.lookups[n].1 < id {
      assert LookupOk(s, keys, s.lookups[n]);
    }
    NonePending(s.lookups, id);
    TimesSnoc(s.log, |s.log|, Looked(keys[i], id), Added(i, id));
    TimesSnoc(s.log, |s.log|, Notified(keys[i], id), Added(i, id));
  }

  lemma StepKeepsGroups(s: State, a: Action, keys: seq<int>)
    requires Inv(s, keys) && Enabled(s, a) && Safe(s, a)
    ensures forall id :: 0 <= id < |Apply(s, a, keys).groups| ==> GroupOk(Apply(s, a, keys), keys, id)
  {
    var s' := Apply(s, a, keys);
    forall id | 0 <= id < |s'.groups| ensures GroupOk(s', keys, id) {
      if id < |s.groups| {
        OldGroupStays(s, a, keys, id);
      } else {
        NewGroup(s, a.i, keys);
      }
    }
  }

  lemma StepInv(s: State, a: Action, keys: seq<int>)
    requires NoDuplicates(keys) && Inv(s, keys) && Enabled(s, a) && Safe(s, a)
    ensures Inv(Apply(s, a, keys), keys)
  {
    StepKeepsProcs(s, a, keys);
    StepKeepsGroups(s, a, keys);
    var s' := Apply(s, a, keys);
    forall n | 0 <= n < |s'.lookups| ensures LookupOk(s', keys, s'.lookups[n]) {
      if a.Done? {
        assert s'.lookups[n] == s.lookups[if n < a.n then n else n + 1];
      } else if n < |s.lookups| {
        assert s'.lookups[n] == s.lookups[n];
      } else {
        assert s'.lookups[n] == (a.key, s.wgs[a.key]);
      }
    }
  }

  // States reached by a sequence of actions, none of which panicked.
  ghost predicate Run(ss: seq<State>, as_: seq<Action>, keys: seq<int>) {
    && |ss| == |as_| + 1 && Init(ss[0], keys)
    && forall k :: 0 <= k < |as_| ==>
         && |ss[k].procs| == |keys| && Enabled(ss[k], as_[k]) && Safe(ss[k], as_[k])
         && ss[k + 1] == Apply(ss[k], as_[k], keys)
  }

  lemma {:induction false} RunInv(ss: seq<State>, as_: seq<Action>, keys: seq<int>)
    requires NoDuplicates(keys) && Run(ss, as_, keys)
    ensures Inv(ss[|as_|], keys)
  {
    if as_ != [] {
      var n := |as_| - 1;
      RunInv(ss[..n + 1], as_[..n], keys);
      StepInv(ss[n], as_[n], keys);
    }
  }

  // For a simple plan, in every run: no Add finds its key taken, no Wait misses its wait group, and a Wait
  // that has returned has seen exactly two notifications for its own key since its Add.
  lemma Rendezvous(cs: seq<Connection>, ports: set<int>, ss: seq<State>, as_: seq<Action>, i: nat)
    requires Simple(cs, ports) && forall p :: p in ports ==> ValidPort(p)
    requires Run(ss, as_, Keys(cs)) && i < |cs|
    ensures var s := ss[|as_|];
            && |s.procs| == |cs| && !s.procs[i].Refused? && !s.procs[i].Missed?
            && (s.procs[i].Met? ==>
                  exists n :: 0 <= n < |s.log| && s.log[n] == Added(i, s.procs[i].id)
                              && Times(s.log, n, Notified(ConnectionKey(cs[i]), s.procs[i].id)) == 2)
  {
    SimplePlanDistinctKeys(cs, ports);
    RunInv(ss, as_, Keys(cs));
    var s := ss[|as_|];
    assert ProcOk(s, Keys(cs), i);
    if s.procs[i].Met? {
      assert GroupOk(s, Keys(cs), s.procs[i].id);
    }
  }

  // ---- nobody waits in vain ----

  // In every reachable state a waiting call can wake exactly when its own wait group was notified twice under its
  // own key since its Add. Two steps of its own then end it and free its key.
  lemma WakeIff(cs: seq<Connection>, ports: set<int>, ss: seq<State>, as_: seq<Action>, i: nat)
    requires Simple(cs, ports) && forall p :: p in ports ==> ValidPort(p)
    requires Run(ss, as_, Keys(cs)) && i < |cs|
    ensures var s, key := ss[|as_|], ConnectionKey(cs[i]);
            && |s.procs| == |cs|
            && (s.procs[i].Waiting? ==>
                  var id := s.procs[i].id;
                  && id < |s.groups|
                  && var born := s.groups[id].born;
                  && born < |s.log| && s.log[born] == Added(i, id)
                  && (Enabled(s, Wake(i)) <==> Times(s.log, born, Notified(key, id)) == 2))
            && (Enabled(s, Wake(i)) ==>
                  var woken := Apply(s, Wake(i), Keys(cs));
                  && Enabled(woken, Delete(i))
                  && var ended := Apply(woken, Delete(i), Keys(cs));
                  ended.procs[i] == Ended && ended.wgs == s.wgs - {key})
  {
    SimplePlanDistinctKeys(cs, ports);
    RunInv(ss, as_, Keys(cs));
    var s := ss[|as_|];
    assert ProcOk(s, Keys(cs), i);
    if s.procs[i].Waiting? {
      assert GroupOk(s, Keys(cs), s.procs[i].id);
    }
  }

  // Call i has a step of its own to make.
  predicate HasStep(s: State, i: nat) {
    || Enabled(s, Check(i)) || Enabled(s, Insert(i)) || Enabled(s, HostFails(i)) || Enabled(s, Fetch(i))
    || Enabled(s, Wake(i)) || Enabled(s, Delete(i))
  }

  // A call stands still only when it has ended or waits for notifications its wait group has not had.
  lemma StandsStillIff(cs: seq<Connection>, ports: set<int>, ss: seq<State>, as_: seq<Action>, i: nat)
    requires Simple(cs, ports) && forall p :: p in ports ==> ValidPort(p)
    requires Run(ss, as_, Keys(cs)) && i < |cs|
    ensures var s := ss[|as_|];
            && |s.procs| == |cs|
            && (s.procs[i].Waiting? ==> s.procs[i].id < |s.groups|)
            && (!HasStep(s, i) <==>
                  || s.procs[i].Ended?
                  || (s.procs[i].Waiting? &&
                      var id := s.procs[i].id;
                      Times(s.log, s.groups[id].born, Notified(ConnectionKey(cs[i]), id)) < 2))
            && (s.procs[i].Inserted? ==> Enabled(s, HostFails(i)) && Enabled(s, Fetch(i)))
  {
    WakeIff(cs, ports, ss, as_, i);
    SimplePlanDistinctKeys(cs, ports);
    RunInv(ss, as_, Keys(cs));
    var s := ss[|as_|];
    assert ProcOk(s, Keys(cs), i);
    if s.procs[i].Waiting? {
      assert GroupOk(s, Keys(cs), s.procs[i].id);
    }
  }

  predicate Between(p: Phase) { p.Inserted? || p.Waiting? || p.Met? }

  // A notification finds a wait group exactly while the call of its key is between Add and Delete, and then it is
  // that call's.
  lemma LookupIff(cs: seq<Connection>, ports: set<int>, ss: seq<State>, as_: seq<Action>, i: nat)
    requires Simple(cs, ports) && forall p :: p in ports ==> ValidPort(p)
    requires Run(ss, as_, Keys(cs)) && i < |cs|
    ensures var s, key := ss[|as_|], ConnectionKey(cs[i]);
            && |s.procs| == |cs|
            && (Enabled(s, Lookup(key)) <==> Between(s.procs[i]))
            && (Between(s.procs[i]) ==>
                  Apply(s, Lookup(key), Keys(cs)).lookups == s.lookups + [(key, s.procs[i].id)])
  {
    SimplePlanDistinctKeys(cs, ports);
    RunInv(ss, as_, Keys(cs));
    assert ProcOk(ss[|as_|], Keys(cs), i);
  }

  // ---- when a notification panics ----

  // A Done panics exactly when its wait group has already been notified twice since its Add.
  lemma DonePanicsIff(cs: seq<Connection>, ports: set<int>, ss: seq<State>, as_: seq<Action>, n: nat)
    requires Simple(cs, ports) && forall p :: p in ports ==> ValidPort(p)
    requires Run(ss, as_, Keys(cs)) && Enabled(ss[|as_|], Done(n))
    ensures var s := ss[|as_|];
            var (key, id) := s.lookups[n];
            && id < |s.groups|
            && var g := s.groups[id];
            && g.maker < |cs| && key == ConnectionKey(cs[g.maker])
            && g.born < |s.log| && s.log[g.born] == Added(g.maker, id)
            && (!Safe(s, Done(n)) <==> Times(s.log, g.born, Notified(key, id)) == 2)
  {
    SimplePlanDistinctKeys(cs, ports);
    RunInv(ss, as_, Keys(cs));
    var s := ss[|as_|];
    assert LookupOk(s, Keys(cs), s.lookups[n]);
    assert GroupOk(s, Keys(cs), s.lookups[n].1);
  }

  // Letting the pending notifications at positions `ns` finish, one after the other, ends in a panic.
  ghost predicate DonesPanic(s: State, keys: seq<int>, ns: seq<nat>)
    requires |s.procs| == |keys|
    decreases |ns|
  {
    && ns != [] && Enabled(s, Done(ns[0]))
    && (Safe(s, Done(ns[0])) ==> DonesPanic(Apply(s, Done(ns[0]), keys), keys, ns[1..]))
  }

  // The wait group was looked up by at least three notifications since its Add.
  ghost predicate Overbooked(s: State, keys: seq<int>, id: nat) {
    && id < |s.groups| && s.groups[id].maker < |keys|
    && Times(s.log, s.groups[id].born, Looked(keys[s.groups[id].maker], id)) >= 3
  }

  lemma {:induction false} PendingHas(lookups: seq<(int, nat)>, n: nat)
    requires n < |lookups|
    ensures Pending(lookups, lookups[n].1) > 0
    decreases |lookups|
  {
    if n < |lookups| - 1 {
      PendingHas(lookups[..|lookups| - 1], n);
    }
  }

  lemma {:induction false} FindPending(lookups: seq<(int, nat)>, id: nat) returns (n: nat)
    requires Pending(lookups, id) > 0
    ensures n < |lookups| && lookups[n].1 == id
  {
    n := |lookups| - 1;
    if lookups[n].1 != id {
      n := FindPending(lookups[..n], id);
    }
  }

  // A Done changes no wait group's lookups.
  lemma DoneKeepsLooked(s: State, n: nat, keys: seq<int>, id: nat)
    requires Inv(s, keys) && Enabled(s, Done(n)) && Safe(s, Done(n))
    ensures Overbooked(Apply(s, Done(n), keys), keys, id) <==> Overbooked(s, keys, id)
  {
    if id < |s.groups| {
      assert GroupOk(s, keys, id);
      StepCounts(s, Done(n), keys, id, keys[s.groups[id].maker], s.groups[id].born);
    }
  }

  lemma {:induction false} PanicNeedsThree(s: State, keys: seq<int>, ns: seq<nat>) returns (id: nat)
    requires NoDuplicates(keys) && Inv(s, keys) && DonesPanic(s, keys, ns)
    ensures Overbooked(s, keys, id)
    decreases |ns|
  {
    var n := ns[0];
    if Safe(s, Done(n)) {
      StepInv(s, Done(n), keys);
      id := PanicNeedsThree(Apply(s, Done(n), keys), keys, ns[1..]);
      DoneKeepsLooked(s, n, keys, id);
    } else {
      id := s.lookups[n].1;
      assert LookupOk(s, keys, s.lookups[n]);
      assert GroupOk(s, keys, id);
      PendingHas(s.lookups, n);
    }
  }

  lemma {:induction false} ThreePanic(s: State, keys: seq<int>, id: nat) returns (ns: seq<nat>)
    requires NoDuplicates(keys) && Inv(s, keys) && Overbooked(s, keys, id)
    ensures DonesPanic(s, keys, ns)
    decreases s.groups[id].count
  {
    assert GroupOk(s, keys, id);
    var n := FindPending(s.lookups, id);
    ns := [n];
    if Safe(s, Done(n)) {
      StepInv(s, Done(n), keys);
      DoneKeepsLooked(s, n, keys, id);
      var rest := ThreePanic(Apply(s, Done(n), keys), keys, id);
      ns := [n] + rest;
      assert ns[1..] == rest;
    }
  }

  // The notifications under way can end in a panic.
  ghost predicate PanicAhead(s: State, keys: seq<int>)
    requires |s.procs| == |keys|
  {
    exists ns: seq<nat> :: DonesPanic(s, keys, ns)
  }

  ghost predicate SomeOverbooked(s: State, keys: seq<int>) {
    exists id: nat :: Overbooked(s, keys, id)
  }

  lemma OverbookedIff(s: State, keys: seq<int>)
    requires NoDuplicates(keys) && Inv(s, keys)
    ensures PanicAhead(s, keys) <==> SomeOverbooked(s, keys)
  {
    if PanicAhead(s, keys) {
      var ns: seq<nat> :| DonesPanic(s, keys, ns);
      var id := PanicNeedsThree(s, keys, ns);
    }
    if SomeOverbooked(s, keys) {
      var id: nat :| Overbooked(s, keys, id);
      var ns := ThreePanic(s, keys, id);
    }
  }

  // In every reachable state, the notifications under way can end in a panic exactly when three or more of them
  // looked up the same wait group since its Add.
  lemma PanicAheadIff(cs: seq<Connection>, ports: set<int>, ss: seq<State>, as_: seq<Action>)
    requires Simple(cs, ports) && forall p :: p in ports ==> ValidPort(p)
    requires Run(ss, as_, Keys(cs))
    ensures var s := ss[|as_|];
            |s.procs| == |cs| && (PanicAhead(s, Keys(cs)) <==> SomeOverbooked(s, Keys(cs)))
  {
    SimplePlanDistinctKeys(cs, ports);
    RunInv(ss, as_, Keys(cs));
    OverbookedIff(ss[|as_|], Keys(cs));
  }
}
