// The observer under concurrency: update split into its two writes, publishers behind the lock, readers free.
module ObserverSteps {
  import opened Wrappers

  datatype Node<T> = Node(value: T, next: Option<nat>, done: bool)

  // The lock: free, or held by a publisher before, between and after the two writes of update.
  datatype Lock<T> = Free | Held(value: T) | Linked | Closed

  // A stream: its node, the number of updates before it was created and the values it returned since.
  datatype Reader<T> = Reader(at: nat, start: nat, seen: seq<T>)

  // Nodes are numbered by allocation.
  datatype System<T> = System(nodes: seq<Node<T>>, tail: nat, lock: Lock<T>, readers: seq<Reader<T>>)

  ghost predicate Init<T>(s: System<T>) {
    |s.nodes| == 1 && s.nodes[0].next == None && !s.nodes[0].done && s.tail == 0 && s.lock == Free && s.readers == []
  }

  datatype Action<T> = Acquire(value: T) | SetNext | CloseDone | Release | Observe | Advance(i: nat)

  predicate Enabled<T>(s: System<T>, a: Action<T>) {
    match a
    case Acquire(_) => s.lock.Free?
    case SetNext => s.lock.Held?
    case CloseDone => s.lock.Linked?
    case Release => s.lock.Closed?
    case Observe => s.lock.Free?
    // a reader gets past the channel only when it is closed
    case Advance(i) => i < |s.readers| && s.readers[i].at < |s.nodes| && s.nodes[s.readers[i].at].done
  }

  // The dereferences and the close do not panic: node numbers are valid, a channel about to be closed is open,
  // and a reader past a closed channel finds a next node.
  predicate Safe<T>(s: System<T>, a: Action<T>) {
    && s.tail < |s.nodes|
    && (a.CloseDone? ==> !s.nodes[s.tail].done)
    && (a.Release? ==> s.nodes[s.tail].next.Some?)
    && (a.Advance? && a.i < |s.readers| ==>
          var n := s.readers[a.i].at;
          n < |s.nodes| && s.nodes[n].next.Some? && s.nodes[n].next.value < |s.nodes|)
  }

  function Apply<T>(s: System<T>, a: Action<T>): System<T>
    requires Enabled(s, a) && Safe(s, a)
  {
    match a
    case Acquire(v) => s.(lock := Held(v))
    case SetNext =>
      s.(nodes := s.nodes[s.tail := s.nodes[s.tail].(next := Some(|s.nodes|))] + [Node(s.lock.value, None, false)],
         lock := Linked)
    case CloseDone => s.(nodes := s.nodes[s.tail := s.nodes[s.tail].(done := true)], lock := Closed)
    case Release => s.(tail := s.nodes[s.tail].next.value, lock := Free)
    case Observe => s.(readers := s.readers + [Reader(s.tail, s.tail, [])])
    case Advance(i) =>
      var r := s.readers[i];
      var n := s.nodes[r.at].next.value;
      s.(readers := s.readers[i := Reader(n, r.start, r.seen + [s.nodes[n].value])])
  }

  // Updates in the order of their list nodes.
  function Updates<T>(s: System<T>): seq<T>
    requires |s.nodes| > 0
  {
    seq(|s.nodes| - 1, i requires 0 <= i < |s.nodes| - 1 => s.nodes[i + 1].value)
  }

  // The number of updates readers can reach: all whose predecessor has been closed.
  function Published<T>(s: System<T>): int {
    if s.lock.Linked? then |s.nodes| - 2 else |s.nodes| - 1
  }

  ghost predicate NodesOk<T>(s: System<T>) {
    && |s.nodes| > 0
    && s.tail == (if s.lock.Linked? || s.lock.Closed? then |s.nodes| - 2 else |s.nodes| - 1)
    && (forall i {:trigger s.nodes[i].next} :: 0 <= i < |s.nodes| ==>
          s.nodes[i].next == if i + 1 < |s.nodes| then Some(i + 1) else None)
    && (forall i {:trigger s.nodes[i].done} :: 0 <= i < |s.nodes| ==> (s.nodes[i].done <==> i < Published(s)))
  }

  ghost predicate ReaderOk<T>(s: System<T>, r: Reader<T>)
    requires |s.nodes| > 0
  {
    && r.start <= r.at <= Published(s)
    && |r.seen| == r.at - r.start
    && (forall k {:trigger r.seen[k]} :: 0 <= k < |r.seen| ==> r.seen[k] == s.nodes[r.start + 1 + k].value)
  }

  ghost predicate Inv<T>(s: System<T>) {
    && NodesOk(s)
    && (forall i {:trigger s.readers[i]} :: 0 <= i < |s.readers| ==> ReaderOk(s, s.readers[i]))
  }

  // No step of a reachable state panics.
  lemma StepsAreSafe<T>(s: System<T>, a: Action<T>)
    requires Inv(s) && Enabled(s, a)
    ensures Safe(s, a)
  {
  }

  lemma StepKeepsNodes<T>(s: System<T>, a: Action<T>)
    requires Inv(s) && Enabled(s, a) && Safe(s, a)
    ensures NodesOk(Apply(s, a))
    ensures Published(s) <= Published(Apply(s, a))
    ensures |s.nodes| <= |Apply(s, a).nodes|
    ensures forall i :: 0 <= i < |s.nodes| ==> Apply(s, a).nodes[i].value == s.nodes[i].value
  {
  }

  lemma StepInv<T>(s: System<T>, a: Action<T>)
    requires Inv(s) && Enabled(s, a) && Safe(s, a)
    ensures Inv(Apply(s, a))
  {
    var s' := Apply(s, a);
    StepKeepsNodes(s, a);
    forall i | 0 <= i < |s'.readers| ensures ReaderOk(s', s'.readers[i]) {
      if i < |s.readers| {
        assert ReaderOk(s, s.readers[i]);
        if a.Advance? && a.i == i {
          var r := s.readers[i];
          assert s.nodes[r.at].next == if r.at + 1 < |s.nodes| then Some(r.at + 1) else None;
          assert s.nodes[r.at].done ==> r.at < Published(s);
        }
      }
    }
  }

  // An update's three writes are possible one after another, and then it is one more published update.
  lemma UpdatePublishes<T>(s: System<T>, v: T)
    requires Inv(s) && s.lock.Free?
    ensures Enabled(s, Acquire(v)) && Safe(s, Acquire(v))
    ensures var s1 := Apply(s, Acquire(v));
            && Enabled(s1, SetNext) && Safe(s1, SetNext)
            && var s2 := Apply(s1, SetNext);
            && Enabled(s2, CloseDone) && Safe(s2, CloseDone)
            && var s3 := Apply(s2, CloseDone);
            && Enabled(s3, Release) && Safe(s3, Release)
            && var s4 := Apply(s3, Release);
            && s4.lock.Free? && s4.readers == s.readers && |s4.nodes| > 0
            && Updates(s4) == Updates(s) + [v] && Published(s4) == Published(s) + 1
  {
  }

  // A run lists its states and the actions between them.
  ghost predicate Run<T>(ss: seq<System<T>>, as_: seq<Action<T>>) {
    && |ss| == |as_| + 1 && Init(ss[0])
    && forall k :: 0 <= k < |as_| ==>
         Enabled(ss[k], as_[k]) && (Safe(ss[k], as_[k]) ==> ss[k + 1] == Apply(ss[k], as_[k]))
  }

  lemma {:induction false} RunInv<T>(ss: seq<System<T>>, as_: seq<Action<T>>)
    requires Run(ss, as_)
    ensures Inv(ss[|as_|])
    ensures forall k :: 0 <= k < |as_| ==> Safe(ss[k], as_[k])
  {
    if as_ != [] {
      var n := |as_| - 1;
      RunInv(ss[..n + 1], as_[..n]);
      forall k | 0 <= k < n ensures Safe(ss[k], as_[k]) {
        assert Safe(ss[..n + 1][k], as_[..n][k]);
      }
      StepsAreSafe(ss[n], as_[n]);
      StepInv(ss[n], as_[n]);
    }
  }

  // Following next pointers k times.
  function Follow<T>(nodes: seq<Node<T>>, from: nat, k: nat): Option<nat>
    decreases k
  {
    if k == 0 then (if from < |nodes| then Some(from) else None)
    else if from < |nodes| && nodes[from].next.Some? then Follow(nodes, nodes[from].next.value, k - 1)
    else None
  }

  lemma {:induction false} FollowReaches<T>(s: System<T>, from: nat, k: nat)
    requires NodesOk(s) && from + k < |s.nodes|
    ensures Follow(s.nodes, from, k) == Some(from + k)
    decreases k
  {
    if k > 0 {
      assert s.nodes[from].next == Some(from + 1);
      FollowReaches(s, from + 1, k - 1);
    }
  }

  // In every reachable state: a closed channel has a next node, next always points forward, and there is one
  // open tail, without successor, that every stream reaches.
  lemma ListSafety<T>(ss: seq<System<T>>, as_: seq<Action<T>>)
    requires Run(ss, as_)
    ensures var s := ss[|as_|];
            && |s.nodes| > 0
            && (forall i {:trigger s.nodes[i]} :: 0 <= i < |s.nodes| && s.nodes[i].done ==> s.nodes[i].next.Some?)
            && (forall i {:trigger s.nodes[i]} :: 0 <= i < |s.nodes| && s.nodes[i].next.Some? ==>
                  i < s.nodes[i].next.value < |s.nodes|)
            && (forall i {:trigger s.nodes[i]} :: 0 <= i < |s.nodes| ==>
                  (s.nodes[i].next.None? <==> i == |s.nodes| - 1))
            && !s.nodes[|s.nodes| - 1].done
            && (forall r :: r in s.readers ==>
                  r.at < |s.nodes| && Follow(s.nodes, r.at, |s.nodes| - 1 - r.at) == Some(|s.nodes| - 1))
  {
    RunInv(ss, as_);
    var s := ss[|as_|];
    forall i | 0 <= i < |s.nodes|
      ensures s.nodes[i].done ==> i < Published(s)
      ensures s.nodes[i].next == if i + 1 < |s.nodes| then Some(i + 1) else None
    {
    }
    forall r | r in s.readers
      ensures r.at < |s.nodes| && Follow(s.nodes, r.at, |s.nodes| - 1 - r.at) == Some(|s.nodes| - 1)
    {
      var i :| 0 <= i < |s.readers| && s.readers[i] == r;
      assert ReaderOk(s, r);
      FollowReaches(s, r.at, |s.nodes| - 1 - r.at);
    }
  }

  // A stream created after m updates that has advanced k times has returned exactly updates m+1 to m+k in
  // order, and HasNext tells exactly whether published updates are still unseen.
  lemma NoUpdateLostDuplicatedOrReordered<T>(ss: seq<System<T>>, as_: seq<Action<T>>, i: nat)
    requires Run(ss, as_) && i < |ss[|as_|].readers|
    ensures var s := ss[|as_|];
            var r := s.readers[i];
            && |s.nodes| > 0
            && r.start + |r.seen| <= |Updates(s)|
            && r.seen == Updates(s)[r.start..r.start + |r.seen|]
            && r.at < |s.nodes|
            && (s.nodes[r.at].done <==> r.start + |r.seen| < Published(s))
  {
    RunInv(ss, as_);
    var s := ss[|as_|];
    var r := s.readers[i];
    assert ReaderOk(s, r);
    assert s.nodes[r.at].done <==> r.at < Published(s);
  }
}
