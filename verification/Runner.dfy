// MultiRoutineRunner: the work partition and every interleaving of its workers.
module Runner {
  import opened Wrappers
  import opened Arithmetic

  // ---- the partition (lines 15-29) ----

  datatype Range = Range(offset: int, cnt: int)

  function CeilDiv(a: nat, b: nat): nat
    requires b > 0
  {
    (a + b - 1) / b
  }

  function RoutinesCount(items: nat, perRoutine: nat, maxRoutines: nat): nat
    requires perRoutine > 0
  {
    var c := CeilDiv(items, perRoutine);
    if c > maxRoutines then maxRoutines else c
  }

  // The i-th worker's range; `cnt` is negative for a worker that starts beyond the last item.
  function WorkerRange(items: nat, perWorker: nat, i: nat): Range {
    var offset := i * perWorker;
    Range(offset, if perWorker + offset > items then items - offset else perWorker)
  }

  // None is the division by zero on an empty list.
  method Partition(items: nat, perRoutine: nat, maxRoutines: nat) returns (r: Option<seq<Range>>)
    requires perRoutine > 0 && maxRoutines > 0
    ensures r.None? <==> items == 0
    ensures r.Some? ==>
      var n := RoutinesCount(items, perRoutine, maxRoutines);
      && 0 < n == |r.value|
      && (forall i :: 0 <= i < n ==> r.value[i] == WorkerRange(items, CeilDiv(items, n), i))
  {
    var routinesCount := (items + perRoutine - 1) / perRoutine;
    CeilDivZeroIff(items, perRoutine);
    if routinesCount > maxRoutines {
      routinesCount := maxRoutines;
    }
    if routinesCount == 0 {
      return None;
    }
    var cntPerRoutine := (items + routinesCount - 1) / routinesCount;
    var ranges := [];
    for i := 0 to routinesCount
      invariant |ranges| == i
      invariant forall k :: 0 <= k < i ==> ranges[k] == WorkerRange(items, cntPerRoutine, k)
    {
      var cnt, offset := cntPerRoutine, i * cntPerRoutine;
      if cnt + offset > items {
        cnt := items - offset;
      }
      ranges := ranges + [Range(offset, cnt)];
    }
    return Some(ranges);
  }

  lemma CeilDivZeroIff(a: nat, b: nat)
    requires b > 0
    ensures CeilDiv(a, b) == 0 <==> a == 0
  {
  }

  lemma CeilDivCovers(a: nat, b: nat)
    requires b > 0
    ensures CeilDiv(a, b) * b >= a
  {
  }

  lemma QuotientWithin(x: int, c: int, n: int)
    requires c > 0 && 0 <= x < c * n
    ensures 0 <= x / c < n
  {
  }

  // Every index below `items` belongs to the range of worker index / perWorker and to no other,
  // and no range holds anything else.
  lemma ExactlyOneOwner(items: nat, workers: nat, x: int, i: nat)
    requires items > 0 && workers > 0 && i < workers
    ensures var c := CeilDiv(items, workers);
            var r := WorkerRange(items, c, i);
            && c > 0
            && (0 <= x < items ==> 0 <= x / c < workers)
            && (r.offset <= x < r.offset + r.cnt <==> 0 <= x < items && i == x / c)
  {
    var c := CeilDiv(items, workers);
    CeilDivZeroIff(items, workers);
    CeilDivCovers(items, workers);
    if 0 <= x < items {
      QuotientWithin(x, c, workers);
    }
    QuotientIs(x, c, i);
    assert i * c == c * i >= 0;
  }

  // The number of workers: enough for perRoutine items each and no more, but at most maxRoutines.
  lemma WorkersAreEnough(items: nat, perRoutine: nat, maxRoutines: nat)
    requires items > 0 && perRoutine > 0 && maxRoutines > 0
    ensures var n := RoutinesCount(items, perRoutine, maxRoutines);
            && 0 < n <= maxRoutines
            && (n - 1) * perRoutine < items
            && (n < maxRoutines ==> items <= n * perRoutine)
  {
    var c := CeilDiv(items, perRoutine);
    CeilDivZeroIff(items, perRoutine);
    CeilDivIsLeast(items, perRoutine);
    if c > maxRoutines {
      assert (maxRoutines - 1) * perRoutine <= (c - 1) * perRoutine;
    }
  }

  lemma CeilDivIsLeast(a: nat, b: nat)
    requires b > 0
    ensures (CeilDiv(a, b) - 1) * b < a <= CeilDiv(a, b) * b || a == 0
  {
    CeilDivCovers(a, b);
  }

  // The items are spread evenly: no range is larger than the first, which is the least size that n workers need,
  // and with fewer workers than allowed that is at most perRoutine.
  lemma RangesAreEven(items: nat, perRoutine: nat, maxRoutines: nat, i: nat)
    requires items > 0 && perRoutine > 0 && maxRoutines > 0
    requires i < RoutinesCount(items, perRoutine, maxRoutines)
    ensures var n := RoutinesCount(items, perRoutine, maxRoutines);
            var first := WorkerRange(items, CeilDiv(items, n), 0);
            && first.offset == 0
            && (first.cnt - 1) * n < items <= first.cnt * n
            && WorkerRange(items, CeilDiv(items, n), i).cnt <= first.cnt
            && (n < maxRoutines ==> first.cnt <= perRoutine)
  {
    var n := RoutinesCount(items, perRoutine, maxRoutines);
    WorkersAreEnough(items, perRoutine, maxRoutines);
    FirstIsLargest(items, n, i);
    if n < maxRoutines {
      CeilDivAtMost(items, n, perRoutine);
    }
  }

  lemma FirstIsLargest(items: nat, workers: nat, i: nat)
    requires items > 0 && workers > 0 && i < workers
    ensures var c := CeilDiv(items, workers);
            && WorkerRange(items, c, 0) == Range(0, c)
            && WorkerRange(items, c, i).cnt <= c
            && (c - 1) * workers < items <= c * workers
  {
    var c := CeilDiv(items, workers);
    CeilDivIsLeast(items, workers);
    Enlarge(items, workers);
    CeilDivAtMost(items, workers, items);
    CntAtMost(items, c, 0);
    CntAtMost(items, c, i);
  }

  lemma Enlarge(x: nat, y: nat)
    requires y > 0
    ensures x <= y * x
  {
  }

  lemma CntAtMost(items: nat, c: nat, i: nat)
    ensures WorkerRange(items, c, i).cnt <= c
    ensures c <= items ==> WorkerRange(items, c, 0) == Range(0, c)
  {
  }

  // No multiple of b smaller than the quotient's reaches a.
  lemma CeilDivAtMost(a: nat, b: nat, c: nat)
    requires a > 0 && b > 0 && a <= b * c
    ensures CeilDiv(a, b) <= c
  {
    CeilDivIsLeast(a, b);
    Cancel(CeilDiv(a, b) - 1, c, b);
  }

  lemma Cancel(x: int, y: int, b: nat)
    requires x * b < y * b
    ensures x < y
  {
    assert (y - x) * b > 0;
  }

  // ---- the workers: each runs fn on its items and counts the outcome in a separate atomic step ----

  datatype Worker = Worker(range: Range, next: int, pending: Option<bool>)

  datatype Call = Call(index: int, ok: bool)

  datatype State = State(workers: seq<Worker>, calls: seq<Call>, success: nat, failed: nat)

  ghost predicate Init(s: State, items: nat, workers: nat)
    requires workers > 0
  {
    && |s.workers| == workers && s.calls == [] && s.success == 0 && s.failed == 0
    && (forall i :: 0 <= i < workers ==>
          s.workers[i] == Worker(WorkerRange(items, CeilDiv(items, workers), i), 0, None))
  }

  // fn(offset + next) returns, with either outcome.
  ghost predicate CallStep(s: State, i: nat, ok: bool, s': State) {
    && i < |s.workers|
    && var w := s.workers[i];
    && w.pending.None? && w.next < w.range.cnt
    && s' == s.(workers := s.workers[i := w.(pending := Some(ok))],
                calls := s.calls + [Call(w.range.offset + w.next, ok)])
  }

  ghost predicate CountStep(s: State, i: nat, s': State) {
    && i < |s.workers|
    && var w := s.workers[i];
    && w.pending.Some?
    && s' == State(s.workers[i := w.(pending := None, next := w.next + 1)], s.calls,
                   s.success + (if w.pending.value then 1 else 0),
                   s.failed + (if w.pending.value then 0 else 1))
  }

  ghost predicate Step(s: State, s': State) {
    (exists i, ok :: CallStep(s, i, ok, s')) || (exists i :: CountStep(s, i, s'))
  }

  ghost predicate Run(ss: seq<State>, items: nat, workers: nat)
    requires workers > 0
  {
    |ss| > 0 && Init(ss[0], items, workers) && forall k :: 0 <= k < |ss| - 1 ==> Step(ss[k], ss[k + 1])
  }

  // wg.Wait() returns.
  ghost predicate Finished(s: State) {
    forall i :: 0 <= i < |s.workers| ==> s.workers[i].pending.None? && s.workers[i].next >= s.workers[i].range.cnt
  }

  function Times(calls: seq<Call>, x: int): nat {
    if calls == [] then 0 else Times(calls[..|calls| - 1], x) + (if calls[|calls| - 1].index == x then 1 else 0)
  }

  function Outcomes(calls: seq<Call>, ok: bool): nat {
    if calls == [] then 0 else Outcomes(calls[..|calls| - 1], ok) + (if calls[|calls| - 1].ok == ok then 1 else 0)
  }

  function Pending(ws: seq<Worker>, ok: bool): nat {
    if ws == [] then 0 else Pending(ws[..|ws| - 1], ok) + (if ws[|ws| - 1].pending == Some(ok) then 1 else 0)
  }

  lemma {:induction false} PendingUpdate(ws: seq<Worker>, i: nat, w: Worker, ok: bool)
    requires i < |ws|
    ensures Pending(ws[i := w], ok) + (if ws[i].pending == Some(ok) then 1 else 0)
            == Pending(ws, ok) + (if w.pending == Some(ok) then 1 else 0)
  {
    var n := |ws| - 1;
    if i < n {
      assert ws[i := w][..n] == ws[..n][i := w];
      PendingUpdate(ws[..n], i, w, ok);
    } else {
      assert ws[i := w][..n] == ws[..n];
    }
  }

  lemma {:induction false} NothingPending(ws: seq<Worker>, ok: bool)
    requires forall i :: 0 <= i < |ws| ==> ws[i].pending.None?
    ensures Pending(ws, ok) == 0
  {
    if ws != [] {
      NothingPending(ws[..|ws| - 1], ok);
    }
  }

  // How far a worker has come, counting the call whose outcome is not counted yet.
  function Started(w: Worker): int {
    w.next + if w.pending.Some? then 1 else 0
  }

  ghost predicate WorkersOk(s: State, items: nat, workers: nat)
    requires workers > 0
  {
    && |s.workers| == workers
    && (forall i {:trigger s.workers[i]} :: 0 <= i < workers ==>
          && s.workers[i].range == WorkerRange(items, CeilDiv(items, workers), i)
          && 0 <= s.workers[i].next
          && (s.workers[i].pending.Some? ==> s.workers[i].next < s.workers[i].range.cnt))
  }

  ghost predicate CallsOk(s: State, items: nat, workers: nat)
    requires items > 0 && workers > 0 && |s.workers| == workers
  {
    forall x {:trigger Times(s.calls, x)} :: Times(s.calls, x) == CallsDue(s.workers, items, x)
  }

  // 1 if the owner of `x` has already called fn(x).
  ghost function CallsDue(ws: seq<Worker>, items: nat, x: int): nat
    requires items > 0 && |ws| > 0
  {
    var c := CeilDiv(items, |ws|);
    ExactlyOneOwner(items, |ws|, x, 0);
    if 0 <= x < items && x < ws[x / c].range.offset + Started(ws[x / c]) then 1 else 0
  }

  ghost predicate CountersOk(s: State) {
    && s.success + Pending(s.workers, true) == Outcomes(s.calls, true)
    && s.failed + Pending(s.workers, false) == Outcomes(s.calls, false)
  }

  ghost predicate Inv(s: State, items: nat, workers: nat)
    requires items > 0 && workers > 0
  {
    WorkersOk(s, items, workers) && CallsOk(s, items, workers) && CountersOk(s)
  }

  lemma InitInv(s: State, items: nat, workers: nat)
    requires items > 0 && workers > 0 && Init(s, items, workers)
    ensures Inv(s, items, workers)
  {
    NothingPending(s.workers, true);
    NothingPending(s.workers, false);
    forall x ensures Times(s.calls, x) == CallsDue(s.workers, items, x) {
      var c := CeilDiv(items, workers);
      ExactlyOneOwner(items, workers, x, 0);
      if 0 <= x < items {
        ExactlyOneOwner(items, workers, x, x / c);
      }
    }
  }

  lemma CallKeepsInv(s: State, i: nat, ok: bool, s': State, items: nat, workers: nat)
    requires items > 0 && workers > 0 && Inv(s, items, workers) && CallStep(s, i, ok, s')
    ensures Inv(s', items, workers)
  {
    CallKeepsCounters(s, i, ok, s');
    var w := s.workers[i];
    var y := w.range.offset + w.next;
    ExactlyOneOwner(items, workers, y, i);
    forall x ensures Times(s'.calls, x) == CallsDue(s'.workers, items, x) {
      assert s'.calls[..|s.calls|] == s.calls;
      ExactlyOneOwner(items, workers, x, i);
      assert Times(s.calls, x) == CallsDue(s.workers, items, x);
    }
  }

  lemma CountKeepsInv(s: State, i: nat, s': State, items: nat, workers: nat)
    requires items > 0 && workers > 0 && Inv(s, items, workers) && CountStep(s, i, s')
    ensures Inv(s', items, workers)
  {
    CountKeepsCounters(s, i, s');
    forall x ensures Times(s'.calls, x) == CallsDue(s'.workers, items, x) {
      ExactlyOneOwner(items, workers, x, i);
      assert Times(s.calls, x) == CallsDue(s.workers, items, x);
    }
  }

  lemma CallKeepsCounters(s: State, i: nat, ok: bool, s': State)
    requires CountersOk(s) && CallStep(s, i, ok, s')
    ensures CountersOk(s')
  {
    PendingUpdate(s.workers, i, s'.workers[i], true);
    PendingUpdate(s.workers, i, s'.workers[i], false);
    assert s'.calls[..|s.calls|] == s.calls;
  }

  lemma CountKeepsCounters(s: State, i: nat, s': State)
    requires CountersOk(s) && CountStep(s, i, s')
    ensures CountersOk(s')
  {
    PendingUpdate(s.workers, i, s'.workers[i], true);
    PendingUpdate(s.workers, i, s'.workers[i], false);
  }

  lemma StepInv(s: State, s': State, items: nat, workers: nat)
    requires items > 0 && workers > 0 && Inv(s, items, workers) && Step(s, s')
    ensures Inv(s', items, workers)
  {
    if i, ok :| CallStep(s, i, ok, s') {
      CallKeepsInv(s, i, ok, s', items, workers);
    } else {
      var i :| CountStep(s, i, s');
      CountKeepsInv(s, i, s', items, workers);
    }
  }

  lemma {:induction false} RunInv(ss: seq<State>, items: nat, workers: nat)
    requires items > 0 && workers > 0 && Run(ss, items, workers)
    ensures Inv(ss[|ss| - 1], items, workers)
    ensures |ss| - 1 == |ss[|ss| - 1].calls| + ss[|ss| - 1].success + ss[|ss| - 1].failed
  {
    if |ss| == 1 {
      InitInv(ss[0], items, workers);
    } else {
      var pre := ss[..|ss| - 1];
      RunInv(pre, items, workers);
      assert Step(ss[|ss| - 2], ss[|ss| - 1]);
      StepInv(ss[|ss| - 2], ss[|ss| - 1], items, workers);
    }
  }

  // ---- counting calls by index ----

  function TimesBelow(calls: seq<Call>, n: nat): nat {
    if n == 0 then 0 else TimesBelow(calls, n - 1) + Times(calls, n - 1)
  }

  lemma {:induction false} TimesBelowSnoc(calls: seq<Call>, c: Call, n: nat)
    ensures TimesBelow(calls + [c], n) == TimesBelow(calls, n) + if 0 <= c.index < n then 1 else 0
  {
    if n > 0 {
      TimesBelowSnoc(calls, c, n - 1);
      assert (calls + [c])[..|calls|] == calls;
    }
  }

  lemma {:induction false} CallsSplit(calls: seq<Call>, n: nat)
    requires forall x :: !(0 <= x < n) ==> Times(calls, x) == 0
    ensures |calls| == TimesBelow(calls, n) == Outcomes(calls, true) + Outcomes(calls, false)
  {
    if calls == [] {
      ZeroBelow(n);
    } else {
      var init, c := calls[..|calls| - 1], calls[|calls| - 1];
      assert calls == init + [c];
      assert Times(calls, c.index) > 0;
      forall x | !(0 <= x < n) ensures Times(init, x) == 0 {
        assert Times(calls, x) == 0;
      }
      CallsSplit(init, n);
      TimesBelowSnoc(init, c, n);
    }
  }

  lemma {:induction false} ZeroBelow(n: nat)
    ensures TimesBelow([], n) == 0
  {
    if n > 0 {
      ZeroBelow(n - 1);
    }
  }

  lemma {:induction false} OnceBelow(calls: seq<Call>, n: nat, items: nat)
    requires n <= items && forall x :: 0 <= x < items ==> Times(calls, x) == 1
    ensures TimesBelow(calls, n) == n
  {
    if n > 0 {
      OnceBelow(calls, n - 1, items);
    }
  }

  // When all workers are done, fn has been called exactly once on every index and on nothing else, the
  // counters are the numbers of calls with each outcome and add up to the items, and the run took two
  // steps per item.
  lemma ExactlyOnce(ss: seq<State>, items: nat, workers: nat)
    requires items > 0 && workers > 0 && Run(ss, items, workers) && Finished(ss[|ss| - 1])
    ensures var s := ss[|ss| - 1];
            && (forall x :: Times(s.calls, x) == if 0 <= x < items then 1 else 0)
            && s.success == Outcomes(s.calls, true) && s.failed == Outcomes(s.calls, false)
            && s.success + s.failed == items
            && |ss| == 2 * items + 1
  {
    var s := ss[|ss| - 1];
    var c := CeilDiv(items, workers);
    RunInv(ss, items, workers);
    NothingPending(s.workers, true);
    NothingPending(s.workers, false);
    forall x ensures Times(s.calls, x) == if 0 <= x < items then 1 else 0 {
      ExactlyOneOwner(items, workers, x, 0);
      assert Times(s.calls, x) == CallsDue(s.workers, items, x);
      if 0 <= x < items {
        ExactlyOneOwner(items, workers, x, x / c);
        assert s.workers[x / c].next >= s.workers[x / c].range.cnt;
      }
    }
    CallsSplit(s.calls, items);
    OnceBelow(s.calls, items, items);
  }

  ghost predicate CanStep(s: State) {
    exists s' :: Step(s, s')
  }

  // A run can go on exactly while not all workers are done, and never for more than two steps per item.
  lemma StopsIffFinished(ss: seq<State>, items: nat, workers: nat)
    requires items > 0 && workers > 0 && Run(ss, items, workers)
    ensures CanStep(ss[|ss| - 1]) <==> !Finished(ss[|ss| - 1])
    ensures |ss| <= 2 * items + 1
  {
    RunInv(ss, items, workers);
    var s := ss[|ss| - 1];
    if !Finished(s) {
      var i :| 0 <= i < |s.workers| && (s.workers[i].pending.Some? || s.workers[i].next < s.workers[i].range.cnt);
      var s' := WorkerCan(s, i, true);
      assert Step(s, s');
    }
    CallsAtMost(ss, items, workers);
  }

  // Whatever the others do, a worker that is not done can count its last call, or make its next one with either
  // outcome.
  lemma WorkerCan(s: State, i: nat, ok: bool) returns (s': State)
    requires i < |s.workers| && (s.workers[i].pending.Some? || s.workers[i].next < s.workers[i].range.cnt)
    ensures if s.workers[i].pending.Some? then CountStep(s, i, s') else CallStep(s, i, ok, s')
  {
    var w := s.workers[i];
    if w.pending.Some? {
      s' := State(s.workers[i := w.(pending := None, next := w.next + 1)], s.calls,
                  s.success + (if w.pending.value then 1 else 0), s.failed + (if w.pending.value then 0 else 1));
    } else {
      s' := s.(workers := s.workers[i := w.(pending := Some(ok))],
               calls := s.calls + [Call(w.range.offset + w.next, ok)]);
    }
  }

  lemma CallsAtMost(ss: seq<State>, items: nat, workers: nat)
    requires items > 0 && workers > 0 && Run(ss, items, workers)
    ensures var s := ss[|ss| - 1]; s.success + s.failed <= |s.calls| <= items
  {
    RunInv(ss, items, workers);
    var s := ss[|ss| - 1];
    forall x ensures Times(s.calls, x) <= if 0 <= x < items then 1 else 0 {
      NeverTwice(ss, items, workers, x);
    }
    CallsSplit(s.calls, items);
    AtMostOnceBelow(s.calls, items, items);
  }

  lemma {:induction false} AtMostOnceBelow(calls: seq<Call>, n: nat, items: nat)
    requires n <= items && forall x :: 0 <= x < items ==> Times(calls, x) <= 1
    ensures TimesBelow(calls, n) <= n
  {
    if n > 0 {
      AtMostOnceBelow(calls, n - 1, items);
    }
  }

  // At any moment of any run no index has been called twice.
  lemma NeverTwice(ss: seq<State>, items: nat, workers: nat, x: int)
    requires items > 0 && workers > 0 && Run(ss, items, workers)
    ensures Times(ss[|ss| - 1].calls, x) <= if 0 <= x < items then 1 else 0
  {
    RunInv(ss, items, workers);
    var s := ss[|ss| - 1];
    assert Times(s.calls, x) == CallsDue(s.workers, items, x);
  }
}
