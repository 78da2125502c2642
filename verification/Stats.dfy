// Log aggregation: an online fold over the log and the definition it must agree with.
module Stats {
  import opened Wrappers
  import opened Collections

  // Times in nanoseconds; 0 is the zero time a message's latest reception starts from.
  datatype Log = Log(msgID: string, isValidator: bool, direction: string, time: int)

  datatype MsgStats = MsgStats(
    totalNodes: nat, totalValidators: nat, msgID: string, sentTime: int,
    lastReceived: int, lastValidator: int, histogram: map<int, nat>, sumDurations: int, sumValidators: int)

  datatype Table = Table(msgNumber: nat, result: map<string, MsgStats>)

  function Get(h: map<int, nat>, d: int): nat { if d in h then h[d] else 0 }

  function Later(a: int, b: int): int { if a < b then b else a }

  // ---- one log line (lines 119-169) ----

  function Bumped(h: map<int, nat>, ds: seq<int>, v: int): map<int, nat> {
    if ds == [] then h
    else
      var d := ds[|ds| - 1];
      var h' := Bumped(h, ds[..|ds| - 1], v);
      if v <= d then h'[d := Get(h', d) + 1] else h'
  }

  function Received(ds: seq<int>, r: MsgStats, l: Log): MsgStats {
    var duration := l.time - r.sentTime;
    var r' := r.(totalNodes := r.totalNodes + 1, lastReceived := Later(r.lastReceived, l.time),
                 sumDurations := r.sumDurations + duration);
    if !l.isValidator then r'
    else
      r'.(lastValidator := Later(r.lastValidator, l.time), sumValidators := r.sumValidators + duration,
          totalValidators := r.totalValidators + 1, histogram := Bumped(r.histogram, ds, duration))
  }

  predicate IsSend(l: Log, id: string) { l.direction == "sent" && l.msgID == id }

  predicate IsReceipt(l: Log, id: string) { l.direction == "received" && l.msgID == id }

  // None is the panic on a second send of a message.
  function Add(ds: seq<int>, t: Table, l: Log): Option<Table> {
    if l.direction == "sent" then
      if l.msgID in t.result then None
      else Some(Table(t.msgNumber + 1, t.result[l.msgID := MsgStats(0, 0, l.msgID, l.time, 0, 0, map[], 0, 0)]))
    else if l.direction == "received" && l.msgID in t.result then
      Some(t.(result := t.result[l.msgID := Received(ds, t.result[l.msgID], l)]))
    else Some(t)
  }

  class Aggregator {
    const durations: seq<int>
    var msgNumber: nat
    var result: map<string, MsgStats>

    constructor (durations: seq<int>)
      ensures this.durations == durations && Contents() == Table(0, map[])
    {
      this.durations, msgNumber, result := durations, 0, map[];
    }

    ghost function Contents(): Table
      reads this
    {
      Table(msgNumber, result)
    }

    // `panicked` reports the duplicate send.
    method AddStatistics(l: Log) returns (panicked: bool)
      modifies this
      ensures panicked <==> Add(durations, old(Contents()), l).None?
      ensures panicked ==> Contents() == old(Contents())
      ensures !panicked ==> Some(Contents()) == Add(durations, old(Contents()), l)
    {
      if l.direction == "sent" {
        if l.msgID in result {
          return true;
        }
        msgNumber := msgNumber + 1;
        result := result[l.msgID := MsgStats(0, 0, l.msgID, l.time, 0, 0, map[], 0, 0)];
      } else if l.direction == "received" {
        if l.msgID in result {
          var r := result[l.msgID];
          r := r.(totalNodes := r.totalNodes + 1);
          if r.lastReceived < l.time {
            r := r.(lastReceived := l.time);
          }
          r := r.(sumDurations := r.sumDurations + (l.time - r.sentTime));
          if l.isValidator {
            if r.lastValidator < l.time {
              r := r.(lastValidator := l.time);
            }
            var valDuration := l.time - r.sentTime;
            r := r.(sumValidators := r.sumValidators + valDuration, totalValidators := r.totalValidators + 1);
            var h := IncrementAll(r.histogram, valDuration);
            r := r.(histogram := h);
          }
          result := result[l.msgID := r];
        }
      }
      return false;
    }

    // Lines 161-165 and incrementNodesCount.
    method IncrementAll(h: map<int, nat>, valDuration: int) returns (h': map<int, nat>)
      ensures h' == Bumped(h, durations, valDuration)
    {
      h' := h;
      for i := 0 to |durations|
        invariant h' == Bumped(h, durations[..i], valDuration)
      {
        var d := durations[i];
        assert durations[..i + 1][..i] == durations[..i];
        if valDuration <= d {
          if d in h' {
            h' := h'[d := h'[d] + 1];
          } else {
            h' := h'[d := 1];
          }
        }
      }
      assert durations[..|durations|] == durations;
    }

    // The whole log, stopping at a panic.
    method Process(logs: seq<Log>) returns (panicked: bool)
      requires Contents() == Table(0, map[])
      modifies this
      ensures panicked <==> Fold(durations, logs).None?
      ensures !panicked ==> Some(Contents()) == Fold(durations, logs)
    {
      panicked := false;
      for i := 0 to |logs|
        invariant !panicked && Some(Contents()) == Fold(durations, logs[..i])
      {
        assert logs[..i + 1][..i] == logs[..i];
        panicked := AddStatistics(logs[i]);
        if panicked {
          FoldStaysNone(durations, logs, i + 1);
          return;
        }
      }
      assert logs[..|logs|] == logs;
    }
  }

  function Fold(ds: seq<int>, logs: seq<Log>): Option<Table> {
    if logs == [] then Some(Table(0, map[]))
    else
      match Fold(ds, logs[..|logs| - 1])
      case None => None
      case Some(t) => Add(ds, t, logs[|logs| - 1])
  }

  lemma {:induction false} FoldStaysNone(ds: seq<int>, logs: seq<Log>, n: nat)
    requires n <= |logs| && Fold(ds, logs[..n]).None?
    ensures Fold(ds, logs).None?
    decreases |logs|
  {
    if n == |logs| {
      assert logs[..n] == logs;
    } else {
      var init := logs[..|logs| - 1];
      assert init[..n] == logs[..n];
      FoldStaysNone(ds, init, n);
    }
  }

  // ---- the definition ----

  ghost predicate NoDuplicateSends(logs: seq<Log>) {
    forall i, j :: 0 <= i < j < |logs| && logs[i].direction == "sent" && logs[j].direction == "sent" ==>
      logs[i].msgID != logs[j].msgID
  }

  ghost predicate SentAt(logs: seq<Log>, id: string, i: nat) {
    i < |logs| && IsSend(logs[i], id)
  }

  // The positions of the receptions of `id` logged after position i.
  ghost function Receipts(logs: seq<Log>, id: string, i: nat): set<nat> {
    set j: nat | i < j < |logs| && IsReceipt(logs[j], id)
  }

  ghost function ByValidators(logs: seq<Log>, id: string, i: nat): set<nat> {
    set j: nat | i < j < |logs| && IsReceipt(logs[j], id) && logs[j].isValidator
  }

  ghost function Within(logs: seq<Log>, id: string, i: nat, d: int): set<nat>
    requires i < |logs|
  {
    set j: nat | i < j < |logs| && IsReceipt(logs[j], id) && logs[j].isValidator && logs[j].time - logs[i].time <= d
  }

  // The sum of the delays of the positions from i+1 to n-1 that are receptions (by validators only if `vs`).
  function Delays(logs: seq<Log>, id: string, i: nat, n: nat, vs: bool): int
    requires i < n <= |logs|
  {
    if n == i + 1 then 0
    else
      var l := logs[n - 1];
      Delays(logs, id, i, n - 1, vs) + if IsReceipt(l, id) && (vs ==> l.isValidator) then l.time - logs[i].time else 0
  }

  // The latest of the zero time and the times at `js`.
  ghost predicate IsLatest(logs: seq<Log>, js: set<nat>, t: int) {
    && (forall j :: j in js ==> j < |logs| && logs[j].time <= t)
    && t >= 0
    && (t == 0 || exists j :: j in js && j < |logs| && logs[j].time == t)
  }

  ghost predicate TotalsOk(r: MsgStats, logs: seq<Log>, id: string, i: nat)
    requires i < |logs|
  {
    && r.totalNodes == |Receipts(logs, id, i)|
    && r.totalValidators == |ByValidators(logs, id, i)|
    && r.sumDurations == Delays(logs, id, i, |logs|, false)
    && r.sumValidators == Delays(logs, id, i, |logs|, true)
  }

  ghost predicate LatestOk(r: MsgStats, logs: seq<Log>, id: string, i: nat) {
    && IsLatest(logs, Receipts(logs, id, i), r.lastReceived)
    && IsLatest(logs, ByValidators(logs, id, i), r.lastValidator)
  }

  // The entry of a message sent at position i, for the whole log.
  ghost predicate Describes(ds: seq<int>, r: MsgStats, logs: seq<Log>, id: string, i: nat)
    requires i < |logs|
  {
    && r.msgID == id && r.sentTime == logs[i].time
    && TotalsOk(r, logs, id, i)
    && LatestOk(r, logs, id, i)
    && (forall d {:trigger HistogramOk(ds, r, logs, id, i, d)} :: HistogramOk(ds, r, logs, id, i, d))
  }

  // A threshold listed several times is counted several times.
  ghost predicate HistogramOk(ds: seq<int>, r: MsgStats, logs: seq<Log>, id: string, i: nat, d: int)
    requires i < |logs|
  {
    Get(r.histogram, d) == Times(multiset(ds)[d], |Within(logs, id, i, d)|)
  }

  function Times(m: nat, n: nat): nat { if n == 0 then 0 else Times(m, n - 1) + m }

  // ---- the fold agrees with it ----

  lemma {:induction false} BumpedGet(h: map<int, nat>, ds: seq<int>, v: int, d: int)
    ensures Get(Bumped(h, ds, v), d) == Get(h, d) + if v <= d then multiset(ds)[d] else 0
  {
    if ds != [] {
      var init, last := ds[..|ds| - 1], ds[|ds| - 1];
      BumpedGet(h, init, v, d);
      assert ds == init + [last];
    }
  }

  lemma {:induction false} DelaysSnoc(logs: seq<Log>, l: Log, id: string, i: nat, n: nat, vs: bool)
    requires i < n <= |logs|
    ensures Delays(logs + [l], id, i, n, vs) == Delays(logs, id, i, n, vs)
  {
    if n > i + 1 {
      DelaysSnoc(logs, l, id, i, n - 1, vs);
    }
  }

  // One more log line adds its position to the sets it belongs to.
  lemma SetsSnoc(logs: seq<Log>, l: Log, id: string, i: nat)
    requires i < |logs|
    ensures var n: nat := |logs|;
            && Receipts(logs + [l], id, i) == Receipts(logs, id, i) + (if IsReceipt(l, id) then {n} else {})
            && ByValidators(logs + [l], id, i) ==
               ByValidators(logs, id, i) + (if IsReceipt(l, id) && l.isValidator then {n} else {})
            && n !in Receipts(logs, id, i) && n !in ByValidators(logs, id, i)
  {
  }

  lemma WithinSnoc(logs: seq<Log>, l: Log, id: string, i: nat, d: int)
    requires i < |logs|
    ensures var n: nat := |logs|;
            var counts := IsReceipt(l, id) && l.isValidator && l.time - logs[i].time <= d;
            && Within(logs + [l], id, i, d) == Within(logs, id, i, d) + (if counts then {n} else {})
            && n !in Within(logs, id, i, d)
  {
  }

  lemma LatestSnoc(logs: seq<Log>, l: Log, js: set<nat>, t: int, counts: bool)
    requires IsLatest(logs, js, t)
    ensures var n: nat := |logs|;
            if counts then IsLatest(logs + [l], js + {n}, Later(t, l.time)) else IsLatest(logs + [l], js, t)
  {
  }

  lemma OtherTotals(r: MsgStats, logs: seq<Log>, l: Log, id: string, i: nat)
    requires i < |logs| && TotalsOk(r, logs, id, i) && !IsReceipt(l, id)
    ensures TotalsOk(r, logs + [l], id, i)
  {
    SetsSnoc(logs, l, id, i);
    DelaysSnoc(logs, l, id, i, |logs|, false);
    DelaysSnoc(logs, l, id, i, |logs|, true);
  }

  lemma OtherLatest(r: MsgStats, logs: seq<Log>, l: Log, id: string, i: nat)
    requires i < |logs| && LatestOk(r, logs, id, i) && !IsReceipt(l, id)
    ensures LatestOk(r, logs + [l], id, i)
  {
    SetsSnoc(logs, l, id, i);
    LatestSnoc(logs, l, Receipts(logs, id, i), r.lastReceived, false);
    LatestSnoc(logs, l, ByValidators(logs, id, i), r.lastValidator, false);
  }

  lemma OtherLine(ds: seq<int>, r: MsgStats, logs: seq<Log>, l: Log, id: string, i: nat)
    requires i < |logs| && Describes(ds, r, logs, id, i) && !IsReceipt(l, id)
    ensures Describes(ds, r, logs + [l], id, i)
  {
    OtherTotals(r, logs, l, id, i);
    OtherLatest(r, logs, l, id, i);
    forall d ensures HistogramOk(ds, r, logs + [l], id, i, d) {
      assert HistogramOk(ds, r, logs, id, i, d);
      WithinSnoc(logs, l, id, i, d);
    }
  }

  lemma ReceiptTotals(ds: seq<int>, r: MsgStats, logs: seq<Log>, l: Log, id: string, i: nat)
    requires i < |logs| && TotalsOk(r, logs, id, i) && r.sentTime == logs[i].time && IsReceipt(l, id)
    ensures TotalsOk(Received(ds, r, l), logs + [l], id, i)
  {
    SetsSnoc(logs, l, id, i);
    DelaysSnoc(logs, l, id, i, |logs|, false);
    DelaysSnoc(logs, l, id, i, |logs|, true);
  }

  lemma ReceiptLatest(ds: seq<int>, r: MsgStats, logs: seq<Log>, l: Log, id: string, i: nat)
    requires i < |logs| && LatestOk(r, logs, id, i) && IsReceipt(l, id)
    ensures LatestOk(Received(ds, r, l), logs + [l], id, i)
  {
    SetsSnoc(logs, l, id, i);
    LatestSnoc(logs, l, Receipts(logs, id, i), r.lastReceived, true);
    LatestSnoc(logs, l, ByValidators(logs, id, i), r.lastValidator, l.isValidator);
  }

  lemma ReceiptHistogram(ds: seq<int>, r: MsgStats, logs: seq<Log>, l: Log, id: string, i: nat, d: int)
    requires i < |logs| && r.sentTime == logs[i].time && IsReceipt(l, id)
    requires HistogramOk(ds, r, logs, id, i, d)
    ensures HistogramOk(ds, Received(ds, r, l), logs + [l], id, i, d)
  {
    WithinSnoc(logs, l, id, i, d);
    BumpedGet(r.histogram, ds, l.time - r.sentTime, d);
  }

  lemma ReceiptLine(ds: seq<int>, r: MsgStats, logs: seq<Log>, l: Log, id: string, i: nat)
    requires i < |logs| && Describes(ds, r, logs, id, i) && IsReceipt(l, id)
    ensures Describes(ds, Received(ds, r, l), logs + [l], id, i)
  {
    ReceiptTotals(ds, r, logs, l, id, i);
    ReceiptLatest(ds, r, logs, l, id, i);
    forall d ensures HistogramOk(ds, Received(ds, r, l), logs + [l], id, i, d) {
      assert HistogramOk(ds, r, logs, id, i, d);
      ReceiptHistogram(ds, r, logs, l, id, i, d);
    }
  }

  lemma FreshMessage(ds: seq<int>, logs: seq<Log>, l: Log)
    ensures Describes(ds, MsgStats(0, 0, l.msgID, l.time, 0, 0, map[], 0, 0), logs + [l], l.msgID, |logs|)
  {
  }

  // The entry of `id` in `t` is right for `logs`: absent without a send, else as described from that send on.
  ghost predicate EntryOk(ds: seq<int>, t: Table, logs: seq<Log>, id: string) {
    && (id in t.result <==> exists i: nat :: SentAt(logs, id, i))
    && (forall i: nat {:trigger SentAt(logs, id, i)} :: SentAt(logs, id, i) ==>
          id in t.result && Describes(ds, t.result[id], logs, id, i))
  }

  lemma SentSnoc(logs: seq<Log>, l: Log, id: string, i: nat)
    ensures SentAt(logs + [l], id, i) <==> SentAt(logs, id, i) || (i == |logs| && IsSend(l, id))
  {
  }

  lemma AddEntry(ds: seq<int>, t: Table, logs: seq<Log>, l: Log, id: string)
    requires EntryOk(ds, t, logs, id) && Add(ds, t, l).Some?
    ensures EntryOk(ds, Add(ds, t, l).value, logs + [l], id)
  {
    var t' := Add(ds, t, l).value;
    forall i: nat | SentAt(logs + [l], id, i)
      ensures id in t'.result && Describes(ds, t'.result[id], logs + [l], id, i)
    {
      SentSnoc(logs, l, id, i);
      if i == |logs| {
        FreshMessage(ds, logs, l);
      } else if IsReceipt(l, id) {
        ReceiptLine(ds, t.result[id], logs, l, id, i);
      } else {
        assert !IsSend(l, id);
        OtherLine(ds, t.result[id], logs, l, id, i);
      }
    }
    if id in t'.result {
      if IsSend(l, id) {
        assert SentAt(logs + [l], id, |logs|);
      } else {
        var i: nat :| SentAt(logs, id, i);
        SentSnoc(logs, l, id, i);
      }
    }
  }

  // Folding any log without duplicate sends gives, for every message, the counts, sums, latest times and
  // histogram of the receptions logged after its send.
  lemma {:induction false} FoldMeetsDefinition(ds: seq<int>, logs: seq<Log>, id: string)
    requires Fold(ds, logs).Some?
    ensures EntryOk(ds, Fold(ds, logs).value, logs, id)
  {
    if logs != [] {
      var init, l := logs[..|logs| - 1], logs[|logs| - 1];
      FoldMeetsDefinition(ds, init, id);
      assert logs == init + [l];
      AddEntry(ds, Fold(ds, init).value, init, l, id);
    }
  }

  // There is one entry per counted message.
  lemma {:induction false} FoldCountsMessages(ds: seq<int>, logs: seq<Log>)
    requires Fold(ds, logs).Some?
    ensures Fold(ds, logs).value.msgNumber == |Fold(ds, logs).value.result|
  {
    if logs != [] {
      FoldCountsMessages(ds, logs[..|logs| - 1]);
    }
  }

  // The fold panics exactly on a log that sends a message twice.
  lemma {:induction false} PanicsIffDuplicate(ds: seq<int>, logs: seq<Log>)
    ensures Fold(ds, logs).Some? <==> NoDuplicateSends(logs)
  {
    if logs != [] {
      var n := |logs| - 1;
      var init, l := logs[..n], logs[n];
      PanicsIffDuplicate(ds, init);
      assert logs == init + [l];
      if NoDuplicateSends(init) {
        FoldMeetsDefinition(ds, init, l.msgID);
        if l.direction == "sent" && l.msgID in Fold(ds, init).value.result {
          var i: nat :| SentAt(init, l.msgID, i);
          assert logs[i] == init[i];
        } else if l.direction == "sent" {
          assert forall i :: 0 <= i < n && logs[i].direction == "sent" && logs[i].msgID == l.msgID ==>
              SentAt(init, l.msgID, i);
        }
      } else {
        var i, j :| 0 <= i < j < |init| && init[i].direction == "sent" && init[j].direction == "sent"
                    && init[i].msgID == init[j].msgID;
        assert logs[i] == init[i] && logs[j] == init[j];
      }
    }
  }

  lemma {:induction false} Once(n: nat)
    ensures Times(1, n) == n
  {
    if n > 0 {
      Once(n - 1);
    }
  }

  // The histogram is cumulative: monotone in the threshold and bounded by the validators that received.
  lemma HistogramIsCumulative(ds: seq<int>, logs: seq<Log>, id: string, i: nat, d: int, e: int)
    requires NoDuplicates(ds) && Fold(ds, logs).Some? && SentAt(logs, id, i) && d in ds && e in ds && d <= e
    ensures id in Fold(ds, logs).value.result
    ensures var r := Fold(ds, logs).value.result[id];
            Get(r.histogram, d) <= Get(r.histogram, e) <= r.totalValidators <= r.totalNodes
  {
    FoldMeetsDefinition(ds, logs, id);
    var r := Fold(ds, logs).value.result[id];
    assert HistogramOk(ds, r, logs, id, i, d) && HistogramOk(ds, r, logs, id, i, e);
    ListedOnce(ds, d);
    ListedOnce(ds, e);
    Once(|Within(logs, id, i, d)|);
    Once(|Within(logs, id, i, e)|);
    SubsetSize(Within(logs, id, i, d), Within(logs, id, i, e));
    SubsetSize(Within(logs, id, i, e), ByValidators(logs, id, i));
    SubsetSize(ByValidators(logs, id, i), Receipts(logs, id, i));
  }
}
