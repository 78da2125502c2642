// The counters printed after aggregation, and what they mean for the whole log.
module StatsSummary {
  import opened Collections
  import opened Stats
  import opened Wrappers

  // What an entry can be counted as, for the number of validators the header announces.
  datatype Kind = Full | FullAfter(d: int) | Short

  predicate Is(kind: Kind, r: MsgStats, validators: int) {
    match kind
    case Full => r.totalValidators == validators
    case FullAfter(d) => r.totalValidators == validators && r.lastValidator - r.sentTime == d
    case Short => r.totalValidators < validators
  }

  // The number of such entries among the first n.
  function Count(kind: Kind, rs: seq<MsgStats>, n: nat, validators: int): nat
    requires n <= |rs|
  {
    if n == 0 then 0
    else Count(kind, rs, n - 1, validators) + if Is(kind, rs[n - 1], validators) then 1 else 0
  }

  // The total of all counts of a map.
  ghost function Total(h: map<int, nat>): nat
    decreases |h|
  {
    if h == map[] then 0
    else
      var d := Element(h.Keys);
      h[d] + Total(h - {d})
  }

  // It does not depend on the order in which the counts are taken.
  lemma {:induction false} TotalRemove(h: map<int, nat>, d: int)
    requires d in h
    ensures Total(h) == h[d] + Total(h - {d})
    decreases |h|
  {
    var e := Element(h.Keys);
    if e != d {
      TotalRemove(h - {e}, d);
      TotalRemove(h - {d}, e);
      assert h - {e} - {d} == h - {d} - {e};
    }
  }

  lemma TotalBump(h: map<int, nat>, d: int)
    ensures Total(h[d := Get(h, d) + 1]) == Total(h) + 1
  {
    var h' := h[d := Get(h, d) + 1];
    TotalRemove(h', d);
    assert h' - {d} == h - {d};
    if d in h {
      TotalRemove(h, d);
    } else {
      assert h - {d} == h;
    }
  }

  // ---- the loop of printStats (lines 243-264) ----

  // The counts per duration are those of the first n entries.
  ghost predicate Tallied(h: map<int, nat>, rs: seq<MsgStats>, n: nat, validators: int)
    requires n <= |rs|
  {
    && (forall d {:trigger Get(h, d)} :: Get(h, d) == Count(FullAfter(d), rs, n, validators))
    && Total(h) == Count(Full, rs, n, validators)
  }

  lemma TallyNext(h: map<int, nat>, rs: seq<MsgStats>, n: nat, validators: int)
    requires n < |rs| && Tallied(h, rs, n, validators)
    ensures var d := rs[n].lastValidator - rs[n].sentTime;
            var h' := if rs[n].totalValidators == validators then h[d := Get(h, d) + 1] else h;
            Tallied(h', rs, n + 1, validators)
  {
    var d := rs[n].lastValidator - rs[n].sentTime;
    var h' := if rs[n].totalValidators == validators then h[d := Get(h, d) + 1] else h;
    TotalBump(h, d);
    forall e ensures Get(h', e) == Count(FullAfter(e), rs, n + 1, validators) {
      assert Get(h, e) == Count(FullAfter(e), rs, n, validators);
    }
  }

  // `most` is the largest number of validators missing in one of the first n entries, or 0.
  ghost predicate MostLacking(rs: seq<MsgStats>, n: nat, validators: int, most: int)
    requires n <= |rs|
  {
    && most >= 0
    && (forall k :: 0 <= k < n ==> validators - rs[k].totalValidators <= most)
    && (most == 0 || exists k :: 0 <= k < n && most == validators - rs[k].totalValidators)
  }

  // `rs` are the entries of the result map in any order.
  method Summarize(rs: seq<MsgStats>, validators: int)
    returns (perDuration: map<int, nat>, notReceivedAll: nat, maxMissing: int)
    ensures Tallied(perDuration, rs, |rs|, validators)
    ensures notReceivedAll == Count(Short, rs, |rs|, validators)
    ensures MostLacking(rs, |rs|, validators, maxMissing)
  {
    perDuration, notReceivedAll, maxMissing := map[], 0, 0;
    for i := 0 to |rs|
      invariant Tallied(perDuration, rs, i, validators)
      invariant notReceivedAll == Count(Short, rs, i, validators)
      invariant MostLacking(rs, i, validators, maxMissing)
    {
      var r := rs[i];
      TallyNext(perDuration, rs, i, validators);
      if r.totalValidators == validators {
        var d := r.lastValidator - r.sentTime;
        perDuration := perDuration[d := Get(perDuration, d) + 1];
      }
      if r.totalValidators < validators {
        notReceivedAll := notReceivedAll + 1;
        var missing := validators - r.totalValidators;
        if maxMissing < missing {
          maxMissing := missing;
        }
      }
    }
  }

  // Full and short entries make up the first n exactly when none of them exceeds the announced validators.
  lemma {:induction false} CountsAddUpIff(rs: seq<MsgStats>, n: nat, validators: int)
    requires n <= |rs|
    ensures var both := Count(Full, rs, n, validators) + Count(Short, rs, n, validators);
            both <= n && (both == n <==> forall k :: 0 <= k < n ==> rs[k].totalValidators <= validators)
  {
    if n > 0 {
      CountsAddUpIff(rs, n - 1, validators);
    }
  }

  // ---- the summary of a whole log ----

  // `ids` lists the keys of the result map, each once: the order of a map's iteration is arbitrary.
  ghost predicate Enumerates(ids: seq<string>, result: map<string, MsgStats>) {
    NoDuplicates(ids) && forall id :: id in ids <==> id in result
  }

  function Entries(ids: seq<string>, result: map<string, MsgStats>): (rs: seq<MsgStats>)
    requires forall id :: id in ids ==> id in result
    ensures |rs| == |ids| && forall k :: 0 <= k < |ids| ==> rs[k] == result[ids[k]]
  {
    seq(|ids|, k requires 0 <= k < |ids| => result[ids[k]])
  }

  // The log's own account of what the message sent at position i counts as.
  ghost predicate SendIs(kind: Kind, logs: seq<Log>, i: nat, validators: int)
    requires i < |logs|
  {
    var js := ByValidators(logs, logs[i].msgID, i);
    match kind
    case Full => |js| == validators
    case FullAfter(d) => |js| == validators && IsLatest(logs, js, logs[i].time + d)
    case Short => |js| < validators
  }

  ghost function Sends(kind: Kind, logs: seq<Log>, validators: int): set<nat> {
    set i: nat | i < |logs| && logs[i].direction == "sent" && SendIs(kind, logs, i, validators)
  }

  lemma LatestIff(logs: seq<Log>, js: set<nat>, t: int, u: int)
    requires IsLatest(logs, js, t)
    ensures IsLatest(logs, js, u) <==> u == t
  {
  }

  // What the counters need of the table: one entry per message sent, with that send's times and total.
  ghost predicate Tabulates(result: map<string, MsgStats>, logs: seq<Log>) {
    && NoDuplicateSends(logs)
    && (forall id :: id in result ==> exists i: nat :: SentAt(logs, id, i))
    && (forall id, i: nat {:trigger SentAt(logs, id, i)} :: SentAt(logs, id, i) ==>
          id in result && Reflects(result[id], logs, id, i))
  }

  ghost predicate Reflects(r: MsgStats, logs: seq<Log>, id: string, i: nat)
    requires i < |logs|
  {
    && r.sentTime == logs[i].time
    && r.totalValidators == |ByValidators(logs, id, i)|
    && IsLatest(logs, ByValidators(logs, id, i), r.lastValidator)
  }

  lemma FoldTabulates(ds: seq<int>, logs: seq<Log>)
    requires Fold(ds, logs).Some?
    ensures Tabulates(Fold(ds, logs).value.result, logs)
  {
    var result := Fold(ds, logs).value.result;
    PanicsIffDuplicate(ds, logs);
    forall id | id in result ensures exists i: nat :: SentAt(logs, id, i) {
      FoldMeetsDefinition(ds, logs, id);
    }
    forall id, i: nat | SentAt(logs, id, i) ensures id in result && Reflects(result[id], logs, id, i) {
      FoldMeetsDefinition(ds, logs, id);
    }
  }

  // An entry counts as what the log says of its send.
  lemma EntryIs(kind: Kind, result: map<string, MsgStats>, logs: seq<Log>, id: string, i: nat, validators: int)
    requires Tabulates(result, logs) && SentAt(logs, id, i)
    ensures id in result
    ensures Is(kind, result[id], validators) <==> SendIs(kind, logs, i, validators)
  {
    var r := result[id];
    assert Reflects(r, logs, id, i);
    if kind.FullAfter? {
      LatestIff(logs, ByValidators(logs, id, i), r.lastValidator, logs[i].time + kind.d);
    }
  }

  // The messages whose entry counts.
  ghost function Ids(kind: Kind, result: map<string, MsgStats>, validators: int): set<string> {
    set id | id in result && Is(kind, result[id], validators)
  }

  lemma {:induction false} CountIsIds(kind: Kind, result: map<string, MsgStats>, ids: seq<string>, n: nat,
                                      validators: int)
    requires Enumerates(ids, result) && n <= |ids|
    ensures Count(kind, Entries(ids, result), n, validators) == Marked(ids, n, Ids(kind, result, validators))
  {
    if n > 0 {
      CountIsIds(kind, result, ids, n - 1, validators);
      assert ids[n - 1] in ids;
    }
  }

  // The message of each send that counts.
  ghost function MessageOf(kind: Kind, logs: seq<Log>, validators: int): map<nat, string> {
    map i | i in Sends(kind, logs, validators) :: logs[i].msgID
  }

  lemma MessagesDiffer(kind: Kind, logs: seq<Log>, validators: int)
    requires NoDuplicateSends(logs)
    ensures Injective(MessageOf(kind, logs, validators))
  {
  }

  lemma MessageCounts(kind: Kind, result: map<string, MsgStats>, logs: seq<Log>, validators: int, i: nat)
    requires Tabulates(result, logs) && i in Sends(kind, logs, validators)
    ensures logs[i].msgID in Ids(kind, result, validators)
  {
    assert SentAt(logs, logs[i].msgID, i);
    EntryIs(kind, result, logs, logs[i].msgID, i, validators);
  }

  lemma CountedHasSend(kind: Kind, result: map<string, MsgStats>, logs: seq<Log>, validators: int, id: string)
    returns (i: nat)
    requires Tabulates(result, logs) && id in Ids(kind, result, validators)
    ensures i in Sends(kind, logs, validators) && logs[i].msgID == id
  {
    i :| SentAt(logs, id, i);
    EntryIs(kind, result, logs, id, i, validators);
  }

  // Sends that count and messages that count correspond one to one.
  lemma IdsAreSends(kind: Kind, result: map<string, MsgStats>, logs: seq<Log>, validators: int)
    requires Tabulates(result, logs)
    ensures |Ids(kind, result, validators)| == |Sends(kind, logs, validators)|
  {
    var of, ids := MessageOf(kind, logs, validators), Ids(kind, result, validators);
    MessagesDiffer(kind, logs, validators);
    InjectiveSize(of);
    assert of.Keys == Sends(kind, logs, validators);
    forall i | i in of ensures of[i] in ids {
      MessageCounts(kind, result, logs, validators, i);
    }
    forall id | id in ids ensures exists i :: i in of && of[i] == id {
      var i := CountedHasSend(kind, result, logs, validators, id);
      assert i in of;
    }
    ValuesAre(of, ids);
  }

  // Counting entries is counting the sends they stand for.
  lemma CountIsSends(kind: Kind, result: map<string, MsgStats>, logs: seq<Log>, ids: seq<string>, validators: int)
    requires Tabulates(result, logs) && Enumerates(ids, result)
    ensures Count(kind, Entries(ids, result), |ids|, validators) == |Sends(kind, logs, validators)|
  {
    CountIsIds(kind, result, ids, |ids|, validators);
    MarkedSize(ids, |ids|, Ids(kind, result, validators));
    IdsAreSends(kind, result, logs, validators);
  }

  // No message has more receptions by validators, logged after its send, than the header announces.
  ghost predicate NoneExceeds(logs: seq<Log>, validators: int) {
    forall id: string, i: nat {:trigger SentAt(logs, id, i)} ::
      SentAt(logs, id, i) ==> |ByValidators(logs, id, i)| <= validators
  }

  // `most` is the largest number of validators that miss a message, or 0.
  ghost predicate MostMissing(logs: seq<Log>, validators: int, most: int) {
    && most >= 0
    && (forall id: string, i: nat {:trigger SentAt(logs, id, i)} ::
          SentAt(logs, id, i) ==> validators - |ByValidators(logs, id, i)| <= most)
    && (most == 0 || exists id: string, i: nat {:trigger SentAt(logs, id, i)} ::
          SentAt(logs, id, i) && most == validators - |ByValidators(logs, id, i)|)
  }

  lemma EntryOfSend(result: map<string, MsgStats>, logs: seq<Log>, ids: seq<string>, id: string, i: nat)
    returns (k: nat)
    requires Tabulates(result, logs) && Enumerates(ids, result) && SentAt(logs, id, i)
    ensures k < |ids| && Entries(ids, result)[k].totalValidators == |ByValidators(logs, id, i)|
  {
    assert Reflects(result[id], logs, id, i);
    k :| k < |ids| && ids[k] == id;
  }

  lemma SendOfEntry(result: map<string, MsgStats>, logs: seq<Log>, ids: seq<string>, k: nat)
    returns (i: nat)
    requires Tabulates(result, logs) && Enumerates(ids, result) && k < |ids|
    ensures SentAt(logs, ids[k], i)
    ensures Entries(ids, result)[k].totalValidators == |ByValidators(logs, ids[k], i)|
  {
    assert ids[k] in ids;
    i :| SentAt(logs, ids[k], i);
    assert Reflects(result[ids[k]], logs, ids[k], i);
  }

  // No entry exceeds a bound exactly when no message of the log does.
  lemma ExceedsIff(result: map<string, MsgStats>, logs: seq<Log>, ids: seq<string>, validators: int)
    requires Tabulates(result, logs) && Enumerates(ids, result)
    ensures var rs := Entries(ids, result);
            NoneExceeds(logs, validators) <==> forall k :: 0 <= k < |rs| ==> rs[k].totalValidators <= validators
  {
    var rs := Entries(ids, result);
    if NoneExceeds(logs, validators) {
      forall k | 0 <= k < |rs| ensures rs[k].totalValidators <= validators {
        var _ := SendOfEntry(result, logs, ids, k);
      }
    } else {
      var id: string, i: nat :| SentAt(logs, id, i) && |ByValidators(logs, id, i)| > validators;
      var k := EntryOfSend(result, logs, ids, id, i);
      assert rs[k].totalValidators > validators;
    }
  }

  // Full and short messages are all messages exactly when no message has more receptions by validators, logged
  // after its send, than the header announces.
  lemma SummaryAddsUpIff(ds: seq<int>, logs: seq<Log>, ids: seq<string>, validators: int)
    requires Fold(ds, logs).Some? && Enumerates(ids, Fold(ds, logs).value.result)
    ensures var t := Fold(ds, logs).value;
            var rs := Entries(ids, t.result);
            Count(Full, rs, |rs|, validators) + Count(Short, rs, |rs|, validators) == t.msgNumber <==>
            NoneExceeds(logs, validators)
  {
    var t := Fold(ds, logs).value;
    var rs := Entries(ids, t.result);
    FoldCountsMessages(ds, logs);
    FoldTabulates(ds, logs);
    EnumerationSize(ids, t.result.Keys);
    CountsAddUpIff(rs, |rs|, validators);
    ExceedsIff(t.result, logs, ids, validators);
  }

  lemma MissingAgrees(result: map<string, MsgStats>, logs: seq<Log>, ids: seq<string>, validators: int, most: int)
    requires Tabulates(result, logs) && Enumerates(ids, result)
    requires MostLacking(Entries(ids, result), |ids|, validators, most)
    ensures MostMissing(logs, validators, most)
  {
    var rs := Entries(ids, result);
    forall id: string, i: nat | SentAt(logs, id, i) ensures validators - |ByValidators(logs, id, i)| <= most {
      var k := EntryOfSend(result, logs, ids, id, i);
      assert validators - rs[k].totalValidators <= most;
    }
    if most != 0 {
      var k :| 0 <= k < |rs| && most == validators - rs[k].totalValidators;
      var i := SendOfEntry(result, logs, ids, k);
    }
  }

  // printStats on the table of any log, its map iterated in any order.
  method PrintStats(msgNumber: nat, result: map<string, MsgStats>, ids: seq<string>, validators: int,
                    ghost ds: seq<int>, ghost logs: seq<Log>)
    returns (perDuration: map<int, nat>, notReceivedAll: nat, maxMissing: int)
    requires Fold(ds, logs) == Some(Table(msgNumber, result)) && Enumerates(ids, result)
    ensures forall d :: Get(perDuration, d) == |Sends(FullAfter(d), logs, validators)|
    ensures notReceivedAll == |Sends(Short, logs, validators)|
    ensures Total(perDuration) + notReceivedAll == msgNumber <==> NoneExceeds(logs, validators)
    ensures MostMissing(logs, validators, maxMissing)
  {
    perDuration, notReceivedAll, maxMissing := Summarize(Entries(ids, result), validators);
    SummaryAddsUpIff(ds, logs, ids, validators);
    FoldTabulates(ds, logs);
    MissingAgrees(result, logs, ids, validators, maxMissing);
    CountIsSends(Short, result, logs, ids, validators);
    forall d ensures Get(perDuration, d) == |Sends(FullAfter(d), logs, validators)| {
      CountIsSends(FullAfter(d), result, logs, ids, validators);
    }
  }
}
