/** When transition times can go back: over every history, merges and mirrors included. */
module Times {
  import opened Api
  import opened Ordering
  import opened Store
  import opened MergePatch
  import opened Summary
  import opened Histories

  /** The calls of Set and Delete that every operation comes down to. */
  datatype Call = SetTo(condition: Condition, now: Time) | Erase(typ: ConditionType) {
    function Type(): ConditionType {
      if SetTo? then condition.typ else typ
    }
  }

  function Effect(m: EntryMap, call: Call): EntryMap {
    match call
    case SetTo(c, now) => m[c.typ := Stamp(c, At(m, c.typ), now)]
    case Erase(t) => m - {t}
  }

  /** The map after the first `n` calls. */
  function After(m: EntryMap, calls: seq<Call>, n: nat): EntryMap
    requires n <= |calls|
  {
    if n == 0 then m else Effect(After(m, calls, n - 1), calls[n - 1])
  }

  function TimeOf(m: EntryMap, t: ConditionType): Option<Time> {
    if t in m then Some(m[t].time) else None
  }

  /** The time `t` has after `n` calls or, if it is absent, the time it had last. */
  function LastTime(m: EntryMap, calls: seq<Call>, n: nat, t: ConditionType): Option<Time>
    requires n <= |calls|
  {
    var time := TimeOf(After(m, calls, n), t);
    if time.Some? || n == 0 then time else LastTime(m, calls, n - 1, t)
  }

  predicate NotAfter(a: Option<Time>, b: Option<Time>) {
    a.Some? && b.Some? ==> a.value <= b.value
  }

  /** Call number `n` is in order as far as `t` is concerned: if it sets `t` to another state, the clock is not behind
      the stored time; if it adds `t`, the time it brings, or else the clock, is not behind the last time `t` had. */
  predicate Orderly(m: EntryMap, calls: seq<Call>, n: nat, t: ConditionType)
    requires n < |calls|
  {
    calls[n].SetTo? && calls[n].Type() == t ==>
      var c, now := calls[n].condition, calls[n].now;
      match At(After(m, calls, n), t)
      case Some(e) => HasSameState(e, c) || e.time <= now
      case None => NotAfter(LastTime(m, calls, n, t), Some(if c.time == 0 then now else c.time))
  }

  predicate AllOrderly(m: EntryMap, calls: seq<Call>, n: nat, t: ConditionType)
    requires n <= |calls|
  {
    forall k | 0 <= k < n :: Orderly(m, calls, k, t)
  }

  ghost predicate NeverDecreases(m: EntryMap, calls: seq<Call>, n: nat, t: ConditionType)
    requires n <= |calls|
  {
    forall i, j | 0 <= i <= j <= n :: NotAfter(TimeOf(After(m, calls, i), t), TimeOf(After(m, calls, j), t))
  }

  // Over calls.

  /** One call is in order exactly if it does not leave `t` with a time before the last one. */
  lemma {:induction false} OrderlyMeansNotAfter(m: EntryMap, calls: seq<Call>, n: nat, t: ConditionType)
    requires n < |calls|
    ensures Orderly(m, calls, n, t) <==> NotAfter(LastTime(m, calls, n, t), TimeOf(After(m, calls, n + 1), t))
  {}

  predicate AtMost(a: Option<Time>, b: Option<Time>) {
    a.Some? ==> b.Some? && a.value <= b.value
  }

  lemma {:induction false} LastTimeIsGreatest(m: EntryMap, calls: seq<Call>, n: nat, i: nat, t: ConditionType)
    requires i <= n <= |calls| && NeverDecreases(m, calls, n, t)
    ensures AtMost(TimeOf(After(m, calls, i), t), LastTime(m, calls, n, t))
  {
    if TimeOf(After(m, calls, n), t).None? && i < n {
      LastTimeIsGreatest(m, calls, n - 1, i, t);
    }
  }

  lemma {:induction false} LastTimeOccurs(m: EntryMap, calls: seq<Call>, n: nat, t: ConditionType) returns (k: nat)
    requires n <= |calls|
    ensures k <= n && LastTime(m, calls, n, t) == TimeOf(After(m, calls, k), t)
  {
    k := n;
    if TimeOf(After(m, calls, n), t).None? && n > 0 {
      k := LastTimeOccurs(m, calls, n - 1, t);
    }
  }

  /** The times of a type never decrease along a run of calls if and only if every call is in order. */
  lemma {:induction false} NeverDecreasesIffOrderly(m: EntryMap, calls: seq<Call>, n: nat, t: ConditionType)
    requires n <= |calls|
    ensures NeverDecreases(m, calls, n, t) <==> AllOrderly(m, calls, n, t)
  {
    if n > 0 {
      var l := n - 1;
      NeverDecreasesIffOrderly(m, calls, l, t);
      OrderlyMeansNotAfter(m, calls, l, t);
      assert AllOrderly(m, calls, n, t) <==> AllOrderly(m, calls, l, t) && Orderly(m, calls, l, t);
      if NeverDecreases(m, calls, n, t) {
        var k := LastTimeOccurs(m, calls, l, t);
        assert NotAfter(TimeOf(After(m, calls, k), t), TimeOf(After(m, calls, n), t));
        assert NeverDecreases(m, calls, l, t);
      }
      if AllOrderly(m, calls, n, t) {
        forall i, j | 0 <= i <= j <= n ensures NotAfter(TimeOf(After(m, calls, i), t), TimeOf(After(m, calls, j), t)) {
          if i < j == n {
            LastTimeIsGreatest(m, calls, l, i, t);
          }
        }
      }
    }
  }

  // The calls of a history.

  /** The call that one operation comes down to: none if it is not reached, conflicts, or has nothing to do. */
  function CallOf(r: Outcome, k: nat, opts: ApplyOptions, now: Time): seq<Call>
    requires k < |r.ops|
  {
    var op := r.ops[k];
    var l := At(r.entries, op.Type());
    if !r.Ok() || Conflicts(op, l, opts) then []
    else if op.Remove? then [Erase(op.Type())]
    else if Writes(op, l, opts) then [SetTo(op.after, now)]
    else []
  }

  /** The calls of the first `n` operations of a merge. */
  function MergeCalls(m: EntryMap, ops: seq<Op>, n: nat, opts: ApplyOptions, clock: Clock): seq<Call>
    requires n <= |ops|
  {
    if n == 0 then [] else
      MergeCalls(m, ops, n - 1, opts, clock)
      + CallOf(ApplyFirst(m, ops, n - 1, opts, clock), n - 1, opts, clock(n - 1))
  }

  lemma {:induction false} AfterPrefix(m: EntryMap, a: seq<Call>, b: seq<Call>, n: nat)
    requires n <= |a|
    ensures After(m, a + b, n) == After(m, a, n)
  {
    if n > 0 {
      AfterPrefix(m, a, b, n - 1);
    }
  }

  lemma {:induction false} AfterConcat(m: EntryMap, a: seq<Call>, b: seq<Call>, n: nat)
    requires n <= |b|
    ensures After(m, a + b, |a| + n) == After(After(m, a, |a|), b, n)
  {
    if n == 0 {
      AfterPrefix(m, a, b, |a|);
    } else {
      AfterConcat(m, a, b, n - 1);
      assert (a + b)[|a| + n - 1] == b[n - 1];
    }
  }

  lemma {:induction false} StepIsItsCall(r: Outcome, k: nat, opts: ApplyOptions, now: Time)
    requires k < |r.ops|
    ensures var calls := CallOf(r, k, opts, now);
            After(r.entries, calls, |calls|) == ApplyStep(r, k, opts, now).entries
  {
    var calls := CallOf(r, k, opts, now);
    assert calls != [] ==> After(r.entries, calls, 1) == Effect(After(r.entries, calls, 0), calls[0]);
  }

  lemma {:induction false} OperationAwaitsItsTurn(
    m: EntryMap, ops: seq<Op>, n: nat, opts: ApplyOptions, clock: Clock, k: nat)
    requires n <= k < |ops|
    ensures ApplyFirst(m, ops, n, opts, clock).ops[k] == ops[k]
  {
    if n > 0 {
      OperationAwaitsItsTurn(m, ops, n - 1, opts, clock, k);
    }
  }

  lemma {:induction false} MergeIsItsCalls(m: EntryMap, ops: seq<Op>, n: nat, opts: ApplyOptions, clock: Clock)
    requires n <= |ops|
    ensures var calls := MergeCalls(m, ops, n, opts, clock);
            After(m, calls, |calls|) == ApplyFirst(m, ops, n, opts, clock).entries
  {
    if n > 0 {
      MergeIsItsCalls(m, ops, n - 1, opts, clock);
      var before, r := MergeCalls(m, ops, n - 1, opts, clock), ApplyFirst(m, ops, n - 1, opts, clock);
      OneMoreOperation(before, m, r, n - 1, opts, clock(n - 1));
    }
  }

  lemma {:induction false} OneMoreOperation(
    before: seq<Call>, m: EntryMap, r: Outcome, k: nat, opts: ApplyOptions, now: Time)
    requires k < |r.ops| && After(m, before, |before|) == r.entries
    ensures var calls := before + CallOf(r, k, opts, now);
            After(m, calls, |calls|) == ApplyStep(r, k, opts, now).entries
  {
    StepIsItsCall(r, k, opts, now);
    AfterConcat(m, before, CallOf(r, k, opts, now), |CallOf(r, k, opts, now)|);
  }

  /** What an event calls, on the list as it is. */
  ghost predicate Calls(s: seq<Condition>, h: Happening, fmt: Formatter, calls: seq<Call>) {
    match h.event
    case Drop(t) => calls == [Erase(t)]
    case Merge(ops, opts, clock) => calls == MergeCalls(Entries(s), ops, |ops|, opts, clock)
    case _ => exists c :: Sets(s, h.event, fmt, c) && calls == if c.None? then [] else [SetTo(c.value, h.now)]
  }

  ghost predicate AreCalls(
    lists: seq<seq<Condition>>, hs: seq<Happening>, fmt: Formatter, calls: seq<seq<Call>>, n: nat)
    requires |lists| == |hs| + 1
  {
    && |calls| == n <= |hs| && LeadAlong(lists, calls)
    && forall i | 0 <= i < n :: Calls(lists[i], hs[i], fmt, calls[i])
  }

  /** The calls lead from each list to the next. */
  predicate LeadAlong(lists: seq<seq<Condition>>, calls: seq<seq<Call>>)
    requires |lists| > |calls|
  {
    forall i | 0 <= i < |calls| :: Entries(lists[i + 1]) == After(Entries(lists[i]), calls[i], |calls[i]|)
  }

  lemma {:induction false} EventIsItsCalls(s: seq<Condition>, h: Happening, fmt: Formatter, s': seq<Condition>)
    returns (calls: seq<Call>)
    requires Happens(s, h, fmt, s')
    ensures Calls(s, h, fmt, calls) && Entries(s') == After(Entries(s), calls, |calls|)
  {
    match h.event {
      case Drop(t) =>
        calls := [Erase(t)];
        assert After(Entries(s), calls, 1) == Effect(After(Entries(s), calls, 0), calls[0]);
      case Merge(ops, opts, clock) =>
        calls := MergeCalls(Entries(s), ops, |ops|, opts, clock);
        MergeIsItsCalls(Entries(s), ops, |ops|, opts, clock);
      case _ =>
        var c :| Sets(s, h.event, fmt, c) && Entries(s') == Updated(Entries(s), c, h.now);
        calls := if c.None? then [] else [SetTo(c.value, h.now)];
        assert c.Some? ==> After(Entries(s), calls, 1) == Effect(After(Entries(s), calls, 0), calls[0]);
    }
  }

  lemma {:induction false} OneMoreLeads(lists: seq<seq<Condition>>, calls: seq<seq<Call>>, last: seq<Call>)
    requires |lists| > |calls| + 1 && LeadAlong(lists, calls)
    requires Entries(lists[|calls| + 1]) == After(Entries(lists[|calls|]), last, |last|)
    ensures LeadAlong(lists, calls + [last])
  {
    var all := calls + [last];
    forall i | 0 <= i < |all| ensures Entries(lists[i + 1]) == After(Entries(lists[i]), all[i], |all[i]|) {
      assert i < |calls| ==> all[i] == calls[i];
    }
  }

  lemma {:induction false} OneMoreEvent(
    lists: seq<seq<Condition>>, hs: seq<Happening>, fmt: Formatter, calls: seq<seq<Call>>, n: nat, last: seq<Call>)
    requires |lists| == |hs| + 1 && n < |hs| && AreCalls(lists, hs, fmt, calls, n)
    requires Calls(lists[n], hs[n], fmt, last) && Entries(lists[n + 1]) == After(Entries(lists[n]), last, |last|)
    ensures AreCalls(lists, hs, fmt, calls + [last], n + 1)
  {
    var all := calls + [last];
    OneMoreLeads(lists, calls, last);
    forall i | 0 <= i <= n ensures Calls(lists[i], hs[i], fmt, all[i]) {
      if i < n {
        assert all[i] == calls[i] && Calls(lists[i], hs[i], fmt, calls[i]);
      } else {
        assert all[i] == last;
      }
    }
  }

  /** Every history is a run of calls. */
  lemma {:induction false} HistoryHasCalls(lists: seq<seq<Condition>>, hs: seq<Happening>, fmt: Formatter, n: nat)
    returns (calls: seq<seq<Call>>)
    requires IsHistory(lists, hs, fmt) && n <= |hs|
    ensures AreCalls(lists, hs, fmt, calls, n)
  {
    calls := [];
    if n > 0 {
      calls := HistoryHasCalls(lists, hs, fmt, n - 1);
      var last := EventIsItsCalls(lists[n - 1], hs[n - 1], fmt, lists[n]);
      OneMoreEvent(lists, hs, fmt, calls, n - 1, last);
      calls := calls + [last];
    }
  }

  function Flat(calls: seq<seq<Call>>, n: nat): seq<Call>
    requires n <= |calls|
  {
    if n == 0 then [] else Flat(calls, n - 1) + calls[n - 1]
  }

  lemma {:induction false} FlatFollowsLists(lists: seq<seq<Condition>>, calls: seq<seq<Call>>, n: nat)
    requires |lists| > |calls| && LeadAlong(lists, calls) && n <= |calls|
    ensures After(Entries(lists[0]), Flat(calls, n), |Flat(calls, n)|) == Entries(lists[n])
  {
    if n > 0 {
      FlatFollowsLists(lists, calls, n - 1);
      AfterConcat(Entries(lists[0]), Flat(calls, n - 1), calls[n - 1], |calls[n - 1]|);
    }
  }

  /** Along every history, whatever is merged and mirrored in it: the times of a type never decrease from call to
      call if and only if every call that sets it is in order. */
  lemma {:induction false} CallTimesNeverDecreaseIff(
    lists: seq<seq<Condition>>, hs: seq<Happening>, fmt: Formatter, t: ConditionType)
    returns (calls: seq<seq<Call>>)
    requires IsHistory(lists, hs, fmt)
    ensures AreCalls(lists, hs, fmt, calls, |hs|)
    ensures var all := Flat(calls, |hs|);
            NeverDecreases(Entries(lists[0]), all, |all|, t) <==> AllOrderly(Entries(lists[0]), all, |all|, t)
  {
    calls := HistoryHasCalls(lists, hs, fmt, |hs|);
    var all := Flat(calls, |hs|);
    NeverDecreasesIffOrderly(Entries(lists[0]), all, |all|, t);
  }

  // Over the lists of a history.

  function TimeIn(lists: seq<seq<Condition>>, i: nat, t: ConditionType): Option<Time>
    requires i < |lists|
  {
    TimeOf(Entries(lists[i]), t)
  }

  ghost predicate ListsNeverDecrease(lists: seq<seq<Condition>>, n: nat, t: ConditionType)
    requires n < |lists|
  {
    forall i, j | 0 <= i <= j <= n :: NotAfter(TimeIn(lists, i, t), TimeIn(lists, j, t))
  }

  function LastTimeIn(lists: seq<seq<Condition>>, n: nat, t: ConditionType): Option<Time>
    requires n < |lists|
  {
    if TimeIn(lists, n, t).Some? || n == 0 then TimeIn(lists, n, t) else LastTimeIn(lists, n - 1, t)
  }

  lemma {:induction false} LastTimeInIsGreatest(lists: seq<seq<Condition>>, n: nat, i: nat, t: ConditionType)
    requires i <= n < |lists| && ListsNeverDecrease(lists, n, t)
    ensures AtMost(TimeIn(lists, i, t), LastTimeIn(lists, n, t))
  {
    if TimeIn(lists, n, t).None? && i < n {
      LastTimeInIsGreatest(lists, n - 1, i, t);
    }
  }

  lemma {:induction false} LastTimeInOccurs(lists: seq<seq<Condition>>, n: nat, t: ConditionType) returns (k: nat)
    requires n < |lists|
    ensures k <= n && LastTimeIn(lists, n, t) == TimeIn(lists, k, t)
  {
    k := n;
    if TimeIn(lists, n, t).None? && n > 0 {
      k := LastTimeInOccurs(lists, n - 1, t);
    }
  }

  lemma {:induction false} OneMoreList(lists: seq<seq<Condition>>, n: nat, t: ConditionType)
    requires n + 1 < |lists|
    ensures ListsNeverDecrease(lists, n + 1, t) <==>
            ListsNeverDecrease(lists, n, t) && NotAfter(LastTimeIn(lists, n, t), TimeIn(lists, n + 1, t))
  {
    if ListsNeverDecrease(lists, n + 1, t) {
      var k := LastTimeInOccurs(lists, n, t);
      assert NotAfter(TimeIn(lists, k, t), TimeIn(lists, n + 1, t));
    }
    if ListsNeverDecrease(lists, n, t) && NotAfter(LastTimeIn(lists, n, t), TimeIn(lists, n + 1, t)) {
      forall i, j | 0 <= i <= j <= n + 1 ensures NotAfter(TimeIn(lists, i, t), TimeIn(lists, j, t)) {
        if i < j == n + 1 {
          LastTimeInIsGreatest(lists, n, i, t);
        }
      }
    }
  }

  /** No list takes `t` back behind the last time it had. */
  predicate EachNotBehind(lists: seq<seq<Condition>>, n: nat, t: ConditionType)
    requires n < |lists|
  {
    forall k | 0 <= k < n :: NotAfter(LastTimeIn(lists, k, t), TimeIn(lists, k + 1, t))
  }

  lemma {:induction false} NeverDecreaseStepByStep(lists: seq<seq<Condition>>, n: nat, t: ConditionType)
    requires n < |lists|
    ensures ListsNeverDecrease(lists, n, t) <==> EachNotBehind(lists, n, t)
  {
    if n > 0 {
      NeverDecreaseStepByStep(lists, n - 1, t);
      OneMoreList(lists, n - 1, t);
    }
  }

  lemma {:induction false} OrderPrefix(m: EntryMap, a: seq<Call>, b: seq<Call>, n: nat, t: ConditionType)
    requires n <= |a|
    ensures After(m, a + b, n) == After(m, a, n) && LastTime(m, a + b, n, t) == LastTime(m, a, n, t)
    ensures AllOrderly(m, a + b, n, t) <==> AllOrderly(m, a, n, t)
  {
    AfterPrefix(m, a, b, n);
    if n > 0 {
      OrderPrefix(m, a, b, n - 1, t);
      AllOrderlySplits(m, a, n, t);
      AllOrderlySplits(m, a + b, n, t);
    }
  }

  lemma {:induction false} AllOrderlySplits(m: EntryMap, calls: seq<Call>, n: nat, t: ConditionType)
    requires 0 < n <= |calls|
    ensures AllOrderly(m, calls, n, t) <==> AllOrderly(m, calls, n - 1, t) && Orderly(m, calls, n - 1, t)
  {}

  predicate NoneAbout(calls: seq<Call>, t: ConditionType) {
    forall i | 0 <= i < |calls| :: calls[i].Type() != t
  }

  predicate AtMostOneAbout(calls: seq<Call>, t: ConditionType) {
    forall i, j | 0 <= i < j < |calls| :: calls[i].Type() != t || calls[j].Type() != t
  }

  lemma {:induction false} LastCall(m: EntryMap, a: seq<Call>, call: Call, t: ConditionType)
    ensures var b := a + [call];
            && After(m, b, |b|) == Effect(After(m, a, |a|), call)
            && LastTime(m, b, |a|, t) == LastTime(m, a, |a|, t)
            && (AllOrderly(m, b, |b|, t) <==>
                && AllOrderly(m, a, |a|, t)
                && NotAfter(LastTime(m, a, |a|, t), TimeOf(After(m, b, |b|), t)))
            && LastTime(m, b, |b|, t) ==
               (if TimeOf(After(m, b, |b|), t).Some? then TimeOf(After(m, b, |b|), t) else LastTime(m, a, |a|, t))
  {
    var b := a + [call];
    OrderPrefix(m, a, [call], |a|, t);
    AllOrderlySplits(m, b, |b|, t);
    OrderlyMeansNotAfter(m, b, |a|, t);
  }

  lemma {:induction false} OtherCallsDoNotMatter(m: EntryMap, a: seq<Call>, b: seq<Call>, t: ConditionType)
    requires NoneAbout(b, t)
    ensures TimeOf(After(m, a + b, |a + b|), t) == TimeOf(After(m, a, |a|), t)
    ensures LastTime(m, a + b, |a + b|, t) == LastTime(m, a, |a|, t)
    ensures AllOrderly(m, a + b, |a + b|, t) <==> AllOrderly(m, a, |a|, t)
  {
    if b == [] {
      assert a + b == a;
    } else {
      var n := |b| - 1;
      OtherCallsDoNotMatter(m, a, b[..n], t);
      assert a + b == (a + b[..n]) + [b[n]];
      LastCall(m, a + b[..n], b[n], t);
    }
  }

  /** Calls of which one at most is about `t` are in order exactly if together they do not take `t` back. */
  lemma {:induction false} OneCallDecides(m: EntryMap, a: seq<Call>, b: seq<Call>, t: ConditionType)
    requires AtMostOneAbout(b, t)
    ensures var all, time := a + b, TimeOf(After(m, a + b, |a + b|), t);
            && (AllOrderly(m, all, |all|, t) <==>
                AllOrderly(m, a, |a|, t) && NotAfter(LastTime(m, a, |a|, t), time))
            && LastTime(m, all, |all|, t) == if time.Some? then time else LastTime(m, a, |a|, t)
  {
    if b == [] {
      assert a + b == a;
    } else {
      var n := |b| - 1;
      assert a + b == (a + b[..n]) + [b[n]];
      LastCall(m, a + b[..n], b[n], t);
      if b[n].Type() == t {
        OtherCallsDoNotMatter(m, a, b[..n], t);
      } else {
        OneCallDecides(m, a, b[..n], t);
      }
    }
  }

  lemma {:induction false} CallIsAboutItsOperation(r: Outcome, k: nat, opts: ApplyOptions, now: Time)
    requires k < |r.ops|
    ensures |CallOf(r, k, opts, now)| <= 1
    ensures forall call | call in CallOf(r, k, opts, now) :: call.Type() == r.ops[k].Type()
  {}

  /** The types in the calls are those of the first `n` operations, each at most once. */
  predicate AreAbout(calls: seq<Call>, ops: seq<Op>, n: nat, t: ConditionType)
    requires n <= |ops|
  {
    AtMostOneAbout(calls, t) && (NoneAbout(calls, t) || TouchesFirst(ops, n, t))
  }

  lemma {:induction false} OneMoreIsAbout(calls: seq<Call>, last: seq<Call>, ops: seq<Op>, n: nat, t: ConditionType)
    requires n < |ops| && DistinctTypes(ops) && AreAbout(calls, ops, n, t)
    requires |last| <= 1 && forall call | call in last :: call.Type() == ops[n].Type()
    ensures AreAbout(calls + last, ops, n + 1, t)
  {
    if last != [] {
      assert last == [last[0]] && last[0] in last;
    }
  }

  lemma {:induction false} MergeCallsAreAboutTheirOperations(
    m: EntryMap, ops: seq<Op>, n: nat, opts: ApplyOptions, clock: Clock, t: ConditionType)
    requires n <= |ops| && DistinctTypes(ops)
    ensures AreAbout(MergeCalls(m, ops, n, opts, clock), ops, n, t)
  {
    if n > 0 {
      MergeCallsAreAboutTheirOperations(m, ops, n - 1, opts, clock, t);
      var r := ApplyFirst(m, ops, n - 1, opts, clock);
      OperationAwaitsItsTurn(m, ops, n - 1, opts, clock, n - 1);
      CallIsAboutItsOperation(r, n - 1, opts, clock(n - 1));
      OneMoreIsAbout(MergeCalls(m, ops, n - 1, opts, clock), CallOf(r, n - 1, opts, clock(n - 1)), ops, n - 1, t);
    }
  }

  /** The merges are of diffs, which have one operation for a type. */
  predicate MergesDiffs(hs: seq<Happening>) {
    forall i | 0 <= i < |hs| && hs[i].event.Merge? :: DistinctTypes(hs[i].event.ops)
  }

  lemma {:induction false} EventDecidesOnce(
    s: seq<Condition>, h: Happening, fmt: Formatter, calls: seq<Call>, t: ConditionType)
    requires Calls(s, h, fmt, calls) && (h.event.Merge? ==> DistinctTypes(h.event.ops))
    ensures AtMostOneAbout(calls, t)
  {
    if h.event.Merge? {
      MergeCallsAreAboutTheirOperations(Entries(s), h.event.ops, |h.event.ops|, h.event.opts, h.event.clock, t);
    }
  }

  lemma {:induction false} ListsFollowCalls(
    lists: seq<seq<Condition>>, calls: seq<seq<Call>>, n: nat, t: ConditionType)
    requires |lists| > |calls| && LeadAlong(lists, calls) && n <= |calls|
    requires forall i | 0 <= i < |calls| :: AtMostOneAbout(calls[i], t)
    ensures var m, all := Entries(lists[0]), Flat(calls, n);
            && LastTime(m, all, |all|, t) == LastTimeIn(lists, n, t)
            && (EachNotBehind(lists, n, t) <==> AllOrderly(m, all, |all|, t))
  {
    if n > 0 {
      ListsFollowCalls(lists, calls, n - 1, t);
      FlatFollowsLists(lists, calls, n);
      OneCallDecides(Entries(lists[0]), Flat(calls, n - 1), calls[n - 1], t);
    }
  }

  /** The exact condition for the transition time law, over every history of assignments, summaries, aggregates,
      mirrors, deletions and merges of diffs: the times of a type never decrease from list to list if and only if
      every call that sets it is in order. */
  lemma {:induction false} TimesNeverDecreaseIff(
    lists: seq<seq<Condition>>, hs: seq<Happening>, fmt: Formatter, t: ConditionType)
    returns (calls: seq<seq<Call>>)
    requires IsHistory(lists, hs, fmt) && MergesDiffs(hs)
    ensures AreCalls(lists, hs, fmt, calls, |hs|)
    ensures var all := Flat(calls, |hs|);
            ListsNeverDecrease(lists, |hs|, t) <==> AllOrderly(Entries(lists[0]), all, |all|, t)
  {
    calls := HistoryHasCalls(lists, hs, fmt, |hs|);
    EventsDecideOnce(lists, hs, fmt, calls, t);
    ListsFollowCalls(lists, calls, |hs|, t);
    NeverDecreaseStepByStep(lists, |hs|, t);
  }

  lemma {:induction false} EventsDecideOnce(
    lists: seq<seq<Condition>>, hs: seq<Happening>, fmt: Formatter, calls: seq<seq<Call>>, t: ConditionType)
    requires |lists| == |hs| + 1 && AreCalls(lists, hs, fmt, calls, |hs|) && MergesDiffs(hs)
    ensures forall i | 0 <= i < |calls| :: AtMostOneAbout(calls[i], t)
  {
    forall i | 0 <= i < |calls| ensures AtMostOneAbout(calls[i], t) {
      EventDecidesOnce(lists[i], hs[i], fmt, calls[i], t);
    }
  }
}
