/** Whole histories of a condition list: any run of the operations the package offers. */
module Histories {
  import opened Api
  import opened Ordering
  import opened Store
  import opened MergePatch
  import opened Groups
  import opened Summary

  /** One call. Every event but Drop and Merge sets one condition, or none if it has nothing to set: Assign is
      Set itself and the three Mark functions, the next three are SetSummary, SetAggregate and SetMirror. */
  datatype Event =
    | Assign(condition: Option<Condition>)
    | Summarise(name: Source, scope: seq<MergeOption>)
    | Combined(objects: seq<Dependent>, target: ConditionType, scope: seq<MergeOption>)
    | Mirrored(other: seq<Condition>, target: ConditionType, fallbacks: seq<Fallback>)
    | Drop(typ: ConditionType)
    | Merge(ops: seq<Op>, opts: ApplyOptions, clock: Clock)

  /** An event and the time at which it sets its condition. */
  datatype Happening = Happening(event: Event, now: Time)

  /** Setting, on the map that the list stands for: one entry is replaced, every other is left as it is. */
  function Updated(m: EntryMap, c: Option<Condition>, now: Time): EntryMap {
    if c.None? then m else m[c.value.typ := Stamp(c.value, At(m, c.value.typ), now)]
  }

  function AggregateOptions(event: Event): MergeOptions
    requires event.Combined?
  {
    SetOptions(DEFAULT_OPTIONS.(addStepCounter := true, stepCounter := |event.objects|), event.scope)
  }

  /** The conditions that an event may set. */
  ghost predicate Sets(s: seq<Condition>, event: Event, fmt: Formatter, c: Option<Condition>) {
    match event
    case Assign(condition) => c == condition
    case Summarise(name, scope) =>
      var o := SetOptions(DEFAULT_OPTIONS, scope);
      MergesInto(Scope(s, name, o), READY, WithCounter(o, Scope(s, name, o)), fmt, c)
    case Combined(objects, target, _) =>
      MergesInto(NonNil(ReadyOf(objects)), target, AggregateOptions(event), fmt, c)
    case Mirrored(other, target, fallbacks) =>
      c == if READY in Entries(other)
           then Some(Condition(target, Entries(other)[READY].state, Entries(other)[READY].time))
           else FallbackOf(fallbacks, target, fmt)
    case _ => false
  }

  /** What an event does to the list. */
  ghost predicate Happens(s: seq<Condition>, h: Happening, fmt: Formatter, s': seq<Condition>) {
    && Canonical(s')
    && match h.event
       case Drop(t) => Entries(s') == Entries(s) - {t}
       case Merge(ops, opts, clock) => Entries(s') == ApplySpec(Entries(s), ops, opts, clock).entries
       case _ => exists c :: Sets(s, h.event, fmt, c) && Entries(s') == Updated(Entries(s), c, h.now)
  }

  /** The lists before and after each of the first `n` events. */
  ghost predicate IsHistoryOf(lists: seq<seq<Condition>>, hs: seq<Happening>, n: nat, fmt: Formatter)
    requires n <= |hs|
  {
    && |lists| == n + 1
    && Canonical(lists[0])
    && forall i | 0 <= i < n :: Happens(lists[i], hs[i], fmt, lists[i + 1])
  }

  ghost predicate IsHistory(lists: seq<seq<Condition>>, hs: seq<Happening>, fmt: Formatter) {
    IsHistoryOf(lists, hs, |hs|, fmt)
  }

  // The operations produce such histories.

  method SetSummary(to: Object, name: Source, options: seq<MergeOption>, fmt: Formatter, now: Time)
    returns (c: Option<Condition>)
    modifies to
    ensures Sets(old(to.conditions), Summarise(name, options), fmt, c)
    ensures IsSet(old(to.conditions), c, now, to.conditions)
  {
    c := Summarize(to, name, options, fmt);
    var _ := to.Set(c, now);
  }

  method SetAggregate(
    to: Object, target: ConditionType, from: seq<Dependent>, options: seq<MergeOption>, fmt: Formatter, now: Time)
    returns (c: Option<Condition>)
    modifies to
    ensures Sets(old(to.conditions), Combined(from, target, options), fmt, c)
    ensures IsSet(old(to.conditions), c, now, to.conditions)
  {
    c := Aggregate(from, target, options, fmt);
    var _ := to.Set(c, now);
  }

  method SetMirror(
    to: Object, target: ConditionType, from: Object, options: seq<Fallback>, fmt: Formatter, now: Time)
    returns (c: Option<Condition>)
    modifies to
    ensures Sets(old(to.conditions), Mirrored(old(from.conditions), target, options), fmt, c)
    ensures IsSet(old(to.conditions), c, now, to.conditions)
  {
    c := Mirror(from, target, options, fmt);
    var _ := to.Set(c, now);
  }

  method SetSome(to: Object, h: Happening, fmt: Formatter)
    requires Canonical(to.conditions) && !h.event.Drop? && !h.event.Merge?
    modifies to
    ensures Happens(old(to.conditions), h, fmt, to.conditions)
  {
    var c;
    CanonicalIsUnique(to.conditions);
    match h.event {
      case Assign(condition) =>
        c := condition;
        var _ := to.Set(condition, h.now);
      case Summarise(name, scope) =>
        c := SetSummary(to, name, scope, fmt, h.now);
      case Combined(objects, target, scope) =>
        c := SetAggregate(to, target, objects, scope, fmt, h.now);
      case Mirrored(other, target, fallbacks) =>
        var from := new Object(other);
        c := SetMirror(to, target, from, fallbacks, fmt, h.now);
    }
    assert Sets(old(to.conditions), h.event, fmt, c);
  }

  method Perform(to: Object, h: Happening, fmt: Formatter)
    requires Canonical(to.conditions)
    modifies to
    ensures Happens(old(to.conditions), h, fmt, to.conditions)
  {
    match h.event {
      case Drop(t) =>
        to.Delete(t);
      case Merge(ops, opts, clock) =>
        CanonicalIsUnique(to.conditions);
        var patch := new Patch(ops);
        var _ := patch.Apply(to, opts, clock);
      case _ =>
        SetSome(to, h, fmt);
    }
  }

  /** Whatever is called, in whatever order, the list stays in canonical order with no type twice, and every
      call is a map update; `lists` are the lists along the way. */
  method Play(to: Object, hs: seq<Happening>, fmt: Formatter) returns (ghost lists: seq<seq<Condition>>)
    requires Canonical(to.conditions)
    modifies to
    ensures IsHistory(lists, hs, fmt)
    ensures lists[0] == old(to.conditions) && lists[|hs|] == to.conditions
  {
    lists := [to.conditions];
    for i := 0 to |hs|
      invariant IsHistoryOf(lists, hs, i, fmt) && Canonical(to.conditions)
      invariant lists[0] == old(to.conditions) && lists[i] == to.conditions
    {
      Perform(to, hs[i], fmt);
      HistoryGrows(lists, hs, i, fmt, to.conditions);
      lists := lists + [to.conditions];
    }
  }

  lemma {:induction false} HistoryGrows(
    lists: seq<seq<Condition>>, hs: seq<Happening>, n: nat, fmt: Formatter, s: seq<Condition>)
    requires n < |hs| && IsHistoryOf(lists, hs, n, fmt) && Happens(lists[n], hs[n], fmt, s)
    ensures IsHistoryOf(lists + [s], hs, n + 1, fmt)
  {
    var all := lists + [s];
    forall i | 0 <= i <= n ensures Happens(all[i], hs[i], fmt, all[i + 1]) {
      assert i < n ==> Happens(lists[i], hs[i], fmt, lists[i + 1]);
    }
  }

  // The transition times along a history.

  /** The event sets conditions without a transition time of their own, as the constructors build them. A mirror
      that finds a Ready condition does not, and neither does a merge. */
  predicate Untimed(event: Event) {
    match event
    case Assign(condition) => condition.Some? ==> condition.value.time == 0
    case Mirrored(other, _, _) => READY !in Entries(other)
    case Merge(_, _, _) => false
    case _ => true
  }

  predicate AllUntimed(hs: seq<Happening>) {
    forall i | 0 <= i < |hs| :: Untimed(hs[i].event)
  }

  /** The time of an entry moves only when its state does, and then to now. */
  ghost predicate Dated(m: EntryMap, m': EntryMap, now: Time) {
    forall t | t in m' ::
      if SameState(At(m, t), At(m', t)) then At(m, t) == At(m', t) else m'[t].time == now
  }

  lemma {:induction false} MergesAreUntimed(
    xs: seq<Located>, target: ConditionType, o: MergeOptions, fmt: Formatter, r: Option<Condition>)
    requires MergesInto(xs, target, o, fmt, r)
    ensures r.Some? ==> r.value.time == 0
  {}

  lemma {:induction false} UntimedSetsAreUntimed(s: seq<Condition>, event: Event, fmt: Formatter, c: Option<Condition>)
    requires Sets(s, event, fmt, c) && Untimed(event)
    ensures c.Some? ==> c.value.time == 0
  {
    match event {
      case Summarise(name, scope) =>
        var o := SetOptions(DEFAULT_OPTIONS, scope);
        MergesAreUntimed(Scope(s, name, o), READY, WithCounter(o, Scope(s, name, o)), fmt, c);
      case Combined(objects, target, _) =>
        MergesAreUntimed(NonNil(ReadyOf(objects)), target, AggregateOptions(event), fmt, c);
      case _ =>
    }
  }

  lemma {:induction false} UpdateIsDated(m: EntryMap, c: Option<Condition>, now: Time)
    requires c.Some? ==> c.value.time == 0
    ensures Dated(m, Updated(m, c, now), now)
  {}

  lemma {:induction false} UntimedEventIsDated(s: seq<Condition>, h: Happening, fmt: Formatter, s': seq<Condition>)
    requires Happens(s, h, fmt, s') && Untimed(h.event)
    ensures Dated(Entries(s), Entries(s'), h.now)
  {
    if !h.event.Drop? {
      var c :| Sets(s, h.event, fmt, c) && Entries(s') == Updated(Entries(s), c, h.now);
      UntimedSetsAreUntimed(s, h.event, fmt, c);
      UpdateIsDated(Entries(s), c, h.now);
    }
  }

  function EntryAt(lists: seq<seq<Condition>>, i: nat, t: ConditionType): Option<Condition>
    requires i < |lists|
  {
    At(Entries(lists[i]), t)
  }

  /** The entry for `t` in list `j` has been there, bit for bit, since list `k`, and not longer: the call that
      led to list `k` added it or changed its state, and left its own time in it. */
  ghost predicate SetAt(lists: seq<seq<Condition>>, hs: seq<Happening>, t: ConditionType, j: nat, k: nat)
    requires k <= j < |lists| == |hs| + 1
  {
    && (forall i | k <= i <= j :: EntryAt(lists, i, t) == EntryAt(lists, j, t))
    && (k > 0 ==>
          && !SameState(EntryAt(lists, k - 1, t), EntryAt(lists, j, t))
          && EntryAt(lists, j, t).Some? && EntryAt(lists, j, t).value.time == hs[k - 1].now)
  }

  ghost predicate AllDated(lists: seq<seq<Condition>>, hs: seq<Happening>) {
    && |lists| == |hs| + 1
    && forall i | 0 <= i < |hs| :: Dated(Entries(lists[i]), Entries(lists[i + 1]), hs[i].now)
  }

  lemma {:induction false} UntimedHistoryIsDated(lists: seq<seq<Condition>>, hs: seq<Happening>, fmt: Formatter)
    requires IsHistory(lists, hs, fmt) && AllUntimed(hs)
    ensures AllDated(lists, hs)
  {
    forall i | 0 <= i < |hs| ensures Dated(Entries(lists[i]), Entries(lists[i + 1]), hs[i].now) {
      UntimedEventIsDated(lists[i], hs[i], fmt, lists[i + 1]);
    }
  }

  lemma {:induction false} DatedTimeIsLastTransition(
    lists: seq<seq<Condition>>, hs: seq<Happening>, t: ConditionType, j: nat) returns (k: nat)
    requires AllDated(lists, hs) && j < |lists| && EntryAt(lists, j, t).Some?
    ensures k <= j && SetAt(lists, hs, t, j, k)
  {
    k := j;
    if j > 0 && SameState(EntryAt(lists, j - 1, t), EntryAt(lists, j, t)) {
      k := DatedTimeIsLastTransition(lists, hs, t, j - 1);
    }
  }

  /** So a transition time is always the time of the last call that changed the state or added the condition. */
  lemma {:induction false} TimeIsLastTransition(
    lists: seq<seq<Condition>>, hs: seq<Happening>, fmt: Formatter, t: ConditionType, j: nat) returns (k: nat)
    requires IsHistory(lists, hs, fmt) && AllUntimed(hs) && j < |lists|
    requires EntryAt(lists, j, t).Some?
    ensures k <= j && SetAt(lists, hs, t, j, k)
  {
    UntimedHistoryIsDated(lists, hs, fmt);
    k := DatedTimeIsLastTransition(lists, hs, t, j);
  }

  /** The clock never goes back, and starts no earlier than the times already in the list. */
  predicate ClockRuns(start: EntryMap, hs: seq<Happening>) {
    && (forall i, j | 0 <= i <= j < |hs| :: hs[i].now <= hs[j].now)
    && forall t, i | t in start && 0 <= i < |hs| :: start[t].time <= hs[i].now
  }

  /** Times never decrease, across deletions too. */
  lemma {:induction false} TimesNeverDecrease(
    lists: seq<seq<Condition>>, hs: seq<Happening>, fmt: Formatter, t: ConditionType, i: nat, j: nat)
    requires IsHistory(lists, hs, fmt) && AllUntimed(hs) && ClockRuns(Entries(lists[0]), hs)
    requires i <= j < |lists| && EntryAt(lists, i, t).Some? && EntryAt(lists, j, t).Some?
    ensures EntryAt(lists, i, t).value.time <= EntryAt(lists, j, t).value.time
  {
    var ki := TimeIsLastTransition(lists, hs, fmt, t, i);
    var kj := TimeIsLastTransition(lists, hs, fmt, t, j);
    if kj > i {
      if ki == 0 {
        assert EntryAt(lists, 0, t) == EntryAt(lists, i, t);
      } else {
        assert hs[ki - 1].now <= hs[kj - 1].now;
      }
    }
  }

  /** Conditions that bring a time of their own are another matter: an entry deleted and set again at once keeps its
      time from going back exactly when the time the new condition brings, or now if it brings none, is not before
      the old one. */
  lemma {:induction false} ReAddedTimeIff(m: EntryMap, c: Condition, now: Time)
    requires c.typ in m
    ensures Updated(m - {c.typ}, Some(c), now)[c.typ].time >= m[c.typ].time <==>
            (if c.time == 0 then now else c.time) >= m[c.typ].time
  {}

  /** A mirror brings a time: that of the object it mirrors. It can lie before the time the type had last. */
  lemma {:induction false} MirrorCanTurnBackTime(t: ConditionType, fmt: Formatter)
    returns (lists: seq<seq<Condition>>, hs: seq<Happening>)
    ensures IsHistory(lists, hs, fmt) && ClockRuns(Entries(lists[0]), hs) && |hs| == 2
    ensures EntryAt(lists, 0, t).Some? && EntryAt(lists, 2, t).Some?
    ensures EntryAt(lists, 2, t).value.time < EntryAt(lists, 0, t).value.time
  {
    var old', ready := TrueCondition(t).(time := 20), TrueCondition(READY).(time := 10);
    var mirrored := ready.(typ := t);
    lists := [[old'], [], [mirrored]];
    hs := [Happening(Drop(t), 30), Happening(Mirrored([ready], t, []), 40)];
    SingleEntry(old');
    SingleEntry(mirrored);
    SingleEntry(ready);
    assert Entries([old']) - {t} == map[] == Entries([]);
    assert Happens(lists[0], hs[0], fmt, lists[1]);
    assert Sets([], hs[1].event, fmt, Some(mirrored));
    assert Entries([mirrored]) == Updated(Entries([]), Some(mirrored), 40);
    assert Happens(lists[1], hs[1], fmt, lists[2]);
  }

  /** Or it can lie ahead of the clock, and then the next change of state goes back, without any deletion. */
  lemma {:induction false} ChangeAfterMirrorCanTurnBackTime(t: ConditionType, fmt: Formatter)
    returns (lists: seq<seq<Condition>>, hs: seq<Happening>)
    ensures IsHistory(lists, hs, fmt) && ClockRuns(Entries(lists[0]), hs) && |hs| == 2
    ensures forall h | h in hs :: !h.event.Drop? && !h.event.Merge?
    ensures EntryAt(lists, 1, t).Some? && EntryAt(lists, 2, t).Some?
    ensures EntryAt(lists, 2, t).value.time < EntryAt(lists, 1, t).value.time
  {
    var ready, f := TrueCondition(READY).(time := 100), FalseCondition(t, "", SeverityError, "");
    var mirrored := ready.(typ := t);
    lists := [[], [mirrored], [f.(time := 50)]];
    hs := [Happening(Mirrored([ready], t, []), 40), Happening(Assign(Some(f)), 50)];
    SingleEntry(ready);
    SingleEntry(mirrored);
    SingleEntry(f.(time := 50));
    assert Sets([], hs[0].event, fmt, Some(mirrored));
    assert Entries([mirrored]) == Updated(Entries([]), Some(mirrored), 40);
    assert Happens(lists[0], hs[0], fmt, lists[1]);
    assert Sets(lists[1], hs[1].event, fmt, Some(f));
    assert Entries(lists[2]) == Updated(Entries(lists[1]), Some(f), 50);
    assert Happens(lists[1], hs[1], fmt, lists[2]);
  }
}
