/** What the diff and its three-way merge promise. */
module MergeLaws {
  import opened Api
  import opened Ordering
  import opened Store
  import opened MergePatch

  ghost predicate SameStates(m: EntryMap, n: EntryMap) {
    forall t :: SameState(At(m, t), At(n, t))
  }

  /** A successful application, seen at one type. */
  lemma {:induction false} ApplyAt(
    m: EntryMap, ops: seq<Op>, opts: ApplyOptions, clock: Clock, t: ConditionType) returns (k: nat)
    requires Keyed(m) && DistinctTypes(ops) && ApplySpec(m, ops, opts, clock).Ok()
    ensures var r := ApplySpec(m, ops, opts, clock);
            if Touches(ops, t) then
              && k < |ops| && ops[k].Type() == t
              && !Conflicts(ops[k], At(m, t), opts)
              && At(r.entries, t) == Merged(ops[k], At(m, t), clock(k))
              && r.ops[k] == Stamped(ops[k], At(m, t), opts, clock(k))
            else
              At(r.entries, t) == At(m, t)
  {
    k := 0;
    if Touches(ops, t) {
      k :| 0 <= k < |ops| && ops[k].Type() == t;
      SucceedsIffNoneConflicts(m, ops, |ops|, opts, clock);
      ApplyIsPointwise(m, ops, |ops|, opts, clock, k);
    } else {
      ApplyFrame(m, ops, |ops|, opts, clock);
    }
  }

  // The three-way table, entry by entry: b before, a after, l latest.

  /** The entry on the server already says what the controller wants. */
  predicate Agrees(a: Option<Condition>, l: Option<Condition>) {
    SameState(l, a)
  }

  /** Nobody touched the entry meanwhile. A deletion forgives a changed timestamp, a change does not. */
  predicate Untouched(b: Option<Condition>, a: Option<Condition>, l: Option<Condition>) {
    if a.None? then SameState(l, b) else l == b
  }

  predicate ThreeWayConflict(
    b: Option<Condition>, a: Option<Condition>, l: Option<Condition>, overrides: bool)
  {
    b != a && !overrides && !Agrees(a, l) && !Untouched(b, a, l)
  }

  function ThreeWayValue(
    b: Option<Condition>, a: Option<Condition>, l: Option<Condition>, now: Time): Option<Condition>
  {
    if b == a then l
    else if a.None? then None
    else if Agrees(a, l) then l
    else Some(a.value.(time := if l.None? && a.value.time != 0 then a.value.time else now))
  }

  lemma {:induction false} OpForFollowsTable(
    b: Option<Condition>, a: Option<Condition>, l: Option<Condition>, op: Op, opts: ApplyOptions, now: Time)
    requires OpFor(b, a) == Some(op)
    ensures Conflicts(op, l, opts) <==> ThreeWayConflict(b, a, l, opts.Overrides(op.Type()))
    ensures Merged(op, l, now) == ThreeWayValue(b, a, l, now)
  {}

  /** The merge fails exactly when some type conflicts in the three-way table... */
  lemma {:induction false} MergeSucceedsIffTableHasNoConflict(
    before: seq<Condition>, after: seq<Condition>, latest: EntryMap, opts: ApplyOptions, clock: Clock)
    requires Unique(before) && Unique(after) && Keyed(latest)
    ensures ApplySpec(latest, Diff(before, after), opts, clock).Ok() <==>
            forall t :: !ThreeWayConflict(At(Entries(before), t), At(Entries(after), t), At(latest, t),
                                          opts.force || t in opts.owned)
  {
    var ops := Diff(before, after);
    DiffIsPointwise(before, after);
    SucceedsIffNoneConflicts(latest, ops, |ops|, opts, clock);
    forall t ensures ThreeWayConflict(At(Entries(before), t), At(Entries(after), t), At(latest, t),
                                      opts.force || t in opts.owned) <==>
                     exists k :: 0 <= k < |ops| && ops[k].Type() == t && Conflicts(ops[k], At(latest, t), opts)
    {
      ConflictAtType(before, after, latest, opts, t);
    }
  }

  /** The diff at one type. */
  lemma {:induction false} DiffAt(before: seq<Condition>, after: seq<Condition>, t: ConditionType)
    requires Unique(before) && Unique(after)
    ensures var ops, b, a := Diff(before, after), At(Entries(before), t), At(Entries(after), t);
            && (Touches(ops, t) <==> b != a)
            && forall k | 0 <= k < |ops| && ops[k].Type() == t :: OpFor(b, a) == Some(ops[k])
  {
    var ops, b, a := Diff(before, after), At(Entries(before), t), At(Entries(after), t);
    DiffIsPointwise(before, after);
    assert forall k | 0 <= k < |ops| :: ops[k] in ops;
    if b != a {
      assert OpFor(b, a).value in ops;
    }
  }

  lemma {:induction false} ConflictAtType(
    before: seq<Condition>, after: seq<Condition>, latest: EntryMap, opts: ApplyOptions, t: ConditionType)
    requires Unique(before) && Unique(after)
    ensures var ops := Diff(before, after);
            ThreeWayConflict(At(Entries(before), t), At(Entries(after), t), At(latest, t),
                             opts.force || t in opts.owned) <==>
            exists k :: 0 <= k < |ops| && ops[k].Type() == t && Conflicts(ops[k], At(latest, t), opts)
  {
    var ops, b, a := Diff(before, after), At(Entries(before), t), At(Entries(after), t);
    DiffAt(before, after, t);
    if Touches(ops, t) {
      var k :| 0 <= k < |ops| && ops[k].Type() == t;
      OpForFollowsTable(b, a, At(latest, t), ops[k], opts, 0);
    }
  }

  /** A type that is reported does conflict in the table, and so it is neither owned nor forced. */
  lemma {:induction false} ReportedTypeConflicts(
    before: seq<Condition>, after: seq<Condition>, latest: EntryMap, opts: ApplyOptions, clock: Clock, t: ConditionType)
    requires Unique(before) && Unique(after) && Keyed(latest)
    requires ApplySpec(latest, Diff(before, after), opts, clock).conflict == Some(t)
    ensures !opts.force && t !in opts.owned
    ensures ThreeWayConflict(At(Entries(before), t), At(Entries(after), t), At(latest, t), false)
  {
    DiffTypesAreDistinct(before, after);
    var ops := Diff(before, after);
    var k := ReportsFirstConflict(latest, ops, |ops|, opts, clock, t);
    ConflictAtType(before, after, latest, opts, t);
  }

  /** The entry of `merged` is the one in the table, for some reading of the clock. */
  ghost predicate InTable(
    before: EntryMap, after: EntryMap, latest: EntryMap, merged: EntryMap, clock: Clock, t: ConditionType)
  {
    exists k: nat :: At(merged, t) == ThreeWayValue(At(before, t), At(after, t), At(latest, t), clock(k))
  }

  /** ... and when it succeeds, every entry is the one in the table. */
  lemma {:induction false} MergeFollowsTable(
    before: seq<Condition>, after: seq<Condition>, latest: EntryMap, opts: ApplyOptions, clock: Clock)
    requires Unique(before) && Unique(after) && Keyed(latest)
    requires ApplySpec(latest, Diff(before, after), opts, clock).Ok()
    ensures forall t :: InTable(Entries(before), Entries(after), latest,
                                ApplySpec(latest, Diff(before, after), opts, clock).entries, clock, t)
  {
    var ops := Diff(before, after);
    var r := ApplySpec(latest, ops, opts, clock);
    DiffTypesAreDistinct(before, after);
    forall t ensures InTable(Entries(before), Entries(after), latest, r.entries, clock, t) {
      var b, a := At(Entries(before), t), At(Entries(after), t);
      var k := ApplyAt(latest, ops, opts, clock, t);
      DiffAt(before, after, t);
      if Touches(ops, t) {
        OpForFollowsTable(b, a, At(latest, t), ops[k], opts, clock(k));
      }
      assert At(r.entries, t) == ThreeWayValue(b, a, At(latest, t), clock(k));
    }
  }

  /** Where the controller owns a type, or forces, and changed anything, its state wins whatever happened meanwhile. */
  lemma {:induction false} OwnedAlwaysWins(
    before: seq<Condition>, after: seq<Condition>, latest: EntryMap, opts: ApplyOptions, clock: Clock, t: ConditionType)
    requires Unique(before) && Unique(after) && Keyed(latest)
    requires ApplySpec(latest, Diff(before, after), opts, clock).Ok()
    requires opts.force || t in opts.owned
    ensures var r := At(ApplySpec(latest, Diff(before, after), opts, clock).entries, t);
            var b, a := At(Entries(before), t), At(Entries(after), t);
            if b != a then SameState(r, a) else r == At(latest, t)
  {
    MergeFollowsTable(before, after, latest, opts, clock);
    var b, a := At(Entries(before), t), At(Entries(after), t);
    var r := ApplySpec(latest, Diff(before, after), opts, clock).entries;
    assert InTable(Entries(before), Entries(after), latest, r, clock, t);
  }

  /** With force, or with everything owned, nothing can conflict. */
  lemma {:induction false} ForceNeverConflicts(m: EntryMap, ops: seq<Op>, opts: ApplyOptions, clock: Clock)
    requires Keyed(m) && DistinctTypes(ops)
    requires opts.force || forall k | 0 <= k < |ops| :: ops[k].Type() in opts.owned
    ensures ApplySpec(m, ops, opts, clock).Ok()
  {
    SucceedsIffNoneConflicts(m, ops, |ops|, opts, clock);
  }

  /** Applying a diff to the list it was taken from succeeds, without any ownership too, and gives the target up
      to timestamps; what did not change state keeps its timestamp. */
  lemma {:induction false} DiffApplyRoundTrip(
    before: seq<Condition>, after: seq<Condition>, opts: ApplyOptions, clock: Clock)
    requires Unique(before) && Unique(after)
    ensures var r := ApplySpec(Entries(before), Diff(before, after), opts, clock);
            && r.Ok()
            && SameStates(r.entries, Entries(after))
            && forall t | SameState(At(Entries(before), t), At(Entries(after), t)) ::
                 At(r.entries, t) == At(Entries(before), t)
  {
    var m := Entries(before);
    MergeSucceedsIffTableHasNoConflict(before, after, m, opts, clock);
    MergeFollowsTable(before, after, m, opts, clock);
    var r := ApplySpec(m, Diff(before, after), opts, clock).entries;
    forall t ensures SameState(At(r, t), At(Entries(after), t))
             ensures SameState(At(m, t), At(Entries(after), t)) ==> At(r, t) == At(m, t)
    {
      assert InTable(m, Entries(after), m, r, clock, t);
    }
  }

  lemma {:induction false} SameStatesSameKeys(m: EntryMap, n: EntryMap)
    requires SameStates(m, n)
    ensures m.Keys == n.Keys
  {
    forall t ensures t in m <==> t in n {
      assert SameState(At(m, t), At(n, t));
    }
  }

  /** The same conditions in the same order, up to timestamps. */
  predicate SameLists(x: seq<Condition>, y: seq<Condition>) {
    |x| == |y| && forall i | 0 <= i < |x| :: HasSameState(x[i], y[i])
  }

  /** Canonical lists that agree up to timestamps as maps agree up to timestamps position by position. */
  lemma {:induction false} SameStatesAsLists(x: seq<Condition>, y: seq<Condition>)
    requires Canonical(x) && Canonical(y) && SameStates(Entries(x), Entries(y))
    ensures SameLists(x, y)
    decreases |x|
  {
    var m, n := Entries(x), Entries(y);
    SameStatesSameKeys(m, n);
    SameKeysSameHead(x, y);
    if x != [] {
      var t := x[0].typ;
      assert Entries(x[1..]) == m - {t} && Entries(y[1..]) == n - {t};
      assert SameState(At(m, t), At(n, t));
      forall u ensures SameState(At(m - {t}, u), At(n - {t}, u)) {
        assert SameState(At(m, u), At(n, u));
      }
      SameStatesAsLists(x[1..], y[1..]);
    }
  }

  /** The round trip on lists: what is published is the target list, sorted, up to timestamps. The target itself
      need not be sorted, although the diff then lists its operations in another order. */
  lemma {:induction false} RoundTripOnLists(
    before: seq<Condition>, after: seq<Condition>, sorted: seq<Condition>, published: seq<Condition>,
    opts: ApplyOptions, clock: Clock)
    requires Unique(before) && Unique(after) && Canonical(published)
    requires Ordered(sorted) && multiset(sorted) == multiset(after)
    requires Entries(published) == ApplySpec(Entries(before), Diff(before, after), opts, clock).entries
    ensures SameLists(published, sorted)
  {
    SortIsDetermined(after, sorted, sorted);
    DiffApplyRoundTrip(before, after, opts, clock);
    SameStatesAsLists(published, sorted);
  }

  // Applying twice.

  lemma {:induction false} SettledOperation(op: Op, l: Option<Condition>, opts: ApplyOptions, now: Time, later: Time)
    requires !Conflicts(op, l, opts) && (l.Some? ==> l.value.typ == op.Type())
    ensures var l', op' := Merged(op, l, now), Stamped(op, l, opts, now);
            && op'.Type() == op.Type()
            && !Conflicts(op', l', opts)
            && Merged(op', l', later) == l'
            && Stamped(op', l', opts, later) == op'
  {}

  lemma {:induction false} ApplyAgain(
    m: EntryMap, ops: seq<Op>, opts: ApplyOptions, clock: Clock, later: Clock, n: nat)
    requires Keyed(m) && DistinctTypes(ops) && n <= |ops|
    requires ApplySpec(m, ops, opts, clock).Ok()
    ensures var r := ApplySpec(m, ops, opts, clock);
            ApplyFirst(r.entries, r.ops, n, opts, later) == r
  {
    if n > 0 {
      var r := ApplySpec(m, ops, opts, clock);
      ApplyAgain(m, ops, opts, clock, later, n - 1);
      SucceedsIffNoneConflicts(m, ops, |ops|, opts, clock);
      ApplyIsPointwise(m, ops, |ops|, opts, clock, n - 1);
      SettledOperation(ops[n - 1], At(m, ops[n - 1].Type()), opts, clock(n - 1), later(n - 1));
      StepThatSettles(r, n - 1, opts, later(n - 1));
    }
  }

  lemma {:induction false} StepThatSettles(r: Outcome, k: nat, opts: ApplyOptions, now: Time)
    requires k < |r.ops| && r.Ok()
    requires var l := At(r.entries, r.ops[k].Type());
             && !Conflicts(r.ops[k], l, opts)
             && Merged(r.ops[k], l, now) == l
             && Stamped(r.ops[k], l, opts, now) == r.ops[k]
    ensures ApplyStep(r, k, opts, now) == r
  {
    var op := r.ops[k];
    assert r.ops[k := op] == r.ops;
    assert ApplyOne(r.entries, op, opts, now) == r.entries;
  }

  /** A merged diff is settled: merging what it left behind into what it produced succeeds and changes nothing,
      timestamps included, owned or not. */
  lemma {:induction false} ApplyIsIdempotent(m: EntryMap, ops: seq<Op>, opts: ApplyOptions, clock: Clock, later: Clock)
    requires Keyed(m) && DistinctTypes(ops) && ApplySpec(m, ops, opts, clock).Ok()
    ensures var r := ApplySpec(m, ops, opts, clock);
            ApplySpec(r.entries, r.ops, opts, later) == r
  {
    ApplyAgain(m, ops, opts, clock, later, |ops|);
  }

  // Retries.

  predicate SameUpToTime(op: Op, op': Op) {
    match (op, op')
    case (Add(a), Add(a')) => HasSameState(a, a')
    case (Change(b, a), Change(b', a')) => b == b' && HasSameState(a, a')
    case (Remove(b), Remove(b')) => b == b'
    case _ => false
  }

  predicate SameDiff(ops: seq<Op>, ops': seq<Op>) {
    |ops| == |ops'| && forall k | 0 <= k < |ops| :: SameUpToTime(ops[k], ops'[k])
  }

  /** An attempt, successful or not, alters the diff in the times of its `after` conditions only. */
  lemma {:induction false} ApplyKeepsDiff(m: EntryMap, ops: seq<Op>, n: nat, opts: ApplyOptions, clock: Clock)
    requires n <= |ops|
    ensures SameDiff(ops, ApplyFirst(m, ops, n, opts, clock).ops)
  {
    if n > 0 {
      ApplyKeepsDiff(m, ops, n - 1, opts, clock);
    }
  }

  lemma {:induction false} StampedTime(op: Op, l: Option<Condition>, opts: ApplyOptions, now: Time)
    ensures var op' := Stamped(op, l, opts, now);
            op' == op || (!op'.Remove? && op'.Type() == op.Type()
                          && (op'.after.time == now || (l.Some? && op'.after.time == l.value.time)))
  {}

  /** And each of those times is a reading of the clock, or that of the entry the operation has met. */
  lemma {:induction false} RestampedOperation(
    m: EntryMap, ops: seq<Op>, n: nat, opts: ApplyOptions, clock: Clock, k: nat)
    requires Keyed(m) && DistinctTypes(ops) && k < |ops| && n <= |ops|
    ensures var op, l := ApplyFirst(m, ops, n, opts, clock).ops[k], At(m, ops[k].Type());
            op == ops[k] || (!op.Remove? && op.Type() == ops[k].Type()
                             && (op.after.time == clock(k) || (l.Some? && op.after.time == l.value.time)))
  {
    if n > 0 {
      RestampedOperation(m, ops, n - 1, opts, clock, k);
      if k == n - 1 {
        EntryAwaitsItsOperation(m, ops, k, opts, clock);
        StampedTime(ops[k], At(m, ops[k].Type()), opts, clock(k));
      }
    }
  }

  lemma {:induction false} SameDiffKeepsTypes(ops: seq<Op>, ops': seq<Op>)
    requires SameDiff(ops, ops')
    ensures forall k | 0 <= k < |ops| :: ops[k].Type() == ops'[k].Type()
    ensures DistinctTypes(ops) ==> DistinctTypes(ops')
    ensures forall t :: Touches(ops, t) <==> Touches(ops', t)
  {
    forall k | 0 <= k < |ops| ensures ops[k].Type() == ops'[k].Type() {
      assert SameUpToTime(ops[k], ops'[k]);
    }
    forall t ensures Touches(ops, t) <==> Touches(ops', t) {}
  }

  /** `n` has the state of `m` wherever `m0` and `n0` have the same state. */
  ghost predicate FollowStates(m0: EntryMap, n0: EntryMap, m: EntryMap, n: EntryMap) {
    forall t | SameState(At(m0, t), At(n0, t)) :: SameState(At(m, t), At(n, t))
  }

  lemma {:induction false} SameOperationSameEntry(
    op: Op, op': Op, l: Option<Condition>, opts: ApplyOptions, now: Time, now': Time)
    requires SameUpToTime(op, op')
    ensures op.Type() == op'.Type() && (Conflicts(op, l, opts) <==> Conflicts(op', l, opts))
    ensures !Conflicts(op, l, opts) ==> SameState(Merged(op, l, now), Merged(op', l, now'))
  {}

  lemma {:induction false} SameOperationSameStep(
    m: EntryMap, m': EntryMap, r: Outcome, r': Outcome, k: nat, opts: ApplyOptions, now: Time, now': Time)
    requires Keyed(r.entries) && Keyed(r'.entries)
    requires k < |r.ops| == |r'.ops| && SameUpToTime(r.ops[k], r'.ops[k])
    requires r.conflict == r'.conflict && FollowStates(m, m', r.entries, r'.entries)
    requires At(r.entries, r.ops[k].Type()) == At(r'.entries, r.ops[k].Type())
    ensures ApplyStep(r, k, opts, now).conflict == ApplyStep(r', k, opts, now').conflict
    ensures FollowStates(m, m', ApplyStep(r, k, opts, now).entries, ApplyStep(r', k, opts, now').entries)
  {
    var s, s' := ApplyStep(r, k, opts, now), ApplyStep(r', k, opts, now');
    SameOperationSameEntry(r.ops[k], r'.ops[k], At(r.entries, r.ops[k].Type()), opts, now, now');
    StepIsMapUpdate(r, k, opts, now);
    StepIsMapUpdate(r', k, opts, now');
    forall u | SameState(At(m, u), At(m', u)) ensures SameState(At(s.entries, u), At(s'.entries, u)) {
      assert SameState(At(r.entries, u), At(r'.entries, u));
    }
  }

  lemma {:induction false} SameDiffStaysDistinct(ops: seq<Op>, ops': seq<Op>)
    requires SameDiff(ops, ops') && DistinctTypes(ops)
    ensures DistinctTypes(ops')
  {
    SameDiffKeepsTypes(ops, ops');
  }

  /** A diff that earlier attempts have restamped, applied where the entries it is about are the same, decides as
      the fresh diff does: the same conflict or success, the same states. */
  lemma {:induction false} DecisionDependsOnTouchedEntries(
    m: EntryMap, m': EntryMap, ops: seq<Op>, ops': seq<Op>, n: nat, opts: ApplyOptions, clock: Clock, clock': Clock)
    requires Keyed(m) && Keyed(m') && DistinctTypes(ops) && SameDiff(ops, ops') && n <= |ops|
    requires forall k | 0 <= k < |ops| :: At(m, ops[k].Type()) == At(m', ops[k].Type())
    ensures var r, r' := ApplyFirst(m, ops, n, opts, clock), ApplyFirst(m', ops', n, opts, clock');
            r.conflict == r'.conflict && FollowStates(m, m', r.entries, r'.entries)
  {
    SameDiffStaysDistinct(ops, ops');
    if n > 0 {
      assert SameUpToTime(ops[n - 1], ops'[n - 1]);
      DecisionDependsOnTouchedEntries(m, m', ops, ops', n - 1, opts, clock, clock');
      EntryAwaitsItsOperation(m, ops, n - 1, opts, clock);
      EntryAwaitsItsOperation(m', ops', n - 1, opts, clock');
      SameOperationSameStep(m, m', ApplyFirst(m, ops, n - 1, opts, clock), ApplyFirst(m', ops', n - 1, opts, clock'),
                            n - 1, opts, clock(n - 1), clock'(n - 1));
    }
  }

  /** A retry decides as a first attempt on the same conditions would. */
  lemma {:induction false} RetryDecidesTheSame(
    m: EntryMap, ops: seq<Op>, ops': seq<Op>, opts: ApplyOptions, clock: Clock, clock': Clock)
    requires Keyed(m) && DistinctTypes(ops) && SameDiff(ops, ops')
    ensures var r, r' := ApplySpec(m, ops, opts, clock), ApplySpec(m, ops', opts, clock');
            r.conflict == r'.conflict && SameStates(r.entries, r'.entries)
  {
    DecisionDependsOnTouchedEntries(m, m, ops, ops', |ops|, opts, clock, clock');
    var r, r' := ApplySpec(m, ops, opts, clock), ApplySpec(m, ops', opts, clock');
    forall t ensures SameState(At(r.entries, t), At(r'.entries, t)) {
      assert SameState(At(m, t), At(m, t));
    }
  }

  // Two controllers.

  ghost predicate DisjointTypes(ops: seq<Op>, ops': seq<Op>) {
    forall t :: !(Touches(ops, t) && Touches(ops', t))
  }

  /** The first diff does not disturb the second: it succeeds after it exactly when it succeeds without it. */
  lemma {:induction false} SucceedsAfterAnother(
    m: EntryMap, ops1: seq<Op>, ops2: seq<Op>, o1: ApplyOptions, o2: ApplyOptions, c1: Clock, c2: Clock)
    requires Keyed(m) && DistinctTypes(ops1) && DistinctTypes(ops2) && DisjointTypes(ops1, ops2)
    ensures ApplySpec(ApplySpec(m, ops1, o1, c1).entries, ops2, o2, c2).Ok() <==> ApplySpec(m, ops2, o2, c2).Ok()
  {
    ApplyFrame(m, ops1, |ops1|, o1, c1);
    var m1 := ApplySpec(m, ops1, o1, c1).entries;
    forall k | 0 <= k < |ops2| ensures At(m1, ops2[k].Type()) == At(m, ops2[k].Type()) {
      assert Touches(ops2, ops2[k].Type());
    }
    SucceedsIffNoneConflicts(m1, ops2, |ops2|, o2, c2);
    SucceedsIffNoneConflicts(m, ops2, |ops2|, o2, c2);
  }

  /** Diffs about different types commute: both orders succeed or both fail, and agree on every state. */
  lemma {:induction false} ApplicationsCommute(
    m: EntryMap, ops1: seq<Op>, ops2: seq<Op>, o1: ApplyOptions, o2: ApplyOptions,
    c1: Clock, c2: Clock, d1: Clock, d2: Clock)
    requires Keyed(m) && DistinctTypes(ops1) && DistinctTypes(ops2) && DisjointTypes(ops1, ops2)
    ensures var r1, r2 := ApplySpec(m, ops1, o1, c1), ApplySpec(m, ops2, o2, d2);
            var r12, r21 := ApplySpec(r1.entries, ops2, o2, c2), ApplySpec(r2.entries, ops1, o1, d1);
            && (r1.Ok() && r12.Ok() <==> r2.Ok() && r21.Ok())
            && (r1.Ok() && r12.Ok() ==> SameStates(r12.entries, r21.entries))
  {
    var r1, r2 := ApplySpec(m, ops1, o1, c1), ApplySpec(m, ops2, o2, d2);
    var r12, r21 := ApplySpec(r1.entries, ops2, o2, c2), ApplySpec(r2.entries, ops1, o1, d1);
    SucceedsAfterAnother(m, ops1, ops2, o1, o2, c1, c2);
    SucceedsAfterAnother(m, ops2, ops1, o2, o1, d2, d1);
    SucceedsIffNoneConflicts(m, ops1, |ops1|, o1, c1);
    SucceedsIffNoneConflicts(m, ops1, |ops1|, o1, d1);
    SucceedsIffNoneConflicts(m, ops2, |ops2|, o2, c2);
    SucceedsIffNoneConflicts(m, ops2, |ops2|, o2, d2);
    if r1.Ok() && r12.Ok() {
      ApplyFrame(m, ops1, |ops1|, o1, c1);
      ApplyFrame(m, ops2, |ops2|, o2, d2);
      forall t ensures SameState(At(r12.entries, t), At(r21.entries, t)) {
        StateAfterBoth(m, ops1, ops2, o1, o2, c1, c2, d1, d2, t);
      }
    }
  }

  lemma {:induction false} StateAfterBoth(
    m: EntryMap, ops1: seq<Op>, ops2: seq<Op>, o1: ApplyOptions, o2: ApplyOptions,
    c1: Clock, c2: Clock, d1: Clock, d2: Clock, t: ConditionType)
    requires Keyed(m) && DistinctTypes(ops1) && DistinctTypes(ops2) && DisjointTypes(ops1, ops2)
    requires var r1, r2 := ApplySpec(m, ops1, o1, c1), ApplySpec(m, ops2, o2, d2);
             && r1.Ok() && r2.Ok() && Keyed(r1.entries) && Keyed(r2.entries)
             && ApplySpec(r1.entries, ops2, o2, c2).Ok() && ApplySpec(r2.entries, ops1, o1, d1).Ok()
    ensures SameState(At(ApplySpec(ApplySpec(m, ops1, o1, c1).entries, ops2, o2, c2).entries, t),
                      At(ApplySpec(ApplySpec(m, ops2, o2, d2).entries, ops1, o1, d1).entries, t))
  {
    var m1, m2 := ApplySpec(m, ops1, o1, c1).entries, ApplySpec(m, ops2, o2, d2).entries;
    var i := ApplyAt(m, ops1, o1, c1, t);
    var j := ApplyAt(m, ops2, o2, d2, t);
    var j' := ApplyAt(m1, ops2, o2, c2, t);
    var i' := ApplyAt(m2, ops1, o1, d1, t);
  }
}
