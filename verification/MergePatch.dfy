/** The diff of two condition lists and its three-way merge into a third one. */
module MergePatch {
  import opened Api
  import opened Ordering
  import opened Store

  datatype Op =
    | Add(after: Condition)
    | Change(before: Condition, after: Condition)
    | Remove(before: Condition)
  {
    function Type(): ConditionType {
      if Remove? then before.typ else after.typ
    }
  }

  type Clock = nat -> Time

  predicate DistinctTypes(ops: seq<Op>) {
    forall i, j :: 0 <= i < j < |ops| ==> ops[i].Type() != ops[j].Type()
  }

  /** The operation that takes one entry from `b` to `a`, if any is needed. */
  function OpFor(b: Option<Condition>, a: Option<Condition>): Option<Op> {
    match (b, a)
    case (None, None) => None
    case (None, Some(x)) => Some(Add(x))
    case (Some(x), None) => Some(Remove(x))
    case (Some(x), Some(y)) => if x == y then None else Some(Change(x, y))
  }

  function ToSeq(op: Option<Op>): seq<Op> {
    if op.Some? then [op.value] else []
  }

  function Changes(before: EntryMap, after: seq<Condition>): seq<Op> {
    if after == [] then [] else
      var n := |after| - 1;
      Changes(before, after[..n]) + ToSeq(OpFor(At(before, after[n].typ), Some(after[n])))
  }

  function Removals(before: seq<Condition>, after: EntryMap): seq<Op> {
    if before == [] then [] else
      var n := |before| - 1;
      Removals(before[..n], after) + if before[n].typ in after then [] else [Remove(before[n])]
  }

  function Diff(before: seq<Condition>, after: seq<Condition>): seq<Op> {
    Changes(Entries(before), after) + Removals(before, Entries(after))
  }

  lemma {:induction false} ChangesMembers(before: EntryMap, after: seq<Condition>)
    ensures forall op :: op in Changes(before, after) <==>
                         && !op.Remove? && op.after in after
                         && OpFor(At(before, op.after.typ), Some(op.after)) == Some(op)
  {
    if after != [] {
      var n := |after| - 1;
      ChangesMembers(before, after[..n]);
      assert after == after[..n] + [after[n]];
    }
  }

  lemma {:induction false} RemovalsMembers(before: seq<Condition>, after: EntryMap)
    ensures forall op :: op in Removals(before, after) <==>
                         op.Remove? && op.before in before && op.before.typ !in after
  {
    if before != [] {
      var n := |before| - 1;
      RemovalsMembers(before[..n], after);
      assert before == before[..n] + [before[n]];
    }
  }

  predicate TypesApart(s: seq<Condition>) {
    forall i, j :: 0 <= i < j < |s| ==> s[i].typ != s[j].typ
  }

  lemma {:induction false} UniqueTypesApart(s: seq<Condition>)
    requires Unique(s)
    ensures TypesApart(s)
  {
    if s != [] {
      UniqueTypesApart(s[1..]);
      EntriesMembers(s[1..]);
      forall j | 0 < j < |s| ensures s[0].typ != s[j].typ {
        assert s[j] in s[1..];
      }
    }
  }

  lemma {:induction false} ChangesTypes(before: EntryMap, after: seq<Condition>)
    requires TypesApart(after)
    ensures DistinctTypes(Changes(before, after))
  {
    if after != [] {
      var n := |after| - 1;
      ChangesTypes(before, after[..n]);
      ChangesMembers(before, after[..n]);
      var ops := Changes(before, after[..n]);
      forall i | 0 <= i < |ops| ensures ops[i].Type() != after[n].typ {
        assert ops[i] in ops;
      }
    }
  }

  lemma {:induction false} RemovalsTypes(before: seq<Condition>, after: EntryMap)
    requires TypesApart(before)
    ensures DistinctTypes(Removals(before, after))
  {
    if before != [] {
      var n := |before| - 1;
      RemovalsTypes(before[..n], after);
      RemovalsMembers(before[..n], after);
      var ops := Removals(before[..n], after);
      forall i | 0 <= i < |ops| ensures ops[i].Type() != before[n].typ {
        assert ops[i] in ops;
      }
    }
  }

  lemma {:induction false} DiffTypesAreDistinct(before: seq<Condition>, after: seq<Condition>)
    requires Unique(before) && Unique(after)
    ensures DistinctTypes(Diff(before, after))
  {
    UniqueTypesApart(before);
    UniqueTypesApart(after);
    ChangesTypes(Entries(before), after);
    RemovalsTypes(before, Entries(after));
    ChangesMembers(Entries(before), after);
    RemovalsMembers(before, Entries(after));
    EntriesMembers(after);
    var cs, rs := Changes(Entries(before), after), Removals(before, Entries(after));
    forall i, j | 0 <= i < |cs| && 0 <= j < |rs| ensures cs[i].Type() != rs[j].Type() {
      assert cs[i] in cs && rs[j] in rs;
    }
  }

  lemma {:induction false} DiffMember(before: seq<Condition>, after: seq<Condition>, op: Op)
    requires Unique(before) && Unique(after)
    ensures op in Diff(before, after) <==>
            OpFor(At(Entries(before), op.Type()), At(Entries(after), op.Type())) == Some(op)
  {
    ChangesMembers(Entries(before), after);
    RemovalsMembers(before, Entries(after));
    EntriesMembers(before);
    EntriesMembers(after);
  }

  /** A diff holds exactly one operation for every type that differs, timestamps included, and none else. */
  lemma {:induction false} DiffIsPointwise(before: seq<Condition>, after: seq<Condition>)
    requires Unique(before) && Unique(after)
    ensures DistinctTypes(Diff(before, after))
    ensures forall op :: op in Diff(before, after) <==>
                         OpFor(At(Entries(before), op.Type()), At(Entries(after), op.Type())) == Some(op)
  {
    DiffTypesAreDistinct(before, after);
    forall op ensures op in Diff(before, after) <==>
                      OpFor(At(Entries(before), op.Type()), At(Entries(after), op.Type())) == Some(op)
    {
      DiffMember(before, after, op);
    }
  }

  /** `c` stands somewhere before `d` in the list. */
  predicate StandBefore(c: Condition, d: Condition, s: seq<Condition>) {
    exists i, j :: 0 <= i < j < |s| && s[i] == c && s[j] == d
  }

  lemma {:induction false} ChangesInOrder(before: EntryMap, after: seq<Condition>, p: nat, q: nat)
    requires p < q < |Changes(before, after)|
    ensures var ops := Changes(before, after);
            !ops[p].Remove? && !ops[q].Remove? && StandBefore(ops[p].after, ops[q].after, after)
  {
    var n := |after| - 1;
    var front, ops := Changes(before, after[..n]), Changes(before, after);
    if q < |front| {
      ChangesInOrder(before, after[..n], p, q);
      var i, j :| 0 <= i < j < n && after[..n][i] == ops[p].after && after[..n][j] == ops[q].after;
      assert after[i] == ops[p].after && after[j] == ops[q].after;
    } else {
      ChangesMembers(before, after[..n]);
      assert front[p] in front;
      var i :| 0 <= i < n && after[..n][i] == front[p].after;
      assert after[i] == ops[p].after && after[n] == ops[q].after;
    }
  }

  lemma {:induction false} RemovalsInOrder(before: seq<Condition>, after: EntryMap, p: nat, q: nat)
    requires p < q < |Removals(before, after)|
    ensures var ops := Removals(before, after);
            ops[p].Remove? && ops[q].Remove? && StandBefore(ops[p].before, ops[q].before, before)
  {
    var n := |before| - 1;
    var front, ops := Removals(before[..n], after), Removals(before, after);
    if q < |front| {
      RemovalsInOrder(before[..n], after, p, q);
      var i, j :| 0 <= i < j < n && before[..n][i] == ops[p].before && before[..n][j] == ops[q].before;
      assert before[i] == ops[p].before && before[j] == ops[q].before;
    } else {
      RemovalsMembers(before[..n], after);
      assert front[p] in front;
      var i :| 0 <= i < n && before[..n][i] == front[p].before;
      assert before[i] == ops[p].before && before[n] == ops[q].before;
    }
  }

  /** Removals come last; they are in the order of the first list, and all else is in the order of the second. */
  lemma {:induction false} DiffIsInOrder(before: seq<Condition>, after: seq<Condition>, p: nat, q: nat)
    requires p < q < |Diff(before, after)|
    ensures var ops := Diff(before, after);
            && (ops[p].Remove? ==> ops[q].Remove? && StandBefore(ops[p].before, ops[q].before, before))
            && (!ops[q].Remove? ==> !ops[p].Remove? && StandBefore(ops[p].after, ops[q].after, after))
  {
    var cs, rs := Changes(Entries(before), after), Removals(before, Entries(after));
    ChangesMembers(Entries(before), after);
    RemovalsMembers(before, Entries(after));
    if q < |cs| {
      ChangesInOrder(Entries(before), after, p, q);
    } else if p < |cs| {
      assert cs[p] in cs && rs[q - |cs|] in rs;
    } else {
      RemovalsInOrder(before, Entries(after), p - |cs|, q - |cs|);
    }
  }

  datatype ApplyOptions = ApplyOptions(owned: seq<ConditionType>, force: bool) {
    predicate Overrides(t: ConditionType) {
      force || t in owned
    }
  }

  /** The operation cannot be merged into an entry whose present value is `l`. */
  predicate Conflicts(op: Op, l: Option<Condition>, opts: ApplyOptions) {
    && !opts.Overrides(op.Type())
    && match op
       case Add(a) => l.Some? && !HasSameState(l.value, a)
       case Change(b, a) => l.None? || (l.value != b && !HasSameState(l.value, a))
       case Remove(b) => l.Some? && !HasSameState(l.value, b)
  }

  /** The operation calls Set, rather than finding its intent already in place. */
  predicate Writes(op: Op, l: Option<Condition>, opts: ApplyOptions) {
    match op
    case Add(_) => opts.Overrides(op.Type()) || l.None?
    case Change(b, _) => opts.Overrides(op.Type()) || l == Some(b)
    case Remove(_) => false
  }

  /** The operation as it is left behind: Set overwrites the time of its `after` condition. */
  function Stamped(op: Op, l: Option<Condition>, opts: ApplyOptions, now: Time): Op {
    if Writes(op, l, opts) then op.(after := Stamp(op.after, l, now)) else op
  }

  function ApplyOne(m: EntryMap, op: Op, opts: ApplyOptions, now: Time): EntryMap {
    var l := At(m, op.Type());
    if op.Remove? then m - {op.before.typ}
    else if Writes(op, l, opts) then m[op.Type() := Stamp(op.after, l, now)]
    else m
  }

  /** What an application leaves behind: the type in conflict if any, the conditions, and the operations. */
  datatype Outcome = Outcome(conflict: Option<ConditionType>, entries: EntryMap, ops: seq<Op>) {
    predicate Ok() { conflict.None? }
  }

  /** One turn of the loop: nothing happens after a conflict. */
  function ApplyStep(r: Outcome, k: nat, opts: ApplyOptions, now: Time): (r': Outcome)
    requires k < |r.ops|
    ensures |r'.ops| == |r.ops|
  {
    var op := r.ops[k];
    var l := At(r.entries, op.Type());
    if !r.Ok() then r
    else if Conflicts(op, l, opts) then r.(conflict := Some(op.Type()))
    else Outcome(None, ApplyOne(r.entries, op, opts, now), r.ops[k := Stamped(op, l, opts, now)])
  }

  /** The first `n` operations, in order, up to the first conflict; operation k reads the clock as clock(k). */
  function ApplyFirst(m: EntryMap, ops: seq<Op>, n: nat, opts: ApplyOptions, clock: Clock): (r: Outcome)
    requires n <= |ops|
    ensures |r.ops| == |ops|
  {
    if n == 0 then Outcome(None, m, ops)
    else ApplyStep(ApplyFirst(m, ops, n - 1, opts, clock), n - 1, opts, clock(n - 1))
  }

  function ApplySpec(m: EntryMap, ops: seq<Op>, opts: ApplyOptions, clock: Clock): Outcome {
    ApplyFirst(m, ops, |ops|, opts, clock)
  }

  /** The value a merged operation leaves in the entry for its type. */
  function Merged(op: Op, l: Option<Condition>, now: Time): Option<Condition> {
    if op.Remove? then None else Some(Stamp(op.after, l, now))
  }

  /** One of the first `n` operations is about `t`. */
  predicate TouchesFirst(ops: seq<Op>, n: nat, t: ConditionType)
    requires n <= |ops|
  {
    exists k :: 0 <= k < n && ops[k].Type() == t
  }

  predicate Touches(ops: seq<Op>, t: ConditionType) {
    TouchesFirst(ops, |ops|, t)
  }

  /** Every entry is filed under its own type. */
  predicate Keyed(m: EntryMap) {
    forall t | t in m :: m[t].typ == t
  }

  /** One turn changes the entry for the operation's type and nothing else. */
  lemma {:induction false} StepIsMapUpdate(r: Outcome, k: nat, opts: ApplyOptions, now: Time)
    requires Keyed(r.entries) && k < |r.ops|
    ensures var r' := ApplyStep(r, k, opts, now);
            var l := At(r.entries, r.ops[k].Type());
            && Keyed(r'.entries)
            && (r'.Ok() <==> r.Ok() && !Conflicts(r.ops[k], l, opts))
            && (r'.Ok() ==> At(r'.entries, r.ops[k].Type()) == Merged(r.ops[k], l, now))
            && (r'.Ok() ==> r'.ops[k] == Stamped(r.ops[k], l, opts, now))
            && (forall t | t != r.ops[k].Type() :: At(r'.entries, t) == At(r.entries, t))
            && (forall j | 0 <= j < |r.ops| && j != k :: r'.ops[j] == r.ops[j])
  {}

  /** Successful or not, an application leaves every entry it has no operation for as it was. */
  lemma {:induction false} ApplyFrame(m: EntryMap, ops: seq<Op>, n: nat, opts: ApplyOptions, clock: Clock)
    requires Keyed(m) && n <= |ops|
    ensures var r := ApplyFirst(m, ops, n, opts, clock);
            && Keyed(r.entries)
            && (forall t | !TouchesFirst(ops, n, t) :: At(r.entries, t) == At(m, t))
            && (forall k | n <= k < |ops| :: r.ops[k] == ops[k])
  {
    if n > 0 {
      ApplyFrame(m, ops, n - 1, opts, clock);
      StepIsMapUpdate(ApplyFirst(m, ops, n - 1, opts, clock), n - 1, opts, clock(n - 1));
      assert forall t | !TouchesFirst(ops, n, t) :: t != ops[n - 1].Type() && !TouchesFirst(ops, n - 1, t);
    }
  }

  /** When its turn comes, an operation finds the entry for its type as it was at the start. */
  lemma {:induction false} EntryAwaitsItsOperation(m: EntryMap, ops: seq<Op>, n: nat, opts: ApplyOptions, clock: Clock)
    requires Keyed(m) && DistinctTypes(ops) && n < |ops|
    ensures var r := ApplyFirst(m, ops, n, opts, clock);
            && Keyed(r.entries)
            && At(r.entries, ops[n].Type()) == At(m, ops[n].Type())
            && r.ops[n] == ops[n]
  {
    ApplyFrame(m, ops, n, opts, clock);
    assert !TouchesFirst(ops, n, ops[n].Type());
  }

  predicate NoneConflicts(m: EntryMap, ops: seq<Op>, n: nat, opts: ApplyOptions)
    requires n <= |ops|
  {
    forall k | 0 <= k < n :: !Conflicts(ops[k], At(m, ops[k].Type()), opts)
  }

  /** Operations on distinct types do not see one another: an application succeeds exactly when each operation,
      taken alone on the conditions it starts from, does not conflict. */
  lemma {:induction false} SucceedsIffNoneConflicts(
    m: EntryMap, ops: seq<Op>, n: nat, opts: ApplyOptions, clock: Clock)
    requires Keyed(m) && DistinctTypes(ops) && n <= |ops|
    ensures ApplyFirst(m, ops, n, opts, clock).Ok() <==> NoneConflicts(m, ops, n, opts)
  {
    if n > 0 {
      SucceedsIffNoneConflicts(m, ops, n - 1, opts, clock);
      EntryAwaitsItsOperation(m, ops, n - 1, opts, clock);
    }
  }

  /** The conflict that is reported is that of the first operation that conflicts, under its own type. */
  lemma {:induction false} ReportsFirstConflict(
    m: EntryMap, ops: seq<Op>, n: nat, opts: ApplyOptions, clock: Clock, t: ConditionType) returns (k: nat)
    requires Keyed(m) && DistinctTypes(ops) && n <= |ops|
    requires ApplyFirst(m, ops, n, opts, clock).conflict == Some(t)
    ensures k < n && ops[k].Type() == t && Conflicts(ops[k], At(m, t), opts)
    ensures NoneConflicts(m, ops, k, opts)
  {
    if ApplyFirst(m, ops, n - 1, opts, clock).Ok() {
      k := n - 1;
      SucceedsIffNoneConflicts(m, ops, k, opts, clock);
      EntryAwaitsItsOperation(m, ops, k, opts, clock);
    } else {
      k := ReportsFirstConflict(m, ops, n - 1, opts, clock, t);
    }
  }

  /** The result of the k-th operation, when every operation is about a type of its own. */
  predicate MergedAt(m: EntryMap, ops: seq<Op>, k: nat, opts: ApplyOptions, clock: Clock, r: Outcome)
    requires k < |ops| == |r.ops|
  {
    var l := At(m, ops[k].Type());
    && At(r.entries, ops[k].Type()) == Merged(ops[k], l, clock(k))
    && r.ops[k] == Stamped(ops[k], l, opts, clock(k))
  }

  /** And each entry it has an operation for comes out as that operation alone makes it. */
  lemma {:induction false} ApplyIsPointwise(
    m: EntryMap, ops: seq<Op>, n: nat, opts: ApplyOptions, clock: Clock, k: nat)
    requires Keyed(m) && DistinctTypes(ops) && k < n <= |ops|
    requires ApplyFirst(m, ops, n, opts, clock).Ok()
    ensures MergedAt(m, ops, k, opts, clock, ApplyFirst(m, ops, n, opts, clock))
  {
    EntryAwaitsItsOperation(m, ops, n - 1, opts, clock);
    StepIsMapUpdate(ApplyFirst(m, ops, n - 1, opts, clock), n - 1, opts, clock(n - 1));
    if k < n - 1 {
      ApplyIsPointwise(m, ops, n - 1, opts, clock, k);
    }
  }

  /** After a conflict the rest of the loop would change nothing. */
  lemma {:induction false} ConflictStays(
    m: EntryMap, ops: seq<Op>, i: nat, n: nat, opts: ApplyOptions, clock: Clock)
    requires i <= n <= |ops| && !ApplyFirst(m, ops, i, opts, clock).Ok()
    ensures ApplyFirst(m, ops, n, opts, clock) == ApplyFirst(m, ops, i, opts, clock)
  {
    if i < n {
      ConflictStays(m, ops, i, n - 1, opts, clock);
    }
  }

  datatype ApplyResult = Applied | LatestIsNil | ConflictOn(typ: ConditionType)

  /** The diff as an object: applying it overwrites the times of its `after` conditions. */
  class Patch {
    var ops: seq<Op>

    constructor (ops: seq<Op>)
      ensures this.ops == ops
    {
      this.ops := ops;
    }

    /** Computes the diff; a nil argument is an error and yields no patch. */
    static method NewPatch(before: Object?, after: Object?) returns (patch: Patch?)
      ensures patch == null <==> before == null || after == null
      ensures patch != null ==> fresh(patch) && patch.ops == Diff(before.conditions, after.conditions)
    {
      if before == null || after == null {
        return null;
      }
      var ops := [];
      var target := after.conditions;
      for i := 0 to |target|
        invariant ops == Changes(before.Map(), target[..i])
      {
        assert target[..i + 1][..i] == target[..i];
        var current := before.Get(target[i].typ);
        if current.None? {
          ops := ops + [Add(target[i])];
          continue;
        }
        if target[i] != current.value {
          ops := ops + [Change(current.value, target[i])];
        }
      }
      assert target[..|target|] == target;
      ghost var changes := ops;
      var base := before.conditions;
      for i := 0 to |base|
        invariant ops == changes + Removals(base[..i], after.Map())
      {
        assert base[..i + 1][..i] == base[..i];
        var wanted := after.Get(base[i].typ);
        if wanted.None? {
          ops := ops + [Remove(base[i])];
        }
      }
      assert base[..|base|] == base;
      patch := new Patch(ops);
    }

    /** The body of the loop below: merges operation k into `latest`. */
    method ApplyOperation(latest: Object, k: nat, opts: ApplyOptions, now: Time) returns (r: ApplyResult)
      requires k < |ops|
      modifies this, latest
      ensures r != LatestIsNil && |ops| == |old(ops)|
      ensures Unique(old(latest.conditions)) ==>
                && Unique(latest.conditions)
                && (Canonical(old(latest.conditions)) ==> Canonical(latest.conditions))
                && ApplyStep(Outcome(None, old(latest.Map()), old(ops)), k, opts, now)
                   == Outcome(if r == Applied then None else Some(r.typ), latest.Map(), ops)
    {
      var op := ops[k];
      assert ops[k := op] == ops;
      match op {
        case Add(after) =>
          if !opts.Overrides(after.typ) {
            var current := latest.Get(after.typ);
            if current.Some? {
              return if HasSameState(current.value, after) then Applied else ConflictOn(after.typ);
            }
          }
          var stored := latest.Set(Some(after), now);
          ops := ops[k := Add(stored.value)];
        case Change(base, after) =>
          if !opts.Overrides(after.typ) {
            var current := latest.Get(after.typ);
            if current.None? {
              return ConflictOn(after.typ);
            }
            if current.value != base {
              return if HasSameState(current.value, after) then Applied else ConflictOn(after.typ);
            }
          }
          var stored := latest.Set(Some(after), now);
          ops := ops[k := Change(base, stored.value)];
        case Remove(base) =>
          if !opts.Overrides(base.typ) {
            var current := latest.Get(base.typ);
            if current.Some? && !HasSameState(current.value, base) {
              return ConflictOn(base.typ);
            }
          }
          latest.Delete(base.typ);
      }
      r := Applied;
    }

    /** The loop over the operations. */
    method ApplyAll(latest: Object, opts: ApplyOptions, clock: Clock) returns (r: ApplyResult)
      modifies this, latest
      ensures Unique(old(latest.conditions)) ==>
                && var o := ApplySpec(old(latest.Map()), old(ops), opts, clock);
                && r == (if o.Ok() then Applied else ConflictOn(o.conflict.value))
                && latest.Map() == o.entries && ops == o.ops
                && Unique(latest.conditions)
                && (Canonical(old(latest.conditions)) ==> Canonical(latest.conditions))
    {
      ghost var m := latest.Map();
      var k := 0;
      while k < |ops|
        invariant 0 <= k <= |ops| == |old(ops)|
        invariant Unique(old(latest.conditions)) ==>
                    && Unique(latest.conditions)
                    && (Canonical(old(latest.conditions)) ==> Canonical(latest.conditions))
                    && ApplyFirst(m, old(ops), k, opts, clock) == Outcome(None, latest.Map(), ops)
      {
        r := ApplyOperation(latest, k, opts, clock(k));
        if r != Applied {
          if Unique(old(latest.conditions)) {
            ConflictStays(m, old(ops), k + 1, |ops|, opts, clock);
          }
          return;
        }
        k := k + 1;
      }
      r := Applied;
    }

    /** The three-way merge of the diff into `latest`, one operation after another, stopping at the first
        conflict with the operations before it already merged. */
    method Apply(latest: Object?, opts: ApplyOptions, clock: Clock) returns (r: ApplyResult)
      modifies this, latest
      ensures latest == null ==> ops == old(ops) && r == if ops == [] then Applied else LatestIsNil
      ensures latest != null && Unique(old(latest.conditions)) ==>
                && var o := ApplySpec(old(latest.Map()), old(ops), opts, clock);
                && r == (if o.Ok() then Applied else ConflictOn(o.conflict.value))
                && latest.Map() == o.entries && ops == o.ops
                && Unique(latest.conditions)
                && (Canonical(old(latest.conditions)) ==> Canonical(latest.conditions))
    {
      if ops == [] {
        return Applied;
      }
      if latest == null {
        return LatestIsNil;
      }
      r := ApplyAll(latest, opts, clock);
    }
  }
}
