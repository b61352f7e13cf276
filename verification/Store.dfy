/** The condition list of an object: an in-place, re-sorted slice that implements a map from type to condition. */
module Store {
  import opened Api
  import opened Ordering

  type EntryMap = map<ConditionType, Condition>

  function At(m: EntryMap, t: ConditionType): Option<Condition> {
    if t in m then Some(m[t]) else None
  }

  /** The time a condition carries once stored: kept while the state is kept, otherwise now. */
  function Stamp(c: Condition, existing: Option<Condition>, now: Time): Condition {
    match existing
    case None => if c.time == 0 then c.(time := now) else c
    case Some(e) => if HasSameState(e, c) then c.(time := e.time) else c.(time := now)
  }

  /** Replaces the first condition of the same type, or appends. */
  function Put(s: seq<Condition>, c: Condition): seq<Condition> {
    if s == [] then [c]
    else if s[0].typ == c.typ then [c] + s[1..]
    else [s[0]] + Put(s[1..], c)
  }

  lemma {:induction false} PutUpdates(s: seq<Condition>, c: Condition)
    requires Unique(s)
    ensures Unique(Put(s, c))
    ensures Entries(Put(s, c)) == Entries(s)[c.typ := c]
  {
    if s != [] {
      if s[0].typ == c.typ {
        assert ([c] + s[1..])[1..] == s[1..];
      } else {
        PutUpdates(s[1..], c);
        assert Put(s, c)[1..] == Put(s[1..], c);
      }
    }
  }

  lemma {:induction false} PutAtIndex(s: seq<Condition>, i: nat, c: Condition)
    requires i < |s| && s[i].typ == c.typ
    requires forall j | 0 <= j < i :: s[j].typ != c.typ
    ensures Put(s, c) == s[i := c]
    ensures At(Entries(s), c.typ) == Some(s[i])
  {
    if i > 0 {
      PutAtIndex(s[1..], i - 1, c);
      assert s[i := c] == [s[0]] + s[1..][i - 1 := c];
    }
  }

  lemma {:induction false} PutAbsent(s: seq<Condition>, c: Condition)
    requires forall j | 0 <= j < |s| :: s[j].typ != c.typ
    ensures Put(s, c) == s + [c]
    ensures At(Entries(s), c.typ) == None
  {
    if s != [] {
      PutAbsent(s[1..], c);
      assert s + [c] == [s[0]] + (s[1..] + [c]);
    }
  }

  /** However the list is sorted afterwards, storing is a map update when no type is repeated. */
  lemma {:induction false} SortedPutIsMapUpdate(s: seq<Condition>, c: Condition, sorted: seq<Condition>)
    requires Unique(s) && Ordered(sorted) && multiset(sorted) == multiset(Put(s, c))
    ensures Canonical(sorted) && Unique(sorted) && Entries(sorted) == Entries(s)[c.typ := c]
  {
    PutUpdates(s, c);
    SortIsDetermined(Put(s, c), sorted, sorted);
    CanonicalIsUnique(sorted);
  }

  function Without(s: seq<Condition>, t: ConditionType): seq<Condition> {
    if s == [] then []
    else if s[0].typ == t then Without(s[1..], t)
    else [s[0]] + Without(s[1..], t)
  }

  /** Deleting removes one key from the map, for repeated types too, and never reorders. */
  lemma {:induction false} DeleteIsMapRemoval(s: seq<Condition>, t: ConditionType)
    ensures Entries(Without(s, t)) == Entries(s) - {t}
    ensures Unique(s) ==> Unique(Without(s, t))
  {
    if s != [] {
      DeleteIsMapRemoval(s[1..], t);
      if s[0].typ != t {
        assert Without(s, t)[1..] == Without(s[1..], t);
      }
    }
  }

  lemma {:induction false} DeleteKeepsCanonical(s: seq<Condition>, t: ConditionType)
    requires Canonical(s)
    ensures Canonical(Without(s, t))
  {
    if s != [] {
      var r := Without(s[1..], t);
      DeleteKeepsCanonical(s[1..], t);
      DeleteIsMapRemoval(s[1..], t);
      CanonicalHeadIsLeast(s);
      if s[0].typ != t {
        assert ([s[0]] + r)[1..] == r;
        assert r == [] || r[0].typ in Entries(r);
      }
    }
  }

  lemma {:induction false} WithoutAppend(s: seq<Condition>, c: Condition, t: ConditionType)
    ensures Without(s + [c], t) == Without(s, t) + if c.typ == t then [] else [c]
  {
    if s != [] {
      WithoutAppend(s[1..], c, t);
      assert (s + [c])[1..] == s[1..] + [c];
    }
  }

  /** What setting makes of a list. A nil condition is ignored. Without repeated types this is a map update: one entry
      changes, every other is left bit for bit, and the list comes out canonical even if it was not. */
  ghost predicate IsSet(s: seq<Condition>, c: Option<Condition>, now: Time, s': seq<Condition>) {
    match c
    case None => s' == s
    case Some(x) =>
      var stored := Stamp(x, At(Entries(s), x.typ), now);
      && Ordered(s') && multiset(s') == multiset(Put(s, stored))
      && (Unique(s) ==> Canonical(s') && Unique(s') && Entries(s') == Entries(s)[x.typ := stored])
  }

  /** An object with conditions: the Getter and Setter of the source. */
  class Object {
    var conditions: seq<Condition>

    constructor (conditions: seq<Condition>)
      ensures this.conditions == conditions
    {
      this.conditions := conditions;
    }

    function Map(): EntryMap
      reads this
    {
      Entries(conditions)
    }

    method Get(t: ConditionType) returns (r: Option<Condition>)
      ensures r == At(Map(), t)
    {
      for i := 0 to |conditions|
        invariant At(Map(), t) == At(Entries(conditions[i..]), t)
      {
        if conditions[i].typ == t {
          return Some(conditions[i]);
        }
        assert conditions[i..][1..] == conditions[i + 1..];
      }
      return None;
    }

    /** The list with the condition replaced or appended, and the condition with its time. */
    method Placed(condition: Condition, now: Time) returns (list: seq<Condition>, c: Condition)
      ensures c == Stamp(condition, At(Map(), condition.typ), now)
      ensures list == Put(conditions, c)
    {
      c := condition;
      list := conditions;
      for i := 0 to |list|
        invariant list == conditions && c == condition
        invariant forall j | 0 <= j < i :: list[j].typ != c.typ
      {
        if list[i].typ == c.typ {
          PutAtIndex(list, i, c.(time := now));
          PutAtIndex(list, i, c.(time := list[i].time));
          if !HasSameState(list[i], c) {
            c := c.(time := now);
            list := list[i := c];
            return;
          }
          c := c.(time := list[i].time);
          assert c == list[i];
          return;
        }
      }
      if c.time == 0 {
        c := c.(time := now);
      }
      PutAbsent(list, c);
      list := list + [c];
    }

    /** Stores the condition. What is returned is the caller's condition, whose time is overwritten through the
        pointer. */
    method Set(condition: Option<Condition>, now: Time) returns (stored: Option<Condition>)
      modifies this
      ensures stored == if condition.None? then None
                        else Some(Stamp(condition.value, At(old(Map()), condition.value.typ), now))
      ensures IsSet(old(conditions), condition, now, conditions)
    {
      if condition.None? {
        return None;
      }
      var list, c := Placed(condition.value, now);
      stored := Some(c);
      var sorted := SortConditions(list);
      if Unique(conditions) {
        SortedPutIsMapUpdate(conditions, c, sorted);
      }
      conditions := sorted;
    }

    /** Removes every condition of the type. */
    method Delete(t: ConditionType)
      modifies this
      ensures conditions == Without(old(conditions), t)
      ensures Map() == old(Map()) - {t}
      ensures Unique(old(conditions)) ==> Unique(conditions)
      ensures Canonical(old(conditions)) ==> Canonical(conditions)
    {
      var newConditions := [];
      for i := 0 to |conditions|
        invariant conditions == old(conditions)
        invariant newConditions == Without(conditions[..i], t)
      {
        WithoutAppend(conditions[..i], conditions[i], t);
        assert conditions[..i + 1] == conditions[..i] + [conditions[i]];
        if conditions[i].typ != t {
          newConditions := newConditions + [conditions[i]];
        }
      }
      assert conditions[..|conditions|] == conditions;
      DeleteIsMapRemoval(conditions, t);
      if Canonical(conditions) {
        DeleteKeepsCanonical(conditions, t);
      }
      conditions := newConditions;
    }
  }
}
