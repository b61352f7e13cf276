/** The canonical order of condition types (Ready first, then by name) and sorting by it. */
module Ordering {
  import opened Api

  /** The byte-wise order on strings. */
  predicate StringLess(a: string, b: string) {
    if b == [] then false
    else if a == [] then true
    else a[0] < b[0] || (a[0] == b[0] && StringLess(a[1..], b[1..]))
  }

  /** The order on types behind lexicographicLess. */
  predicate TypeLess(t: ConditionType, u: ConditionType) {
    (t == READY || StringLess(t, u)) && u != READY
  }

  /** `a` and `b` agree up to position `i`, where `a` ends or has the smaller character. */
  predicate SmallerAt(a: string, b: string, i: nat) {
    i <= |a| && i < |b| && a[..i] == b[..i] && (i == |a| || a[i] < b[i])
  }

  /** The order of a dictionary. */
  ghost predicate Alphabetical(a: string, b: string) {
    exists i: nat :: SmallerAt(a, b, i)
  }

  lemma {:induction false} StringLessIsAlphabetical(a: string, b: string)
    ensures StringLess(a, b) <==> Alphabetical(a, b)
  {
    if a == [] || b == [] {
      assert b != [] && a == [] ==> SmallerAt(a, b, 0);
    } else if a[0] != b[0] {
      assert a[0] < b[0] ==> SmallerAt(a, b, 0);
      if Alphabetical(a, b) {
        var i: nat :| SmallerAt(a, b, i);
        assert forall k | 0 <= k < i :: a[..i][k] == a[k] && b[..i][k] == b[k];
        assert i == 0;
      }
    } else {
      StringLessIsAlphabetical(a[1..], b[1..]);
      if Alphabetical(a[1..], b[1..]) {
        var i: nat :| SmallerAt(a[1..], b[1..], i);
        assert a[..i + 1] == [a[0]] + a[1..][..i] && b[..i + 1] == [b[0]] + b[1..][..i];
        assert SmallerAt(a, b, i + 1);
      }
      if Alphabetical(a, b) {
        var i: nat :| SmallerAt(a, b, i);
        assert i > 0;
        assert a[1..][..i - 1] == a[..i][1..] && b[1..][..i - 1] == b[..i][1..];
        assert SmallerAt(a[1..], b[1..], i - 1);
      }
    }
  }

  /** Ready goes before every other type, nothing goes before Ready, and the others go by their names. */
  ghost predicate ListedBefore(t: ConditionType, u: ConditionType) {
    u != READY && (t == READY || Alphabetical(t, u))
  }

  lemma {:induction false} ReadyFirstThenByName(t: ConditionType, u: ConditionType)
    ensures TypeLess(t, u) <==> ListedBefore(t, u)
    ensures t != READY ==> TypeLess(READY, t) && !TypeLess(t, READY)
    ensures t != READY && u != READY ==> (TypeLess(t, u) <==> exists i: nat :: SmallerAt(t, u, i))
  {
    StringLessIsAlphabetical(t, u);
  }

  lemma {:induction false} StringLessIsStrict(a: string)
    ensures !StringLess(a, a)
  {
    if a != [] {
      StringLessIsStrict(a[1..]);
    }
  }

  lemma {:induction false} StringLessIsTransitive(a: string, b: string, c: string)
    requires StringLess(a, b) && StringLess(b, c)
    ensures StringLess(a, c)
  {
    if a != [] && a[0] == b[0] == c[0] {
      StringLessIsTransitive(a[1..], b[1..], c[1..]);
    }
  }

  lemma {:induction false} StringLessIsTotal(a: string, b: string)
    requires a != b
    ensures StringLess(a, b) || StringLess(b, a)
  {
    if a != [] && b != [] && a[0] == b[0] {
      assert a == [a[0]] + a[1..] && b == [b[0]] + b[1..];
      StringLessIsTotal(a[1..], b[1..]);
    }
  }

  /** The type order is a strict total order: it fixes one arrangement of any set of types. */
  lemma {:induction false} TypeLessIsStrictTotalOrder()
    ensures forall t :: !TypeLess(t, t)
    ensures forall t, u :: TypeLess(t, u) ==> !TypeLess(u, t)
    ensures forall t, u, v :: TypeLess(t, u) && TypeLess(u, v) ==> TypeLess(t, v)
    ensures forall t, u :: t == u || TypeLess(t, u) || TypeLess(u, t)
  {
    forall t ensures !TypeLess(t, t) {
      StringLessIsStrict(t);
    }
    forall t, u, v | TypeLess(t, u) && TypeLess(u, v) ensures TypeLess(t, v) {
      if t != READY {
        StringLessIsTransitive(t, u, v);
      }
    }
    forall t, u | t != u ensures TypeLess(t, u) || TypeLess(u, t) {
      StringLessIsTotal(t, u);
    }
  }

  lemma {:induction false} TypeLessIsAsymmetric(t: ConditionType, u: ConditionType)
    ensures !(TypeLess(t, u) && TypeLess(u, t))
  {
    TypeLessIsStrictTotalOrder();
  }

  /** What sorting by lexicographicLess establishes, for lists that may repeat a type. */
  predicate Ordered(s: seq<Condition>) {
    |s| < 2 || (!TypeLess(s[1].typ, s[0].typ) && Ordered(s[1..]))
  }

  /** The canonical form: strictly increasing types, so Ready first and no type twice. */
  predicate Canonical(s: seq<Condition>) {
    |s| < 2 || (TypeLess(s[0].typ, s[1].typ) && Canonical(s[1..]))
  }

  /** A list as a map; of several conditions of one type the first is the one that counts. */
  function Entries(s: seq<Condition>): (m: map<ConditionType, Condition>)
    ensures forall t | t in m :: m[t].typ == t
  {
    if s == [] then map[] else Entries(s[1..])[s[0].typ := s[0]]
  }

  predicate Unique(s: seq<Condition>) {
    s == [] || (s[0].typ !in Entries(s[1..]) && Unique(s[1..]))
  }

  lemma {:induction false} SingleEntry(c: Condition)
    ensures Entries([c]) == map[c.typ := c] && Canonical([c]) && Unique([c])
  {
    assert [c][1..] == [];
    assert Entries([]) == map[];
  }

  lemma {:induction false} EntriesMembers(s: seq<Condition>)
    ensures forall c | c in s :: c.typ in Entries(s)
    ensures forall t | t in Entries(s) :: Entries(s)[t] in s
    ensures Unique(s) ==> forall c | c in s :: Entries(s)[c.typ] == c
  {
    if s != [] {
      EntriesMembers(s[1..]);
      assert s == [s[0]] + s[1..];
    }
  }

  lemma {:induction false} CanonicalHeadIsLeast(s: seq<Condition>)
    requires Canonical(s) && s != []
    ensures forall t | t in Entries(s[1..]) :: TypeLess(s[0].typ, t)
  {
    if |s| > 1 {
      TypeLessIsStrictTotalOrder();
      CanonicalHeadIsLeast(s[1..]);
    }
  }

  lemma {:induction false} CanonicalPairs(s: seq<Condition>)
    ensures Canonical(s) <==> forall i, j :: 0 <= i < j < |s| ==> TypeLess(s[i].typ, s[j].typ)
  {
    if |s| > 1 {
      CanonicalPairs(s[1..]);
      if Canonical(s) {
        CanonicalHeadIsLeast(s);
        EntriesMembers(s[1..]);
      } else if TypeLess(s[0].typ, s[1].typ) {
        var i, j :| 0 <= i < j < |s[1..]| && !TypeLess(s[1..][i].typ, s[1..][j].typ);
        assert !TypeLess(s[i + 1].typ, s[j + 1].typ);
      }
    }
  }

  /** The pairwise reading of the canonical form: of any two conditions the first is Ready, or neither is and the
      first has the smaller name. */
  lemma {:induction false} CanonicalPairByPair(s: seq<Condition>)
    ensures Canonical(s) <==> forall i, j :: 0 <= i < j < |s| ==> ListedBefore(s[i].typ, s[j].typ)
  {
    CanonicalPairs(s);
    forall i, j | 0 <= i < j < |s| ensures TypeLess(s[i].typ, s[j].typ) <==> ListedBefore(s[i].typ, s[j].typ) {
      ReadyFirstThenByName(s[i].typ, s[j].typ);
    }
  }

  /** A canonical list that has a Ready condition begins with it. */
  lemma {:induction false} ReadyHeadsTheList(s: seq<Condition>)
    requires Canonical(s) && READY in Entries(s)
    ensures s != [] && s[0].typ == READY
  {
    if s[0].typ != READY {
      CanonicalHeadIsLeast(s);
      ReadyFirstThenByName(s[0].typ, READY);
    }
  }

  lemma {:induction false} CanonicalIsUnique(s: seq<Condition>)
    requires Canonical(s)
    ensures Unique(s)
  {
    if s != [] {
      CanonicalIsUnique(s[1..]);
      CanonicalHeadIsLeast(s);
      TypeLessIsStrictTotalOrder();
    }
  }

  lemma {:induction false} OrderedAndUniqueIsCanonical(s: seq<Condition>)
    requires Ordered(s) && Unique(s)
    ensures Canonical(s)
  {
    if |s| > 1 {
      TypeLessIsStrictTotalOrder();
      OrderedAndUniqueIsCanonical(s[1..]);
    }
  }

  lemma {:induction false} SameKeysSameHead(a: seq<Condition>, b: seq<Condition>)
    requires Canonical(a) && Canonical(b) && Entries(a).Keys == Entries(b).Keys
    ensures a == [] <==> b == []
    ensures a != [] ==> a[0].typ == b[0].typ
    ensures a != [] ==> Entries(a[1..]).Keys == Entries(a).Keys - {a[0].typ} == Entries(b[1..]).Keys
  {
    EntriesMembers(a);
    EntriesMembers(b);
    if a != [] && b != [] {
      CanonicalHeadIsLeast(a);
      CanonicalHeadIsLeast(b);
      assert a[0].typ in Entries(b) && b[0].typ in Entries(a);
      TypeLessIsAsymmetric(a[0].typ, b[0].typ);
      TypeLessIsAsymmetric(a[0].typ, a[0].typ);
      TypeLessIsAsymmetric(b[0].typ, b[0].typ);
    }
  }

  /** A canonical list is determined by the map it stands for: order leaves no freedom. */
  lemma {:induction false} CanonicalIsDetermined(a: seq<Condition>, b: seq<Condition>)
    requires Canonical(a) && Canonical(b)
    requires Entries(a) == Entries(b)
    ensures a == b
    decreases |a|
  {
    SameKeysSameHead(a, b);
    if a != [] {
      var t := a[0].typ;
      assert a[0] == Entries(a)[t] && b[0] == Entries(b)[t];
      assert Entries(a[1..]) == Entries(a) - {t} && Entries(b[1..]) == Entries(b) - {t};
      CanonicalIsDetermined(a[1..], b[1..]);
      assert a == [a[0]] + a[1..] && b == [b[0]] + b[1..];
    }
  }

  lemma {:induction false} RemoveOne(s: seq<Condition>, i: nat) returns (rest: seq<Condition>)
    requires Unique(s) && i < |s|
    ensures multiset(s) == multiset(rest) + multiset{s[i]}
    ensures Unique(rest) && s[i].typ !in Entries(rest)
    ensures Entries(s) == Entries(rest)[s[i].typ := s[i]]
  {
    var h, c := s[0], s[i];
    assert s == [h] + s[1..];
    if i == 0 {
      rest := s[1..];
    } else {
      var tail := RemoveOne(s[1..], i - 1);
      assert c == s[1..][i - 1];
      rest := [h] + tail;
      assert rest[1..] == tail;
      assert h.typ !in Entries(tail)[c.typ := c];
      assert Entries(tail)[c.typ := c][h.typ := h] == Entries(tail)[h.typ := h][c.typ := c];
    }
  }

  /** Rearranging a list without repeated types changes nothing of the map. */
  lemma {:induction false} EntriesOfPermutation(s: seq<Condition>, r: seq<Condition>)
    requires Unique(s) && multiset(r) == multiset(s)
    ensures Unique(r) && Entries(r) == Entries(s)
    decreases |r|
  {
    if r == [] {
      assert |multiset(s)| == 0;
    } else {
      var h, t := r[0], r[1..];
      assert r == [h] + t;
      assert h in multiset(s);
      var i :| 0 <= i < |s| && s[i] == h;
      var rest := RemoveOne(s, i);
      assert multiset(t) == multiset(r) - multiset{h};
      assert multiset(rest) == multiset(s) - multiset{h};
      EntriesOfPermutation(rest, t);
    }
  }

  /** Whatever the sorting algorithm, distinct types leave it only one possible result. */
  lemma {:induction false} SortIsDetermined(s: seq<Condition>, r: seq<Condition>, r': seq<Condition>)
    requires Unique(s)
    requires Ordered(r) && multiset(r) == multiset(s)
    requires Ordered(r') && multiset(r') == multiset(s)
    ensures r == r' && Canonical(r) && Entries(r) == Entries(s)
  {
    EntriesOfPermutation(s, r);
    EntriesOfPermutation(s, r');
    OrderedAndUniqueIsCanonical(r);
    OrderedAndUniqueIsCanonical(r');
    CanonicalIsDetermined(r, r');
  }

  function Insert(c: Condition, s: seq<Condition>): seq<Condition> {
    if s == [] then [c]
    else if TypeLess(s[0].typ, c.typ) then [s[0]] + Insert(c, s[1..])
    else [c] + s
  }

  lemma {:induction false} InsertAddsOne(c: Condition, s: seq<Condition>)
    ensures multiset(Insert(c, s)) == multiset(s) + multiset{c}
  {
    if s != [] {
      InsertAddsOne(c, s[1..]);
      assert s == [s[0]] + s[1..];
    }
  }

  lemma {:induction false} InsertKeepsOrdered(c: Condition, s: seq<Condition>)
    requires Ordered(s)
    ensures Ordered(Insert(c, s))
  {
    if s != [] {
      InsertKeepsOrdered(c, s[1..]);
      var r := Insert(c, s[1..]);
      assert ([s[0]] + r)[1..] == r && ([c] + s)[1..] == s;
      TypeLessIsAsymmetric(s[0].typ, c.typ);
    }
  }

  /** Every map has its canonical list. */
  lemma {:induction false} CanonicalListExists(m: map<ConditionType, Condition>) returns (s: seq<Condition>)
    requires forall t | t in m :: m[t].typ == t
    ensures Canonical(s) && Entries(s) == m
  {
    if m == map[] {
      s := [];
    } else {
      var t :| t in m;
      var rest := CanonicalListExists(m - {t});
      var all := [m[t]] + rest;
      assert all[1..] == rest;
      CanonicalIsUnique(rest);
      s := Insert(m[t], rest);
      CanonicalIsOrdered(rest);
      InsertKeepsOrdered(m[t], rest);
      InsertAddsOne(m[t], rest);
      EntriesOfPermutation(all, s);
      OrderedAndUniqueIsCanonical(s);
      assert Entries(all) == m;
    }
  }

  lemma {:induction false} CanonicalIsOrdered(s: seq<Condition>)
    requires Canonical(s)
    ensures Ordered(s)
  {
    if |s| > 1 {
      TypeLessIsAsymmetric(s[0].typ, s[1].typ);
      CanonicalIsOrdered(s[1..]);
    }
  }

  /** Sorting in the source's sense: some ordered permutation, the order of equal types is left open. */
  method SortConditions(s: seq<Condition>) returns (r: seq<Condition>)
    ensures Ordered(r)
    ensures multiset(r) == multiset(s)
  {
    r := [];
    for i := 0 to |s|
      invariant Ordered(r)
      invariant multiset(r) == multiset(s[..i])
    {
      assert s[..i + 1] == s[..i] + [s[i]];
      InsertAddsOne(s[i], r);
      InsertKeepsOrdered(s[i], r);
      r := Insert(s[i], r);
    }
    assert s[..|s|] == s;
  }
}
