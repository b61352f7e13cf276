/** Grouping conditions by status and severity, and sorting the groups. */
module Groups {
  import opened Api
  import opened Ordering

  /** The object a condition was taken from. */
  datatype Source = Source(kind: string, name: string)

  /** A condition, if there is one, with its source. */
  datatype Candidate = Candidate(condition: Option<Condition>, from: Source)

  datatype Located = Located(c: Condition, from: Source)

  datatype Key = Key(status: Status, severity: Severity)

  datatype Group = Group(key: Key, members: seq<Located>)

  function KeyOf(x: Located): Key {
    Key(x.c.state.status, x.c.state.severity)
  }

  function NonNil(cs: seq<Candidate>): seq<Located> {
    if cs == [] then [] else
      var n := |cs| - 1;
      NonNil(cs[..n]) + if cs[n].condition.Some? then [Located(cs[n].condition.value, cs[n].from)] else []
  }

  /** The members of one class, in input order. */
  function ClassOf(xs: seq<Located>, key: Key): seq<Located> {
    if xs == [] then [] else
      var n := |xs| - 1;
      ClassOf(xs[..n], key) + if KeyOf(xs[n]) == key then [xs[n]] else []
  }

  lemma {:induction false} ClassMembers(xs: seq<Located>, key: Key)
    ensures forall x :: x in ClassOf(xs, key) <==> x in xs && KeyOf(x) == key
  {
    if xs != [] {
      var n := |xs| - 1;
      ClassMembers(xs[..n], key);
      assert xs == xs[..n] + [xs[n]];
    }
  }

  function Priority(key: Key): nat {
    match key.status
    case StatusFalse =>
      (match key.severity
       case SeverityError => 0
       case SeverityWarning => 1
       case SeverityInfo => 2
       case _ => 99)
    case StatusTrue => 3
    case StatusUnknown => 4
    case StatusOther(_) => 99
  }

  /** The order inside the top group: by type as Set orders them, then by source name. */
  predicate MemberLess(x: Located, y: Located) {
    if x.c.typ != y.c.typ then TypeLess(x.c.typ, y.c.typ) else StringLess(x.from.name, y.from.name)
  }

  lemma {:induction false} MemberLessIsWeakOrder(x: Located, y: Located, z: Located)
    ensures !(MemberLess(x, y) && MemberLess(y, x))
    ensures MemberLess(x, z) ==> MemberLess(x, y) || MemberLess(y, z)
    ensures !MemberLess(x, y) && !MemberLess(y, x) ==> x.c.typ == y.c.typ && x.from.name == y.from.name
  {
    TypeLessIsStrictTotalOrder();
    var a, b, c := x.from.name, y.from.name, z.from.name;
    StringLessIsStrict(a);
    if a != b { StringLessIsTotal(a, b); }
    if b != c { StringLessIsTotal(b, c); }
    if StringLess(a, b) && StringLess(b, a) { StringLessIsTransitive(a, b, a); }
    if StringLess(a, c) && StringLess(b, a) { StringLessIsTransitive(b, a, c); }
  }

  predicate MembersSorted(s: seq<Located>) {
    forall i, j :: 0 <= i < j < |s| ==> !MemberLess(s[j], s[i])
  }

  predicate GroupsSorted(gs: seq<Group>) {
    forall i, j :: 0 <= i < j < |gs| ==> Priority(gs[i].key) <= Priority(gs[j].key)
  }

  predicate DistinctKeys(gs: seq<Group>) {
    forall i, j :: 0 <= i < j < |gs| ==> gs[i].key != gs[j].key
  }

  predicate HasKey(gs: seq<Group>, key: Key) {
    exists i :: 0 <= i < |gs| && gs[i].key == key
  }

  /** Non-empty, homogeneous groups with distinct keys that share out `xs` among them, nothing lost, nothing
      made up. */
  ghost predicate IsGrouping(xs: seq<Located>, gs: seq<Group>) {
    && DistinctKeys(gs)
    && (forall g | g in gs :: g.members != [] && multiset(g.members) == multiset(ClassOf(xs, g.key)))
    && (forall x | x in xs :: HasKey(gs, KeyOf(x)))
  }

  function InsertMember(x: Located, s: seq<Located>): seq<Located> {
    if s == [] then [x]
    else if MemberLess(s[0], x) then [s[0]] + InsertMember(x, s[1..])
    else [x] + s
  }

  lemma {:induction false} InsertMemberSorts(x: Located, s: seq<Located>)
    requires MembersSorted(s)
    ensures multiset(InsertMember(x, s)) == multiset(s) + multiset{x}
    ensures MembersSorted(InsertMember(x, s))
  {
    if s != [] {
      assert s == [s[0]] + s[1..];
      if MemberLess(s[0], x) {
        InsertMemberSorts(x, s[1..]);
        var r := InsertMember(x, s[1..]);
        forall j | 0 <= j < |r| ensures !MemberLess(r[j], s[0]) {
          assert r[j] in multiset(r);
          assert r[j] == x || r[j] in s[1..];
          MemberLessIsWeakOrder(s[0], x, x);
        }
      } else {
        forall j | 0 <= j < |s| ensures !MemberLess(s[j], x) {
          MemberLessIsWeakOrder(s[j], s[0], x);
        }
      }
    }
  }

  /** Some sorted permutation; members of equal type and source name may come in any order. */
  method SortMembers(s: seq<Located>) returns (r: seq<Located>)
    ensures multiset(r) == multiset(s) && MembersSorted(r)
  {
    r := [];
    for i := 0 to |s|
      invariant multiset(r) == multiset(s[..i]) && MembersSorted(r)
    {
      assert s[..i + 1] == s[..i] + [s[i]];
      InsertMemberSorts(s[i], r);
      r := InsertMember(s[i], r);
    }
    assert s[..|s|] == s;
  }

  function InsertGroup(g: Group, gs: seq<Group>): seq<Group> {
    if gs == [] then [g]
    else if Priority(gs[0].key) < Priority(g.key) then [gs[0]] + InsertGroup(g, gs[1..])
    else [g] + gs
  }

  lemma {:induction false} InsertGroupAddsOne(g: Group, gs: seq<Group>)
    ensures multiset(InsertGroup(g, gs)) == multiset(gs) + multiset{g}
  {
    if gs != [] {
      InsertGroupAddsOne(g, gs[1..]);
      assert gs == [gs[0]] + gs[1..];
    }
  }

  lemma {:induction false} InsertGroupSorts(g: Group, gs: seq<Group>)
    requires GroupsSorted(gs)
    ensures GroupsSorted(InsertGroup(g, gs))
  {
    if gs != [] && Priority(gs[0].key) < Priority(g.key) {
      InsertGroupSorts(g, gs[1..]);
      var r := InsertGroup(g, gs[1..]);
      InsertGroupAddsOne(g, gs[1..]);
      forall j | 0 <= j < |r| ensures Priority(gs[0].key) <= Priority(r[j].key) {
        assert r[j] in multiset(r);
        assert r[j] == g || r[j] in gs[1..];
      }
    }
  }

  /** Some permutation sorted by priority; groups of equal priority may come in any order. */
  method SortGroups(gs: seq<Group>) returns (r: seq<Group>)
    ensures multiset(r) == multiset(gs) && GroupsSorted(r)
  {
    r := [];
    for i := 0 to |gs|
      invariant multiset(r) == multiset(gs[..i]) && GroupsSorted(r)
    {
      assert gs[..i + 1] == gs[..i] + [gs[i]];
      InsertGroupAddsOne(gs[i], r);
      InsertGroupSorts(gs[i], r);
      r := InsertGroup(gs[i], r);
    }
    assert gs[..|gs|] == gs;
  }

  lemma {:induction false} DistinctKeysOccurOnce(gs: seq<Group>, k: nat)
    requires DistinctKeys(gs) && k < |gs|
    ensures multiset(gs)[gs[k]] == 1
  {
    assert gs == gs[..k] + [gs[k]] + gs[k + 1..];
    assert gs[k] !in gs[..k] && gs[k] !in gs[k + 1..];
  }

  lemma {:induction false} PermutationKeepsDistinctKeys(gs: seq<Group>, r: seq<Group>)
    requires DistinctKeys(gs) && multiset(r) == multiset(gs)
    ensures DistinctKeys(r)
  {
    forall i, j | 0 <= i < j < |r| ensures r[i].key != r[j].key {
      assert r[i] in multiset(gs) && r[j] in multiset(gs);
      var k :| 0 <= k < |gs| && gs[k] == r[i];
      DistinctKeysOccurOnce(gs, k);
      assert r == r[..j] + [r[j]] + r[j + 1..];
      assert r[i] in r[..j];
      assert multiset(r) >= multiset{r[i]} + multiset{r[j]};
    }
  }

  lemma {:induction false} PermutationKeepsGrouping(xs: seq<Located>, gs: seq<Group>, r: seq<Group>)
    requires IsGrouping(xs, gs) && multiset(r) == multiset(gs)
    ensures IsGrouping(xs, r)
  {
    PermutationKeepsDistinctKeys(gs, r);
    forall g ensures g in r <==> g in gs {
      assert g in r <==> g in multiset(r);
    }
    forall x | x in xs ensures HasKey(r, KeyOf(x)) {
      var k :| 0 <= k < |gs| && gs[k].key == KeyOf(x);
      assert gs[k] in r;
    }
  }

  /** Rearranging the members of the first group is still a grouping. */
  lemma {:induction false} SortingTheTopKeepsGrouping(xs: seq<Located>, gs: seq<Group>, top: seq<Located>)
    requires IsGrouping(xs, gs) && gs != [] && multiset(top) == multiset(gs[0].members)
    ensures IsGrouping(xs, gs[0 := Group(gs[0].key, top)])
  {
    var r := gs[0 := Group(gs[0].key, top)];
    assert gs[0] in gs && |multiset(top)| == |multiset(gs[0].members)|;
    assert forall k | 0 <= k < |gs| :: r[k].key == gs[k].key;
    forall x | x in xs ensures HasKey(r, KeyOf(x)) {
      var k :| 0 <= k < |gs| && gs[k].key == KeyOf(x);
      assert r[k].key == KeyOf(x);
    }
  }

  lemma {:induction false} NonNilAppend(cs: seq<Candidate>, i: nat)
    requires i < |cs|
    ensures NonNil(cs[..i + 1]) == if cs[i].condition.Some?
                                   then NonNil(cs[..i]) + [Located(cs[i].condition.value, cs[i].from)]
                                   else NonNil(cs[..i])
  {
    assert cs[..i + 1][..i] == cs[..i];
  }

  lemma {:induction false} ClassAppend(xs: seq<Located>, x: Located, key: Key)
    ensures ClassOf(xs + [x], key) == ClassOf(xs, key) + if KeyOf(x) == key then [x] else []
  {
    assert (xs + [x])[..|xs|] == xs;
  }

  /** The groups while they are being built: each holds its class so far, in input order. */
  ghost predicate Building(xs: seq<Located>, gs: seq<Group>) {
    && DistinctKeys(gs)
    && (forall i | 0 <= i < |gs| :: gs[i].members == ClassOf(xs, gs[i].key) && gs[i].members != [])
    && (forall x | x in xs :: HasKey(gs, KeyOf(x)))
  }

  lemma {:induction false} JoinGroup(xs: seq<Located>, gs: seq<Group>, x: Located, i: nat)
    requires Building(xs, gs) && i < |gs| && gs[i].key == KeyOf(x)
    ensures Building(xs + [x], gs[i := Group(gs[i].key, gs[i].members + [x])])
  {
    var r := gs[i := Group(gs[i].key, gs[i].members + [x])];
    forall j | 0 <= j < |r| ensures r[j].members == ClassOf(xs + [x], r[j].key) && r[j].members != [] {
      ClassAppend(xs, x, r[j].key);
    }
    forall y | y in xs + [x] ensures HasKey(r, KeyOf(y)) {
      var j :| 0 <= j < |gs| && gs[j].key == if y == x then gs[i].key else KeyOf(y);
      assert r[j].key == KeyOf(y);
    }
  }

  lemma {:induction false} ClassOfNobody(xs: seq<Located>, key: Key)
    requires forall x | x in xs :: KeyOf(x) != key
    ensures ClassOf(xs, key) == []
  {
    if xs != [] {
      ClassOfNobody(xs[..|xs| - 1], key);
    }
  }

  lemma {:induction false} NewGroup(xs: seq<Located>, gs: seq<Group>, x: Located)
    requires Building(xs, gs) && forall i | 0 <= i < |gs| :: gs[i].key != KeyOf(x)
    ensures Building(xs + [x], gs + [Group(KeyOf(x), [x])])
  {
    var r := gs + [Group(KeyOf(x), [x])];
    forall y | y in xs ensures KeyOf(y) != KeyOf(x) {
      assert HasKey(gs, KeyOf(y));
    }
    ClassOfNobody(xs, KeyOf(x));
    forall j | 0 <= j < |r| ensures r[j].members == ClassOf(xs + [x], r[j].key) && r[j].members != [] {
      ClassAppend(xs, x, r[j].key);
    }
    forall y | y in xs + [x] ensures HasKey(r, KeyOf(y)) {
      if y == x {
        assert r[|gs|].key == KeyOf(y);
      } else {
        var k :| 0 <= k < |gs| && gs[k].key == KeyOf(y);
        assert r[k].key == KeyOf(y);
      }
    }
  }

  /** What grouping and sorting leave: see IsGrouping; sorted by priority, the first group sorted inside. */
  ghost predicate IsSortedGrouping(xs: seq<Located>, gs: seq<Group>) {
    && IsGrouping(xs, gs) && GroupsSorted(gs)
    && (gs != [] ==> MembersSorted(gs[0].members))
  }

  /** Puts a condition in the group of its class, or in a new group at the end. */
  method AddToGroups(groups: seq<Group>, x: Located, ghost xs: seq<Located>) returns (r: seq<Group>)
    requires Building(xs, groups)
    ensures Building(xs + [x], r)
  {
    for i := 0 to |groups|
      invariant forall j | 0 <= j < i :: groups[j].key != KeyOf(x)
    {
      if groups[i].key == KeyOf(x) {
        JoinGroup(xs, groups, x, i);
        return groups[i := Group(groups[i].key, groups[i].members + [x])];
      }
    }
    NewGroup(xs, groups, x);
    r := groups + [Group(KeyOf(x), [x])];
  }

  method GetConditionGroups(conditions: seq<Candidate>) returns (groups: seq<Group>)
    ensures IsSortedGrouping(NonNil(conditions), groups)
  {
    groups := [];
    for n := 0 to |conditions|
      invariant Building(NonNil(conditions[..n]), groups)
    {
      NonNilAppend(conditions, n);
      if conditions[n].condition.None? {
        continue;
      }
      var x := Located(conditions[n].condition.value, conditions[n].from);
      groups := AddToGroups(groups, x, NonNil(conditions[..n]));
    }
    assert conditions[..|conditions|] == conditions;
    BuildingIsGrouping(NonNil(conditions), groups);
    var sorted := SortGroups(groups);
    PermutationKeepsGrouping(NonNil(conditions), groups, sorted);
    groups := sorted;
    if groups != [] {
      var top := SortMembers(groups[0].members);
      SortingTheTopKeepsGrouping(NonNil(conditions), groups, top);
      groups := groups[0 := Group(groups[0].key, top)];
    }
  }

  lemma {:induction false} BuildingIsGrouping(xs: seq<Located>, gs: seq<Group>)
    requires Building(xs, gs)
    ensures IsGrouping(xs, gs)
  {}

  function Flatten(gs: seq<Group>): seq<Located> {
    if gs == [] then [] else gs[0].members + Flatten(gs[1..])
  }

  lemma {:induction false} HasKeyUnfolds(gs: seq<Group>, key: Key)
    requires gs != []
    ensures HasKey(gs, key) <==> gs[0].key == key || HasKey(gs[1..], key)
  {
    assert forall i | 0 <= i < |gs| - 1 :: gs[1..][i] == gs[i + 1];
    if HasKey(gs, key) && gs[0].key != key {
      var k :| 0 <= k < |gs| && gs[k].key == key;
      assert gs[1..][k - 1].key == key;
    }
  }

  lemma {:induction false} FlattenCounts(xs: seq<Located>, gs: seq<Group>, x: Located)
    requires DistinctKeys(gs)
    requires forall i | 0 <= i < |gs| :: multiset(gs[i].members) == multiset(ClassOf(xs, gs[i].key))
    ensures multiset(Flatten(gs))[x] ==
            if HasKey(gs, KeyOf(x)) then multiset(ClassOf(xs, KeyOf(x)))[x] else 0
  {
    if gs != [] {
      var h := gs[0];
      FlattenCounts(xs, gs[1..], x);
      HasKeyUnfolds(gs, KeyOf(x));
      ClassMembers(xs, h.key);
      assert x in multiset(h.members) ==> x in ClassOf(xs, h.key);
    }
  }

  lemma {:induction false} ClassCounts(xs: seq<Located>, x: Located)
    ensures multiset(ClassOf(xs, KeyOf(x)))[x] == multiset(xs)[x]
  {
    if xs != [] {
      var n := |xs| - 1;
      ClassCounts(xs[..n], x);
      assert xs == xs[..n] + [xs[n]];
    }
  }

  /** Grouping conserves: together the groups hold exactly the conditions that went in. */
  lemma {:induction false} GroupingConserves(xs: seq<Located>, gs: seq<Group>)
    requires IsGrouping(xs, gs)
    ensures multiset(Flatten(gs)) == multiset(xs)
  {
    forall x ensures multiset(Flatten(gs))[x] == multiset(xs)[x] {
      assert forall i | 0 <= i < |gs| :: gs[i] in gs;
      FlattenCounts(xs, gs, x);
      ClassCounts(xs, x);
      if x in multiset(xs) {
        assert x in xs;
      }
    }
  }
}
