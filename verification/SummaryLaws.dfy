/** Grouping, sorting and selecting, against the plain description: the condition of least priority value, the
    most preferred type, then the canonical order. */
module SummaryLaws {
  import opened Api
  import opened Ordering
  import opened Groups
  import opened Summary

  /** Position of a type in the order of preference; unlisted types come last. */
  function Rank(order: seq<ConditionType>, t: ConditionType): nat {
    if order == [] then 0
    else if order[0] == t then 0
    else 1 + Rank(order[1..], t)
  }

  predicate ChosenBefore(x: Located, y: Located, order: seq<ConditionType>) {
    var i, j := Rank(order, x.c.typ), Rank(order, y.c.typ);
    i < j || (i == j && MemberLess(x, y))
  }

  /** `x` may stand for `xs`: nothing has a lower priority value, and nothing of its class is preferred. */
  predicate IsRepresentative(x: Located, xs: seq<Located>, order: seq<ConditionType>) {
    && x in xs
    && (forall y | y in xs :: Priority(KeyOf(x)) <= Priority(KeyOf(y)))
    && forall y | y in xs && KeyOf(y) == KeyOf(x) :: !ChosenBefore(y, x, order)
  }

  // Selection inside a group.

  lemma {:induction false} FindTypeFindsFirst(members: seq<Located>, t: ConditionType)
    ensures FindType(members, t).None? ==> forall y | y in members :: y.c.typ != t
    ensures FindType(members, t).Some? ==>
              exists i :: 0 <= i < |members| && members[i] == FindType(members, t).value && members[i].c.typ == t
                          && forall j | 0 <= j < i :: members[j].c.typ != t
  {
    if members != [] {
      if members[0].c.typ != t {
        FindTypeFindsFirst(members[1..], t);
        if FindType(members[1..], t).Some? {
          var i :| 0 <= i < |members[1..]| && members[1..][i] == FindType(members, t).value && members[1..][i].c.typ == t
                   && forall j | 0 <= j < i :: members[1..][j].c.typ != t;
          assert members[i + 1] == members[1..][i];
          assert forall j | 0 <= j < i + 1 :: members[j].c.typ != t by {
            forall j | 0 < j < i + 1 ensures members[j].c.typ != t { assert members[j] == members[1..][j - 1]; }
          }
        }
      } else {
        assert members[0] == FindType(members, t).value;
      }
    }
  }

  lemma {:induction false} FoundFirstIsChosen(members: seq<Located>, order: seq<ConditionType>)
    requires MembersSorted(members)
    ensures FindFirst(members, order).None? ==> forall y | y in members :: Rank(order, y.c.typ) == |order|
    ensures FindFirst(members, order).Some? ==>
              var x := FindFirst(members, order).value;
              x in members && Rank(order, x.c.typ) < |order| && forall y | y in members :: !ChosenBefore(y, x, order)
  {
    if order != [] {
      var t := order[0];
      FindTypeFindsFirst(members, t);
      if FindType(members, t).Some? {
        var i :| 0 <= i < |members| && members[i] == FindType(members, t).value && members[i].c.typ == t
                 && forall j | 0 <= j < i :: members[j].c.typ != t;
        forall y | y in members ensures !ChosenBefore(y, members[i], order) {
          MemberLessIsWeakOrder(y, y, y);
        }
      } else {
        FoundFirstIsChosen(members, order[1..]);
      }
    }
  }

  /** The member the code picks is the one preferred over all others of its group. */
  lemma {:induction false} FirstMemberIsChosen(members: seq<Located>, order: seq<ConditionType>)
    requires MembersSorted(members) && members != []
    ensures var x := FirstMember(members, order);
            x in members && forall y | y in members :: !ChosenBefore(y, x, order)
  {
    FoundFirstIsChosen(members, order);
    MemberLessIsWeakOrder(members[0], members[0], members[0]);
  }

  // Counting.

  lemma {:induction false} TrueCountIsClassSize(xs: seq<Located>, gs: seq<Group>)
    requires forall i | 0 <= i < |gs| :: multiset(gs[i].members) == multiset(ClassOf(xs, gs[i].key))
    ensures TrueCount(gs) == if HasKey(gs, TRUE_KEY) then |ClassOf(xs, TRUE_KEY)| else 0
  {
    if gs != [] {
      HasKeyUnfolds(gs, TRUE_KEY);
      if gs[0].key == TRUE_KEY {
        assert |multiset(gs[0].members)| == |multiset(ClassOf(xs, TRUE_KEY))|;
      } else {
        TrueCountIsClassSize(xs, gs[1..]);
      }
    }
  }

  lemma {:induction false} TrueCountOfGrouping(xs: seq<Located>, gs: seq<Group>)
    requires IsGrouping(xs, gs)
    ensures TrueCount(gs) == |ClassOf(xs, TRUE_KEY)|
  {
    assert forall i | 0 <= i < |gs| :: gs[i] in gs;
    TrueCountIsClassSize(xs, gs);
    if !HasKey(gs, TRUE_KEY) {
      forall x | x in xs ensures KeyOf(x) != TRUE_KEY {
        assert HasKey(gs, KeyOf(x));
      }
      ClassOfNobody(xs, TRUE_KEY);
    }
  }

  // What merging gives.

  /** The result read off the conditions, without groups. */
  ghost predicate StandsFor(
    x: Located, xs: seq<Located>, target: ConditionType, o: MergeOptions, fmt: Formatter, r: Option<Condition>)
  {
    IsRepresentative(x, xs, o.Order()) && r == Some(Render(x, |ClassOf(xs, TRUE_KEY)|, target, o, fmt))
  }

  lemma {:induction false} MembersAreTheClass(xs: seq<Located>, gs: seq<Group>, k: nat)
    requires IsGrouping(xs, gs) && k < |gs|
    ensures gs[k].members != []
    ensures forall y :: y in gs[k].members <==> y in xs && KeyOf(y) == gs[k].key
  {
    assert gs[k] in gs;
    ClassMembers(xs, gs[k].key);
    forall y ensures y in gs[k].members <==> y in ClassOf(xs, gs[k].key) {
      assert y in multiset(gs[k].members) <==> y in multiset(ClassOf(xs, gs[k].key));
    }
  }

  lemma {:induction false} TopFirstIsRepresentative(xs: seq<Located>, gs: seq<Group>, order: seq<ConditionType>)
    requires IsSortedGrouping(xs, gs) && gs != []
    ensures gs[0].members != []
    ensures var x := FirstMember(gs[0].members, order); KeyOf(x) == gs[0].key && IsRepresentative(x, xs, order)
  {
    MembersAreTheClass(xs, gs, 0);
    FirstMemberIsChosen(gs[0].members, order);
    forall y | y in xs ensures Priority(gs[0].key) <= Priority(KeyOf(y)) {
      assert HasKey(gs, KeyOf(y));
    }
  }

  /** Whatever the sorts do with ties, the result is the rendering of a representative, and nothing comes of
      nothing only. */
  lemma {:induction false} MergeRendersRepresentative(
    xs: seq<Located>, gs: seq<Group>, target: ConditionType, o: MergeOptions, fmt: Formatter)
    requires IsSortedGrouping(xs, gs)
    ensures xs == [] ==> MergeGroups(gs, target, o, fmt) == None
    ensures xs != [] ==> exists x :: StandsFor(x, xs, target, o, fmt, MergeGroups(gs, target, o, fmt))
  {
    assert xs == [] || HasKey(gs, KeyOf(xs[0]));
    if gs != [] {
      MembersAreTheClass(xs, gs, 0);
      TopFirstIsRepresentative(xs, gs, o.Order());
      TrueCountOfGrouping(xs, gs);
      var x := FirstMember(gs[0].members, o.Order());
      assert StandsFor(x, xs, target, o, fmt, MergeGroups(gs, target, o, fmt));
    }
  }

  lemma {:induction false} ResultRendersRepresentative(
    xs: seq<Located>, target: ConditionType, o: MergeOptions, fmt: Formatter, r: Option<Condition>)
    requires MergesInto(xs, target, o, fmt, r)
    ensures xs == [] ==> r == None
    ensures xs != [] ==> exists x :: StandsFor(x, xs, target, o, fmt, r)
  {
    var gs: seq<Group> :| IsSortedGrouping(xs, gs) && r == MergeGroups(gs, target, o, fmt);
    MergeRendersRepresentative(xs, gs, target, o, fmt);
  }

  // Conversely, every representative can come out: the sorts leave the choice open.

  lemma {:induction false} GroupingExists(xs: seq<Located>) returns (gs: seq<Group>)
    ensures Building(xs, gs)
  {
    gs := [];
    if xs != [] {
      var n := |xs| - 1;
      gs := GroupingExists(xs[..n]);
      assert xs == xs[..n] + [xs[n]];
      if i :| 0 <= i < |gs| && gs[i].key == KeyOf(xs[n]) {
        JoinGroup(xs[..n], gs, xs[n], i);
        gs := gs[i := Group(gs[i].key, gs[i].members + [xs[n]])];
      } else {
        NewGroup(xs[..n], gs, xs[n]);
        gs := gs + [Group(KeyOf(xs[n]), [xs[n]])];
      }
    }
  }

  lemma {:induction false} SortedGroupsExist(gs: seq<Group>) returns (r: seq<Group>)
    ensures multiset(r) == multiset(gs) && GroupsSorted(r)
  {
    r := [];
    if gs != [] {
      var t := SortedGroupsExist(gs[1..]);
      InsertGroupAddsOne(gs[0], t);
      InsertGroupSorts(gs[0], t);
      assert gs == [gs[0]] + gs[1..];
      r := InsertGroup(gs[0], t);
    }
  }

  lemma {:induction false} SortedMembersExist(s: seq<Located>) returns (r: seq<Located>)
    ensures multiset(r) == multiset(s) && MembersSorted(r)
  {
    r := [];
    if s != [] {
      var t := SortedMembersExist(s[1..]);
      InsertMemberSorts(s[0], t);
      assert s == [s[0]] + s[1..];
      r := InsertMember(s[0], t);
    }
  }

  lemma {:induction false} RemovingKeepsSorted(gs: seq<Group>, k: nat)
    requires GroupsSorted(gs) && k < |gs|
    ensures GroupsSorted(gs[..k] + gs[k + 1..])
  {
    var rest := gs[..k] + gs[k + 1..];
    forall i, j | 0 <= i < j < |rest| ensures Priority(rest[i].key) <= Priority(rest[j].key) {
      var i', j' := if i < k then i else i + 1, if j < k then j else j + 1;
      assert rest[i] == gs[i'] && rest[j] == gs[j'];
    }
  }

  lemma {:induction false} LeastGoesFirst(g: Group, rest: seq<Group>)
    requires GroupsSorted(rest) && forall h | h in rest :: Priority(g.key) <= Priority(h.key)
    ensures GroupsSorted([g] + rest)
  {
    var r := [g] + rest;
    forall i, j | 0 <= i < j < |r| ensures Priority(r[i].key) <= Priority(r[j].key) {
      assert r[j] == rest[j - 1] && r[j] in rest;
    }
  }

  lemma {:induction false} GroupInFront(gs: seq<Group>, k: nat) returns (r: seq<Group>)
    requires GroupsSorted(gs) && k < |gs|
    requires forall g | g in gs :: Priority(gs[k].key) <= Priority(g.key)
    ensures multiset(r) == multiset(gs) && GroupsSorted(r) && r != [] && r[0] == gs[k]
  {
    var rest := gs[..k] + gs[k + 1..];
    r := [gs[k]] + rest;
    assert gs == gs[..k] + [gs[k]] + gs[k + 1..];
    RemovingKeepsSorted(gs, k);
    LeastGoesFirst(gs[k], rest);
  }

  lemma {:induction false} InsertedComesBeforeItsTies(x: Located, s: seq<Located>) returns (i: nat)
    requires MembersSorted(s)
    ensures i < |InsertMember(x, s)| && InsertMember(x, s)[i] == x
    ensures forall j | 0 <= j < i :: MemberLess(InsertMember(x, s)[j], x)
  {
    i := 0;
    if s != [] && MemberLess(s[0], x) {
      i := InsertedComesBeforeItsTies(x, s[1..]);
      i := i + 1;
    }
  }

  lemma {:induction false} FirstOfItsTypeIsFound(members: seq<Located>, i: nat)
    requires i < |members| && forall j | 0 <= j < i :: members[j].c.typ != members[i].c.typ
    ensures FindType(members, members[i].c.typ) == Some(members[i])
  {
    if i > 0 {
      FirstOfItsTypeIsFound(members[1..], i - 1);
    }
  }

  lemma {:induction false} ChosenIsFoundFirst(members: seq<Located>, i: nat, order: seq<ConditionType>)
    requires i < |members|
    requires forall j | 0 <= j < i :: members[j].c.typ != members[i].c.typ
    requires forall y | y in members :: Rank(order, members[i].c.typ) <= Rank(order, y.c.typ)
    ensures FindFirst(members, order) == if Rank(order, members[i].c.typ) < |order| then Some(members[i]) else None
  {
    if order != [] {
      FindTypeFindsFirst(members, order[0]);
      if order[0] == members[i].c.typ {
        FirstOfItsTypeIsFound(members, i);
      } else {
        ChosenIsFoundFirst(members, i, order[1..]);
      }
    }
  }

  lemma {:induction false} PreferredMemberComesFirst(
    cls: seq<Located>, x: Located, order: seq<ConditionType>) returns (s: seq<Located>)
    requires x in cls && forall y | y in cls :: !ChosenBefore(y, x, order)
    ensures multiset(s) == multiset(cls) && MembersSorted(s) && s != [] && FirstMember(s, order) == x
  {
    var k :| 0 <= k < |cls| && cls[k] == x;
    var rest := SortedMembersExist(cls[..k] + cls[k + 1..]);
    assert cls == cls[..k] + [x] + cls[k + 1..];
    InsertMemberSorts(x, rest);
    s := InsertMember(x, rest);
    assert multiset(s) == multiset(cls);
    var i := InsertedComesBeforeItsTies(x, rest);
    forall y | y in s ensures !ChosenBefore(y, x, order) {
      assert y in multiset(cls);
    }
    forall j | 0 <= j < i ensures s[j].c.typ != x.c.typ {
      assert s[j] in s;
    }
    forall y | y in s ensures Rank(order, x.c.typ) <= Rank(order, y.c.typ) {
      assert !ChosenBefore(y, x, order);
    }
    ChosenIsFoundFirst(s, i, order);
    RankIsBounded(order, s[0].c.typ);
    assert !ChosenBefore(s[0], x, order);
  }

  lemma {:induction false} RankIsBounded(order: seq<ConditionType>, t: ConditionType)
    ensures Rank(order, t) <= |order|
    ensures Rank(order, t) < |order| <==> t in order
  {
    if order != [] && order[0] != t {
      RankIsBounded(order[1..], t);
      assert order == [order[0]] + order[1..];
    }
  }

  lemma {:induction false} ClassInFront(xs: seq<Located>, key: Key) returns (gs: seq<Group>)
    requires exists x :: x in xs && KeyOf(x) == key
    requires forall y | y in xs :: Priority(key) <= Priority(KeyOf(y))
    ensures IsGrouping(xs, gs) && GroupsSorted(gs) && gs != [] && gs[0].key == key
  {
    var x :| x in xs && KeyOf(x) == key;
    var built := GroupingExists(xs);
    BuildingIsGrouping(xs, built);
    var sorted := SortedGroupsExist(built);
    PermutationKeepsGrouping(xs, built, sorted);
    assert HasKey(sorted, KeyOf(x));
    var k :| 0 <= k < |sorted| && sorted[k].key == key;
    forall g | g in sorted ensures Priority(key) <= Priority(g.key) {
      var j :| 0 <= j < |sorted| && sorted[j] == g;
      MembersAreTheClass(xs, sorted, j);
      assert g.members[0] in g.members;
    }
    gs := GroupInFront(sorted, k);
    PermutationKeepsGrouping(xs, sorted, gs);
  }

  lemma {:induction false} RerankedTopIsSortedGrouping(xs: seq<Located>, gs: seq<Group>, top: seq<Located>)
    requires IsGrouping(xs, gs) && GroupsSorted(gs) && gs != []
    requires multiset(top) == multiset(gs[0].members) && MembersSorted(top)
    ensures IsSortedGrouping(xs, gs[0 := Group(gs[0].key, top)])
  {
    SortingTheTopKeepsGrouping(xs, gs, top);
    var r := gs[0 := Group(gs[0].key, top)];
    forall i, j | 0 <= i < j < |r| ensures Priority(r[i].key) <= Priority(r[j].key) {
      assert r[i].key == gs[i].key && r[j].key == gs[j].key;
    }
  }

  /** Every representative is the outcome of some sort. */
  lemma {:induction false} RepresentativeCanComeOut(
    x: Located, xs: seq<Located>, target: ConditionType, o: MergeOptions, fmt: Formatter, r: Option<Condition>)
    requires StandsFor(x, xs, target, o, fmt, r)
    ensures MergesInto(xs, target, o, fmt, r)
  {
    var gs := ClassInFront(xs, KeyOf(x));
    MembersAreTheClass(xs, gs, 0);
    var top := PreferredMemberComesFirst(gs[0].members, x, o.Order());
    RerankedTopIsSortedGrouping(xs, gs, top);
    var final := gs[0 := Group(gs[0].key, top)];
    TrueCountOfGrouping(xs, final);
    assert r == MergeGroups(final, target, o, fmt);
  }

  ghost predicate OneResult(xs: seq<Located>, target: ConditionType, o: MergeOptions, fmt: Formatter) {
    forall r, r' | MergesInto(xs, target, o, fmt, r) && MergesInto(xs, target, o, fmt, r') :: r == r'
  }

  ghost predicate RepresentativesReadTheSame(xs: seq<Located>, target: ConditionType, o: MergeOptions, fmt: Formatter) {
    forall x, y | IsRepresentative(x, xs, o.Order()) && IsRepresentative(y, xs, o.Order()) ::
      Render(x, |ClassOf(xs, TRUE_KEY)|, target, o, fmt) == Render(y, |ClassOf(xs, TRUE_KEY)|, target, o, fmt)
  }

  /** Merging is unambiguous exactly when all representatives read the same. */
  lemma {:induction false} MergeIsDeterminedIff(
    xs: seq<Located>, target: ConditionType, o: MergeOptions, fmt: Formatter)
    requires xs != []
    ensures OneResult(xs, target, o, fmt) <==> RepresentativesReadTheSame(xs, target, o, fmt)
  {
    var n := |ClassOf(xs, TRUE_KEY)|;
    if OneResult(xs, target, o, fmt) {
      forall x, y | IsRepresentative(x, xs, o.Order()) && IsRepresentative(y, xs, o.Order())
        ensures Render(x, n, target, o, fmt) == Render(y, n, target, o, fmt)
      {
        var r, r' := Some(Render(x, n, target, o, fmt)), Some(Render(y, n, target, o, fmt));
        RepresentativeCanComeOut(x, xs, target, o, fmt, r);
        RepresentativeCanComeOut(y, xs, target, o, fmt, r');
        assert r == r';
      }
    }
    if RepresentativesReadTheSame(xs, target, o, fmt) {
      forall r, r' | MergesInto(xs, target, o, fmt, r) && MergesInto(xs, target, o, fmt, r') ensures r == r' {
        ResultRendersRepresentative(xs, target, o, fmt, r);
        ResultRendersRepresentative(xs, target, o, fmt, r');
        var x :| StandsFor(x, xs, target, o, fmt, r);
        var y :| StandsFor(y, xs, target, o, fmt, r');
      }
    }
  }

  // When the input leaves one representative only.

  /** The severity fits the status: one of the three exactly when the status is False. */
  predicate WellFormed(c: Condition) {
    match c.state.status
    case StatusFalse => c.state.severity in {SeverityError, SeverityWarning, SeverityInfo}
    case StatusOther(_) => false
    case _ => c.state.severity == SeverityNone
  }

  /** What has least priority value is of one status and severity. */
  predicate OneTopClass(xs: seq<Located>) {
    forall x, y | x in xs && y in xs :: Priority(KeyOf(x)) != Priority(KeyOf(y)) || KeyOf(x) == KeyOf(y)
  }

  predicate DistinctNames(xs: seq<Located>) {
    forall x, y | x in xs && y in xs :: x.c.typ == y.c.typ && x.from.name == y.from.name ==> x == y
  }

  lemma {:induction false} WellFormedHasOneTopClass(xs: seq<Located>)
    requires forall x | x in xs :: WellFormed(x.c)
    ensures OneTopClass(xs)
  {}

  lemma {:induction false} RepresentativeIsUnique(x: Located, y: Located, xs: seq<Located>, order: seq<ConditionType>)
    requires OneTopClass(xs) && DistinctNames(xs)
    requires IsRepresentative(x, xs, order) && IsRepresentative(y, xs, order)
    ensures x == y
  {
    assert Priority(KeyOf(x)) <= Priority(KeyOf(y)) && Priority(KeyOf(y)) <= Priority(KeyOf(x));
    assert !ChosenBefore(x, y, order) && !ChosenBefore(y, x, order);
    MemberLessIsWeakOrder(x, y, x);
  }

  predicate Better(x: Located, y: Located, order: seq<ConditionType>) {
    var p, q := Priority(KeyOf(x)), Priority(KeyOf(y));
    p < q || (p == q && ChosenBefore(x, y, order))
  }

  /** The one-pass description: keep the best so far. */
  function Best(xs: seq<Located>, order: seq<ConditionType>): Located
    requires xs != []
  {
    var n := |xs| - 1;
    if n == 0 then xs[0]
    else if Better(xs[n], Best(xs[..n], order), order) then xs[n]
    else Best(xs[..n], order)
  }

  lemma {:induction false} BetterIsWeakOrder(x: Located, y: Located, z: Located, order: seq<ConditionType>)
    ensures !(Better(x, y, order) && Better(y, x, order))
    ensures Better(x, z, order) ==> Better(x, y, order) || Better(y, z, order)
  {
    MemberLessIsWeakOrder(x, y, z);
  }

  lemma {:induction false} BestIsLeast(xs: seq<Located>, order: seq<ConditionType>)
    requires xs != []
    ensures Best(xs, order) in xs && forall y | y in xs :: !Better(y, Best(xs, order), order)
  {
    var n := |xs| - 1;
    var last := xs[n];
    assert xs == xs[..n] + [last];
    if n == 0 {
      BetterIsWeakOrder(last, last, last, order);
    } else {
      BestIsLeast(xs[..n], order);
      var b := Best(xs[..n], order);
      forall y | y in xs ensures !Better(y, Best(xs, order), order) {
        BetterIsWeakOrder(last, last, last, order);
        BetterIsWeakOrder(y, b, last, order);
        BetterIsWeakOrder(b, last, b, order);
      }
    }
  }

  lemma {:induction false} BestIsRepresentative(xs: seq<Located>, order: seq<ConditionType>)
    requires xs != []
    ensures IsRepresentative(Best(xs, order), xs, order)
  {
    BestIsLeast(xs, order);
  }

  /** Grouping, sorting and selecting refine the one pass: with well-formed severities, or just one class of
      least priority value, and distinct names, the result is the rendering of the best condition. */
  lemma {:induction false} MergeIsBest(
    xs: seq<Located>, target: ConditionType, o: MergeOptions, fmt: Formatter, r: Option<Condition>)
    requires xs != [] && OneTopClass(xs) && DistinctNames(xs)
    ensures MergesInto(xs, target, o, fmt, r) <==>
            r == Some(Render(Best(xs, o.Order()), |ClassOf(xs, TRUE_KEY)|, target, o, fmt))
  {
    var b := Best(xs, o.Order());
    BestIsRepresentative(xs, o.Order());
    if MergesInto(xs, target, o, fmt, r) {
      ResultRendersRepresentative(xs, target, o, fmt, r);
      var x :| StandsFor(x, xs, target, o, fmt, r);
      RepresentativeIsUnique(x, b, xs, o.Order());
    }
    if r == Some(Render(b, |ClassOf(xs, TRUE_KEY)|, target, o, fmt)) {
      RepresentativeCanComeOut(b, xs, target, o, fmt, r);
    }
  }

  lemma {:induction false} ClassSizeOfPermutation(xs: seq<Located>, ys: seq<Located>, key: Key)
    requires multiset(xs) == multiset(ys)
    ensures |ClassOf(xs, key)| == |ClassOf(ys, key)|
  {
    forall x ensures multiset(ClassOf(xs, key))[x] == multiset(ClassOf(ys, key))[x] {
      if KeyOf(x) == key {
        ClassCounts(xs, x);
        ClassCounts(ys, x);
      } else {
        ClassMembers(xs, key);
        ClassMembers(ys, key);
        assert x !in ClassOf(xs, key) && x !in ClassOf(ys, key);
      }
    }
    assert multiset(ClassOf(xs, key)) == multiset(ClassOf(ys, key));
    assert |multiset(ClassOf(xs, key))| == |multiset(ClassOf(ys, key))|;
  }

  /** The order of the input does not matter, whatever the sorts do with ties and whichever group is seen first. */
  lemma {:induction false} MergeIgnoresInputOrder(
    xs: seq<Located>, gs: seq<Group>, ys: seq<Located>, hs: seq<Group>,
    target: ConditionType, o: MergeOptions, fmt: Formatter)
    requires multiset(xs) == multiset(ys) && OneTopClass(xs) && DistinctNames(xs)
    requires IsSortedGrouping(xs, gs) && IsSortedGrouping(ys, hs)
    ensures MergeGroups(gs, target, o, fmt) == MergeGroups(hs, target, o, fmt)
  {
    var r, r' := MergeGroups(gs, target, o, fmt), MergeGroups(hs, target, o, fmt);
    forall x ensures x in xs <==> x in ys {
      assert x in multiset(xs) <==> x in multiset(ys);
    }
    ClassSizeOfPermutation(xs, ys, TRUE_KEY);
    MergeRendersRepresentative(xs, gs, target, o, fmt);
    MergeRendersRepresentative(ys, hs, target, o, fmt);
    if xs == [] {
      assert |multiset(ys)| == 0;
    } else {
      assert ys != [];
      var x :| StandsFor(x, xs, target, o, fmt, r);
      var y :| StandsFor(y, ys, target, o, fmt, r');
      RepresentativeIsUnique(x, y, xs, o.Order());
    }
  }

  predicate SameMembers(xs: seq<Located>, ys: seq<Located>) {
    && (forall x | x in xs :: x in ys)
    && (forall y | y in ys :: y in xs)
    && (xs == [] <==> ys == [])
  }

  lemma {:induction false} SameMembersSameRepresentatives(
    y: Located, xs: seq<Located>, ys: seq<Located>, order: seq<ConditionType>)
    requires SameMembers(xs, ys) && IsRepresentative(y, ys, order)
    ensures IsRepresentative(y, xs, order)
  {}

  lemma {:induction false} RenderWithoutCounter(
    x: Located, n: nat, n': nat, target: ConditionType, o: MergeOptions, fmt: Formatter)
    requires !o.addStepCounter
    ensures Render(x, n, target, o, fmt) == Render(x, n', target, o, fmt)
  {}

  lemma {:induction false} RepresentativesOfSameMembers(
    xs: seq<Located>, ys: seq<Located>, order: seq<ConditionType>, x: Located, y: Located)
    requires SameMembers(xs, ys) && OneTopClass(xs) && DistinctNames(xs)
    requires IsRepresentative(x, xs, order) && IsRepresentative(y, ys, order)
    ensures x == y
  {
    SameMembersSameRepresentatives(y, xs, ys, order);
    RepresentativeIsUnique(x, y, xs, order);
  }

  /** Without a step counter not even the number of occurrences matters. */
  lemma {:induction false} MergeReadsMembersOnly(
    xs: seq<Located>, gs: seq<Group>, ys: seq<Located>, hs: seq<Group>,
    target: ConditionType, o: MergeOptions, fmt: Formatter)
    requires SameMembers(xs, ys) && OneTopClass(xs) && DistinctNames(xs) && !o.addStepCounter
    requires IsSortedGrouping(xs, gs) && IsSortedGrouping(ys, hs)
    ensures MergeGroups(gs, target, o, fmt) == MergeGroups(hs, target, o, fmt)
  {
    var r, r' := MergeGroups(gs, target, o, fmt), MergeGroups(hs, target, o, fmt);
    MergeRendersRepresentative(xs, gs, target, o, fmt);
    MergeRendersRepresentative(ys, hs, target, o, fmt);
    if xs != [] {
      var x :| StandsFor(x, xs, target, o, fmt, r);
      var y :| StandsFor(y, ys, target, o, fmt, r');
      RepresentativesOfSameMembers(xs, ys, o.Order(), x, y);
      RenderWithoutCounter(x, |ClassOf(xs, TRUE_KEY)|, |ClassOf(ys, TRUE_KEY)|, target, o, fmt);
    }
  }

  lemma {:induction false} TwoTopClassesAreAmbiguous(
    a: Located, b: Located, target: ConditionType, o: MergeOptions, fmt: Formatter)
    requires KeyOf(a) != KeyOf(b) && Priority(KeyOf(a)) == Priority(KeyOf(b))
    requires Render(a, |ClassOf([a, b], TRUE_KEY)|, target, o, fmt) != Render(b, |ClassOf([a, b], TRUE_KEY)|, target, o, fmt)
    ensures !OneResult([a, b], target, o, fmt)
  {
    var xs := [a, b];
    assert a in xs && b in xs;
    BetterIsWeakOrder(a, a, a, o.Order());
    BetterIsWeakOrder(b, b, b, o.Order());
    assert IsRepresentative(a, xs, o.Order()) && IsRepresentative(b, xs, o.Order());
    MergeIsDeterminedIff(xs, target, o, fmt);
  }

  lemma {:induction false} FalseSeveritiesAreAmbiguous(
    a: Located, b: Located, target: ConditionType, o: MergeOptions, fmt: Formatter)
    requires a.c.state.status == StatusFalse == b.c.state.status
    requires a.c.state.severity != b.c.state.severity
    requires Priority(KeyOf(a)) == Priority(KeyOf(b))
    ensures !OneResult([a, b], target, o, fmt)
  {
    RenderKeepsTruth(a, |ClassOf([a, b], TRUE_KEY)|, target, o, fmt);
    RenderKeepsTruth(b, |ClassOf([a, b], TRUE_KEY)|, target, o, fmt);
    TwoTopClassesAreAmbiguous(a, b, target, o, fmt);
  }

  /** Well-formed severities are what this hangs on: two conditions that are False with severities outside the
      three share the priority value 99, and either may come out on top. */
  lemma {:induction false} MalformedSeveritiesAreAmbiguous(from: Source, target: ConditionType, fmt: Formatter)
    ensures var a := Located(FalseCondition("A", "", SeverityNone, ""), from);
            var b := Located(FalseCondition("B", "", SeverityOther("Critical"), ""), from);
            !OneResult([a, b], target, DEFAULT_OPTIONS, fmt)
  {
    var a := Located(FalseCondition("A", "", SeverityNone, ""), from);
    var b := Located(FalseCondition("B", "", SeverityOther("Critical"), ""), from);
    FalseSeveritiesAreAmbiguous(a, b, target, DEFAULT_OPTIONS, fmt);
  }

  ghost predicate TrueWinsIn(xs: seq<Located>) {
    && (exists x :: x in xs && x.c.state.status == StatusTrue)
    && forall x | x in xs && x.c.state.status == StatusFalse ::
         x.c.state.severity !in {SeverityError, SeverityWarning, SeverityInfo}
  }

  lemma {:induction false} RepresentativeIsTrueIff(x: Located, xs: seq<Located>, order: seq<ConditionType>)
    requires IsRepresentative(x, xs, order)
    ensures x.c.state.status == StatusTrue <==> TrueWinsIn(xs)
  {
    assert Priority(KeyOf(x)) == 3 <==> x.c.state.status == StatusTrue;
    if TrueWinsIn(xs) {
      var y :| y in xs && y.c.state.status == StatusTrue;
      assert Priority(KeyOf(x)) <= Priority(KeyOf(y));
    }
  }

  lemma {:induction false} RenderKeepsTruth(
    x: Located, trues: nat, target: ConditionType, o: MergeOptions, fmt: Formatter)
    ensures Render(x, trues, target, o, fmt).state.status == StatusTrue <==> x.c.state.status == StatusTrue
    ensures x.c.state.status == StatusFalse ==>
              Render(x, trues, target, o, fmt).state.severity == x.c.state.severity
  {}

  /** The status: True exactly when something is true and nothing is false with one of the three severities.
      Unknown conditions, and false ones with another severity, do not keep a summary from being true. */
  lemma {:induction false} MergeIsTrueIff(
    xs: seq<Located>, gs: seq<Group>, target: ConditionType, o: MergeOptions, fmt: Formatter)
    requires IsSortedGrouping(xs, gs)
    ensures var r := MergeGroups(gs, target, o, fmt);
            (r.Some? && r.value.state.status == StatusTrue) == TrueWinsIn(xs)
  {
    var r := MergeGroups(gs, target, o, fmt);
    MergeRendersRepresentative(xs, gs, target, o, fmt);
    if xs == [] {
      assert !TrueWinsIn(xs);
    } else {
      var x :| StandsFor(x, xs, target, o, fmt, r);
      RepresentativeIsTrueIff(x, xs, o.Order());
      RenderKeepsTruth(x, |ClassOf(xs, TRUE_KEY)|, target, o, fmt);
    }
  }

  /** The severities that outrank one of the three. */
  function Severer(s: Severity): set<Severity> {
    match s
    case SeverityWarning => {SeverityError}
    case SeverityInfo => {SeverityError, SeverityWarning}
    case _ => {}
  }

  ghost predicate IsWorst(xs: seq<Located>, s: Severity) {
    && (exists x :: x in xs && KeyOf(x) == Key(StatusFalse, s))
    && forall x | x in xs && x.c.state.status == StatusFalse :: x.c.state.severity !in Severer(s)
  }

  lemma {:induction false} RepresentativeIsFalseIff(
    x: Located, xs: seq<Located>, order: seq<ConditionType>, s: Severity)
    requires IsRepresentative(x, xs, order) && s in {SeverityError, SeverityWarning, SeverityInfo}
    ensures KeyOf(x) == Key(StatusFalse, s) <==> IsWorst(xs, s)
  {
    if IsWorst(xs, s) {
      var y :| y in xs && KeyOf(y) == Key(StatusFalse, s);
      assert Priority(KeyOf(x)) <= Priority(KeyOf(y));
    }
  }

  /** False with one of the three severities exactly when that is the worst severity of a false condition. */
  lemma {:induction false} MergeIsFalseIff(
    xs: seq<Located>, gs: seq<Group>, target: ConditionType, o: MergeOptions, fmt: Formatter, s: Severity)
    requires IsSortedGrouping(xs, gs)
    requires s in {SeverityError, SeverityWarning, SeverityInfo}
    ensures var r := MergeGroups(gs, target, o, fmt);
            (r.Some? && r.value.state.status == StatusFalse && r.value.state.severity == s) == IsWorst(xs, s)
  {
    var r := MergeGroups(gs, target, o, fmt);
    MergeRendersRepresentative(xs, gs, target, o, fmt);
    if xs == [] {
      assert !IsWorst(xs, s);
    } else {
      var x :| StandsFor(x, xs, target, o, fmt, r);
      RepresentativeIsFalseIff(x, xs, o.Order(), s);
      RenderKeepsKey(x, |ClassOf(xs, TRUE_KEY)|, target, o, fmt, s);
    }
  }

  lemma {:induction false} RenderKeepsKey(
    x: Located, trues: nat, target: ConditionType, o: MergeOptions, fmt: Formatter, s: Severity)
    ensures var r := Render(x, trues, target, o, fmt).state;
            (r.status == StatusFalse && r.severity == s) == (KeyOf(x) == Key(StatusFalse, s))
  {}

  // The summary of an object.

  lemma {:induction false} ScopeMembers(s: seq<Condition>, from: Source, o: MergeOptions)
    ensures forall x :: x in Scope(s, from, o) <==> x.from == from && x.c in s && InScope(x.c, o)
  {
    if s != [] {
      var n := |s| - 1;
      ScopeMembers(s[..n], from, o);
      assert s == s[..n] + [s[n]];
    }
  }

  lemma {:induction false} ScopeHasDistinctNames(s: seq<Condition>, from: Source, o: MergeOptions)
    requires Unique(s)
    ensures DistinctNames(Scope(s, from, o))
  {
    ScopeMembers(s, from, o);
    EntriesMembers(s);
  }

  /** The summary of a list without repeated types and with well-formed severities is the rendering of its best
      condition in scope, and the order of the list is irrelevant. */
  lemma {:induction false} SummaryIsBest(
    s: seq<Condition>, from: Source, o: MergeOptions, fmt: Formatter, gs: seq<Group>)
    requires Unique(s) && forall c | c in s :: WellFormed(c)
    requires IsSortedGrouping(Scope(s, from, o), gs)
    ensures var xs := Scope(s, from, o);
            var r := MergeGroups(gs, READY, WithCounter(o, xs), fmt);
            if xs == [] then r == None
            else r == Some(Render(Best(xs, o.Order()), |ClassOf(xs, TRUE_KEY)|, READY, WithCounter(o, xs), fmt))
  {
    var xs := Scope(s, from, o);
    ScopeMembers(s, from, o);
    ScopeHasDistinctNames(s, from, o);
    WellFormedHasOneTopClass(xs);
    MergeRendersRepresentative(xs, gs, READY, WithCounter(o, xs), fmt);
    if xs != [] {
      MergeIsBest(xs, READY, WithCounter(o, xs), fmt, MergeGroups(gs, READY, WithCounter(o, xs), fmt));
    }
  }

  /** In a summary with listed conditions the choice never falls back to the first member of a group. */
  lemma {:induction false} ScopedSummaryNeverFallsBack(s: seq<Condition>, from: Source, o: MergeOptions, gs: seq<Group>)
    requires o.conditionTypes.Some?
    requires IsSortedGrouping(Scope(s, from, o), gs) && gs != []
    ensures FindFirst(gs[0].members, o.Order()).Some?
  {
    ScopeMembers(s, from, o);
    MembersAreTheClass(Scope(s, from, o), gs, 0);
    FoundFirstIsChosen(gs[0].members, o.Order());
    assert gs[0].members[0] in gs[0].members;
    RankIsBounded(o.Order(), gs[0].members[0].c.typ);
  }

  // The step counter.

  predicate TypesDiffer(xs: seq<Located>) {
    forall i, j :: 0 <= i < j < |xs| ==> xs[i].c.typ != xs[j].c.typ
  }

  lemma {:induction false} ScopeTypesDiffer(s: seq<Condition>, from: Source, o: MergeOptions)
    requires forall i, j :: 0 <= i < j < |s| ==> s[i].typ != s[j].typ
    ensures TypesDiffer(Scope(s, from, o))
  {
    if s != [] {
      var n := |s| - 1;
      ScopeTypesDiffer(s[..n], from, o);
      ScopeMembers(s[..n], from, o);
      var xs := Scope(s[..n], from, o);
      forall i | 0 <= i < |xs| ensures xs[i].c.typ != s[n].typ {
        assert xs[i] in xs && xs[i].c in s[..n];
      }
    }
  }

  lemma {:induction false} Pigeonhole(xs: seq<Located>, types: seq<ConditionType>)
    requires TypesDiffer(xs) && AllListed(xs, types)
    ensures |xs| <= |types|
  {
    if xs != [] {
      var n := |xs| - 1;
      var k :| 0 <= k < |types| && types[k] == xs[n].c.typ;
      var rest := types[..k] + types[k + 1..];
      forall i | 0 <= i < n ensures xs[i].c.typ in rest {
        var j :| 0 <= j < |types| && types[j] == xs[i].c.typ;
        assert j != k;
        assert rest[if j < k then j else j - 1] == types[j];
      }
      Pigeonhole(xs[..n], rest);
    }
  }

  lemma {:induction false} ClassIsSmaller(xs: seq<Located>, key: Key, x: Located)
    ensures |ClassOf(xs, key)| <= |xs|
    ensures x in xs && KeyOf(x) != key ==> |ClassOf(xs, key)| < |xs|
  {
    if xs != [] {
      var n := |xs| - 1;
      ClassIsSmaller(xs[..n], key, x);
      assert xs == xs[..n] + [xs[n]];
    }
  }

  lemma {:induction false} RenderCounts(
    x: Located, trues: nat, target: ConditionType, o: MergeOptions, fmt: Formatter)
    requires x.c.state.status != StatusTrue && o.addStepCounter
    ensures Render(x, trues, target, o, fmt).state.message == fmt(StepMessage(trues, o.stepCounter))
  {}

  /** A counter in the message counts fewer true conditions than there are conditions. */
  lemma {:induction false} CounterMessage(
    xs: seq<Located>, gs: seq<Group>, target: ConditionType, o: MergeOptions, fmt: Formatter)
    requires IsSortedGrouping(xs, gs) && o.addStepCounter
    ensures var r := MergeGroups(gs, target, o, fmt);
            r.Some? && r.value.state.status != StatusTrue ==>
              && r.value.state.message == fmt(StepMessage(|ClassOf(xs, TRUE_KEY)|, o.stepCounter))
              && |ClassOf(xs, TRUE_KEY)| < |xs|
  {
    var r := MergeGroups(gs, target, o, fmt);
    MergeRendersRepresentative(xs, gs, target, o, fmt);
    if r.Some? && r.value.state.status != StatusTrue {
      var x :| StandsFor(x, xs, target, o, fmt, r);
      RenderKeepsTruth(x, |ClassOf(xs, TRUE_KEY)|, target, o, fmt);
      RenderCounts(x, |ClassOf(xs, TRUE_KEY)|, target, o, fmt);
      ClassIsSmaller(xs, TRUE_KEY, x);
    }
  }

  /** A counter that is kept is at least as large as the number of conditions in scope. */
  lemma {:induction false} CounterCoversScope(s: seq<Condition>, from: Source, o: MergeOptions)
    requires forall i, j :: 0 <= i < j < |s| ==> s[i].typ != s[j].typ
    requires WithCounter(o, Scope(s, from, o)).addStepCounter
    ensures |Scope(s, from, o)| <= WithCounter(o, Scope(s, from, o)).stepCounter
  {
    var xs := Scope(s, from, o);
    ScopeTypesDiffer(s, from, o);
    ScopeMembers(s, from, o);
    if o.onlyTypes.Some? {
      Pigeonhole(xs, o.onlyTypes.value);
    } else if o.conditionTypes.Some? {
      forall i | 0 <= i < |xs| ensures xs[i].c.typ in o.conditionTypes.value {
        assert xs[i] in xs;
      }
      Pigeonhole(xs, o.conditionTypes.value);
    }
  }

  /** Whatever size the counter is given, a summary never says "y of y completed". */
  lemma {:induction false} StepCounterIsNeverComplete(
    s: seq<Condition>, from: Source, o: MergeOptions, fmt: Formatter, gs: seq<Group>)
    requires forall i, j :: 0 <= i < j < |s| ==> s[i].typ != s[j].typ
    requires IsSortedGrouping(Scope(s, from, o), gs) && WithCounter(o, Scope(s, from, o)).addStepCounter
    ensures var xs := Scope(s, from, o);
            var r := MergeGroups(gs, READY, WithCounter(o, xs), fmt);
            var done, all := |ClassOf(xs, TRUE_KEY)|, WithCounter(o, xs).stepCounter;
            r.Some? && r.value.state.status != StatusTrue ==>
              r.value.state.message == fmt(StepMessage(done, all)) && done < all
  {
    var xs := Scope(s, from, o);
    CounterMessage(xs, gs, READY, WithCounter(o, xs), fmt);
    CounterCoversScope(s, from, o);
  }

  lemma {:induction false} NonNilIsSmaller(cs: seq<Candidate>)
    ensures |NonNil(cs)| <= |cs|
  {
    if cs != [] {
      NonNilIsSmaller(cs[..|cs| - 1]);
    }
  }

  lemma {:induction false} ReadyOfLength(from: seq<Dependent>)
    ensures |ReadyOf(from)| == |from|
  {
    if from != [] {
      ReadyOfLength(from[..|from| - 1]);
    }
  }

  lemma {:induction false} OptionsKeepStepCounter(o: MergeOptions, options: seq<MergeOption>)
    ensures SetOptions(o, options).stepCounter == o.stepCounter
  {
    if options != [] {
      OptionsKeepStepCounter(o, options[..|options| - 1]);
    }
  }

  /** Nor does an aggregate, where the counter is the number of objects. */
  lemma {:induction false} AggregateCounterIsNeverComplete(
    from: seq<Dependent>, target: ConditionType, options: seq<MergeOption>, fmt: Formatter, gs: seq<Group>)
    requires IsSortedGrouping(NonNil(ReadyOf(from)), gs)
    ensures var o := SetOptions(DEFAULT_OPTIONS.(addStepCounter := true, stepCounter := |from|), options);
            var r := MergeGroups(gs, target, o, fmt);
            var done := |ClassOf(NonNil(ReadyOf(from)), TRUE_KEY)|;
            o.addStepCounter && r.Some? && r.value.state.status != StatusTrue ==>
              r.value.state.message == fmt(StepMessage(done, |from|)) && done < |from|
  {
    var xs := NonNil(ReadyOf(from));
    var o0 := DEFAULT_OPTIONS.(addStepCounter := true, stepCounter := |from|);
    OptionsKeepStepCounter(o0, options);
    if SetOptions(o0, options).addStepCounter {
      CounterMessage(xs, gs, target, SetOptions(o0, options), fmt);
    }
    NonNilIsSmaller(ReadyOf(from));
    ReadyOfLength(from);
  }
}
