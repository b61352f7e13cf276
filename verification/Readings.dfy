/** What a merged condition says, read off the conditions that went in, field by field. */
module Readings {
  import opened Api
  import opened Ordering
  import opened Groups
  import opened Summary
  import opened SummaryLaws

  // Which condition speaks for the others.

  predicate IsFalse(s: State, severities: set<Severity>) {
    s.status == StatusFalse && s.severity in severities
  }

  /** Errors go before warnings, warnings before infos, infos before what is True, and that before what is Unknown. */
  predicate Outranks(x: State, y: State) {
    || (IsFalse(x, {SeverityError}) && !IsFalse(y, {SeverityError}))
    || (IsFalse(x, {SeverityWarning}) && !IsFalse(y, {SeverityError, SeverityWarning}))
    || (!IsFalse(y, {SeverityError, SeverityWarning, SeverityInfo})
        && (|| IsFalse(x, {SeverityInfo})
            || (x.status == StatusTrue && y.status != StatusTrue)
            || (x.status == StatusUnknown && y.status != StatusTrue && y.status != StatusUnknown)))
  }

  lemma {:induction false} OutranksIsPriority(x: Located, y: Located)
    ensures Outranks(x.c.state, y.c.state) <==> Priority(KeyOf(x)) < Priority(KeyOf(y))
  {}

  /** `t` is listed, and `u` is not listed before it. */
  ghost predicate Preferred(t: ConditionType, u: ConditionType, order: seq<ConditionType>) {
    exists i: nat :: ListedAt(t, u, order, i)
  }

  predicate ListedAt(t: ConditionType, u: ConditionType, order: seq<ConditionType>, i: nat) {
    i < |order| && order[i] == t && forall j | 0 <= j <= i :: order[j] != u
  }

  lemma {:induction false} PreferredIsRank(t: ConditionType, u: ConditionType, order: seq<ConditionType>)
    ensures Preferred(t, u, order) <==> Rank(order, t) < Rank(order, u)
    ensures Rank(order, t) == Rank(order, u) ==> t == u || (t !in order && u !in order)
  {
    if order != [] {
      PreferredIsRank(t, u, order[1..]);
      assert order == [order[0]] + order[1..];
      if Preferred(t, u, order[1..]) && order[0] != u {
        var i: nat :| ListedAt(t, u, order[1..], i);
        assert ListedAt(t, u, order, i + 1);
      }
      if order[0] == t && t != u {
        assert ListedAt(t, u, order, 0);
      }
      if Preferred(t, u, order) && order[0] != t {
        var i: nat :| ListedAt(t, u, order, i);
        assert order[i] == order[1..][i - 1];
        assert ListedAt(t, u, order[1..], i - 1);
      }
    }
  }

  /** Within a class: the order given, then the canonical order of types, then the names of the objects. */
  ghost predicate GoesBefore(x: Located, y: Located, order: seq<ConditionType>) {
    || Preferred(x.c.typ, y.c.typ, order)
    || (!Preferred(y.c.typ, x.c.typ, order) &&
        if x.c.typ != y.c.typ then ListedBefore(x.c.typ, y.c.typ) else Alphabetical(x.from.name, y.from.name))
  }

  lemma {:induction false} GoesBeforeIsChosenBefore(x: Located, y: Located, order: seq<ConditionType>)
    ensures GoesBefore(x, y, order) <==> ChosenBefore(x, y, order)
  {
    PreferredIsRank(x.c.typ, y.c.typ, order);
    PreferredIsRank(y.c.typ, x.c.typ, order);
    ReadyFirstThenByName(x.c.typ, y.c.typ);
    StringLessIsAlphabetical(x.from.name, y.from.name);
  }

  predicate SameClass(x: Located, y: Located) {
    x.c.state.status == y.c.state.status && x.c.state.severity == y.c.state.severity
  }

  /** Nothing outranks `x`, and nothing of its class goes before it. */
  ghost predicate Leads(x: Located, xs: seq<Located>, order: seq<ConditionType>) {
    && x in xs
    && (forall y | y in xs :: !Outranks(y.c.state, x.c.state))
    && forall y | y in xs && SameClass(x, y) :: !GoesBefore(y, x, order)
  }

  lemma {:induction false} LeadsIsRepresentative(x: Located, xs: seq<Located>, order: seq<ConditionType>)
    ensures Leads(x, xs, order) <==> IsRepresentative(x, xs, order)
  {
    forall y: Located ensures Outranks(y.c.state, x.c.state) <==> Priority(KeyOf(y)) < Priority(KeyOf(x)) {
      OutranksIsPriority(y, x);
    }
    forall y: Located ensures GoesBefore(y, x, order) <==> ChosenBefore(y, x, order) {
      GoesBeforeIsChosenBefore(y, x, order);
    }
  }

  // What it says.

  /** How many conditions are plainly True. */
  function TrueOnes(xs: seq<Located>): nat {
    if xs == [] then 0 else
      var n := |xs| - 1;
      TrueOnes(xs[..n])
      + if xs[n].c.state.status == StatusTrue && xs[n].c.state.severity == SeverityNone then 1 else 0
  }

  lemma {:induction false} TrueOnesAreTheTrueClass(xs: seq<Located>)
    ensures TrueOnes(xs) == |ClassOf(xs, TRUE_KEY)|
  {
    if xs != [] {
      TrueOnesAreTheTrueClass(xs[..|xs| - 1]);
    }
  }

  function ReasonOf(x: Located, addSourceRef: bool): string {
    if addSourceRef && '@' !in x.c.state.reason
    then x.c.state.reason + " @ " + x.from.kind + "/" + x.from.name
    else x.c.state.reason
  }

  function MessageOf(x: Located, trues: nat, o: MergeOptions): string {
    if o.addStepCounter then Decimal(trues) + " of " + Decimal(o.stepCounter) + " completed"
    else x.c.state.message
  }

  /** The result is of the target's type, without a time, and has the status of `x`. What is True says no more; for the
      rest the reason is the reason of `x`, with its source if asked for, and the message its message, used as a
      format, or the step counter. Only what is False has a severity. */
  predicate SaysWhat(
    x: Located, trues: nat, target: ConditionType, o: MergeOptions, fmt: Formatter, r: Condition)
  {
    && r.typ == target && r.time == 0
    && match x.c.state.status
       case StatusTrue => r.state == State(StatusTrue, SeverityNone, "", "")
       case StatusFalse =>
         && r.state.status == StatusFalse && r.state.severity == x.c.state.severity
         && r.state.reason == ReasonOf(x, o.addSourceRef) && r.state.message == fmt(MessageOf(x, trues, o))
       case _ =>
         && r.state.status == StatusUnknown && r.state.severity == SeverityNone
         && r.state.reason == ReasonOf(x, o.addSourceRef) && r.state.message == fmt(MessageOf(x, trues, o))
  }

  lemma {:induction false} RenderSaysWhat(
    x: Located, trues: nat, target: ConditionType, o: MergeOptions, fmt: Formatter, r: Condition)
    ensures SaysWhat(x, trues, target, o, fmt, r) <==> r == Render(x, trues, target, o, fmt)
  {}

  /** `r` says what some leading condition says. */
  ghost predicate SpeaksForLeader(
    xs: seq<Located>, target: ConditionType, o: MergeOptions, fmt: Formatter, r: Condition)
  {
    exists x :: Leads(x, xs, o.Order()) && SaysWhat(x, TrueOnes(xs), target, o, fmt, r)
  }

  lemma {:induction false} GroupsSpeakForLeader(
    xs: seq<Located>, gs: seq<Group>, target: ConditionType, o: MergeOptions, fmt: Formatter)
    requires IsSortedGrouping(xs, gs)
    ensures var r := MergeGroups(gs, target, o, fmt);
            if xs == [] then r == None else r.Some? && SpeaksForLeader(xs, target, o, fmt, r.value)
  {
    var r := MergeGroups(gs, target, o, fmt);
    MergeRendersRepresentative(xs, gs, target, o, fmt);
    if xs != [] {
      var x :| StandsFor(x, xs, target, o, fmt, r);
      TrueOnesAreTheTrueClass(xs);
      LeadsIsRepresentative(x, xs, o.Order());
      RenderSaysWhat(x, TrueOnes(xs), target, o, fmt, r.value);
    }
  }

  lemma {:induction false} LeaderCanSpeak(
    xs: seq<Located>, target: ConditionType, o: MergeOptions, fmt: Formatter, r: Condition)
    requires SpeaksForLeader(xs, target, o, fmt, r)
    ensures MergesInto(xs, target, o, fmt, Some(r))
  {
    var x :| Leads(x, xs, o.Order()) && SaysWhat(x, TrueOnes(xs), target, o, fmt, r);
    TrueOnesAreTheTrueClass(xs);
    LeadsIsRepresentative(x, xs, o.Order());
    RenderSaysWhat(x, TrueOnes(xs), target, o, fmt, r);
    RepresentativeCanComeOut(x, xs, target, o, fmt, Some(r));
  }

  /** The results of merging are exactly these: nothing for nothing, and otherwise what a leading condition says. */
  lemma {:induction false} ResultsSayWhatLeadersSay(
    xs: seq<Located>, target: ConditionType, o: MergeOptions, fmt: Formatter, r: Option<Condition>)
    ensures MergesInto(xs, target, o, fmt, r) <==>
            if xs == [] then r == None else r.Some? && SpeaksForLeader(xs, target, o, fmt, r.value)
  {
    if MergesInto(xs, target, o, fmt, r) {
      var gs: seq<Group> :| IsSortedGrouping(xs, gs) && r == MergeGroups(gs, target, o, fmt);
      GroupsSpeakForLeader(xs, gs, target, o, fmt);
    }
    if xs == [] {
      var gs := GroupingExists(xs);
      GroupsSpeakForLeader(xs, gs, target, o, fmt);
    } else if r.Some? && SpeaksForLeader(xs, target, o, fmt, r.value) {
      LeaderCanSpeak(xs, target, o, fmt, r.value);
    }
  }

  // Numerals.

  predicate IsDigit(c: char) {
    '0' <= c <= '9'
  }

  /** The number that a row of digits spells out. */
  function ValueOf(digits: string): int {
    if digits == [] then 0 else
      var n := |digits| - 1;
      10 * ValueOf(digits[..n]) + (digits[n] as int - '0' as int)
  }

  /** Numerals are decimal, without leading zeros. */
  lemma {:induction false} DecimalSpellsNumber(n: nat)
    ensures var s := Decimal(n);
            && s != [] && (forall c | c in s :: IsDigit(c)) && ValueOf(s) == n
            && (s[0] == '0' ==> n == 0)
  {
    var s := Decimal(n);
    if n < 10 {
      assert s[..0] == [];
    } else {
      DecimalSpellsNumber(n / 10);
      DecimalSpellsNumber(n % 10);
      var front, last := Decimal(n / 10), Decimal(n % 10);
      assert s == front + last && |last| == 1 && s[..|s| - 1] == front;
      assert last == [last[0]] && ValueOf(last) == last[0] as int - '0' as int by { assert last[..0] == []; }
    }
  }

  // What goes in.

  /** How often a condition of an object occurs among the candidates. */
  function Occurrences(cs: seq<Candidate>, x: Located): nat {
    if cs == [] then 0 else
      var n := |cs| - 1;
      Occurrences(cs[..n], x) + if cs[n].condition == Some(x.c) && cs[n].from == x.from then 1 else 0
  }

  /** Candidates without a condition are left out, and all others are kept. */
  lemma {:induction false} NilsAreLeftOut(cs: seq<Candidate>, x: Located)
    ensures multiset(NonNil(cs))[x] == Occurrences(cs, x)
  {
    if cs != [] {
      var n := |cs| - 1;
      NilsAreLeftOut(cs[..n], x);
    }
  }

  /** An aggregate reads the Ready condition of every object that has one, and nothing else. */
  lemma {:induction false} AggregateReadsReady(from: seq<Dependent>, i: nat)
    requires i < |from|
    ensures |ReadyOf(from)| == |from|
    ensures ReadyOf(from)[i].from == from[i].name
    ensures ReadyOf(from)[i].condition ==
            if READY in Entries(from[i].list) then Some(Entries(from[i].list)[READY]) else None
  {
    ReadyOfLength(from);
    ReadyOfLength(from[..|from| - 1]);
    if i < |from| - 1 {
      AggregateReadsReady(from[..|from| - 1], i);
    }
  }

  /** A summary reads the conditions other than Ready, of the listed types if any are listed. */
  lemma {:induction false} SummaryReadsListed(s: seq<Condition>, from: Source, o: MergeOptions)
    ensures forall x :: x in Scope(s, from, o) <==>
                        && x.from == from && x.c in s && x.c.typ != READY
                        && (o.conditionTypes.Some? ==> x.c.typ in o.conditionTypes.value)
  {
    ScopeMembers(s, from, o);
  }

  /** The counter is kept if every condition in scope is of the subset it is meant for; its total is then the size of
      that subset or, if there is none, of the listed types or else of the scope. Nothing else about the options
      changes. */
  lemma {:induction false} CounterIsSized(o: MergeOptions, xs: seq<Located>)
    ensures var w := WithCounter(o, xs);
            && (w.addStepCounter <==>
                o.addStepCounter && forall x | x in xs && o.onlyTypes.Some? :: x.c.typ in o.onlyTypes.value)
            && (w.addStepCounter && o.onlyTypes.Some? ==> w.stepCounter == |o.onlyTypes.value|)
            && (w.addStepCounter && o.onlyTypes.None? && o.conditionTypes.Some? ==>
                  w.stepCounter == |o.conditionTypes.value|)
            && (w.addStepCounter && o.onlyTypes.None? && o.conditionTypes.None? ==> w.stepCounter == |xs|)
            && w.conditionTypes == o.conditionTypes && w.addSourceRef == o.addSourceRef && w.onlyTypes == o.onlyTypes
  {
    if o.onlyTypes.Some? && AllListed(xs, o.onlyTypes.value) {
      forall x | x in xs ensures x.c.typ in o.onlyTypes.value {
        var i :| 0 <= i < |xs| && xs[i] == x;
      }
    }
  }
}
