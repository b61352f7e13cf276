/** How the AddonConfig controller publishes its conditions: a Ready summary of five types, six owned types, and
    two more types that its phases set without owning them. */
module AddonConfig {
  import opened Api
  import opened Json
  import opened Ordering
  import opened Store
  import opened MergePatch
  import opened MergeLaws
  import opened Groups
  import opened Summary
  import opened SummaryLaws
  import opened Readings
  import opened World
  import opened WorldLaws
  import opened Publish
  import opened Payloads
  import opened PatchHelper
  import opened Histories

  const SUMMARY_TYPES: seq<ConditionType> :=
    [VALID_SCHEMA, VALID_CONFIG, DEFAULTING_COMPLETE, VALID_TARGET, VALID_TEMPLATE]
  const SUMMARY_OPTIONS: seq<MergeOption> := [WithConditions(Some(SUMMARY_TYPES))]
  const PATCH_OPTIONS := ApplyOptions([READY] + SUMMARY_TYPES, false)
  const HELPER_OPTIONS := HelperOptions(true, PATCH_OPTIONS)
  const UNOWNED_TYPES: seq<ConditionType> := [VALID_DEPENDENCY, OUTPUT_RESOURCE_UPDATED]

  /** The five types that Ready sums up. */
  predicate Summed(t: ConditionType) {
    t in {"ValidSchema", "ValidConfig", "DefaultingComplete", "ValidTarget", "ValidTemplate"}
  }

  /** The types on which the controller's value always wins: Ready and those five. */
  predicate Owned(t: ConditionType) {
    t == "Ready" || Summed(t)
  }

  lemma {:induction false} NamedTypes(t: ConditionType)
    ensures t in SUMMARY_TYPES <==> Summed(t)
    ensures PATCH_OPTIONS.force || t in PATCH_OPTIONS.owned <==> Owned(t)
    ensures t in UNOWNED_TYPES <==> t == "ValidDependency" || t == "OutputResourceUpdated"
  {
    assert t in PATCH_OPTIONS.owned <==> t == READY || t in SUMMARY_TYPES;
  }

  /** Sets Ready to the summary and publishes the object, whose status says which generation has been observed. */
  method PatchAddonConfig(
    helper: Helper, obj: Object, doc: Json, server: Server, name: Source, fmt: Formatter, now: Time,
    turns: seq<Turn>, later: Later)
    returns (errors: PatchHelper.Errors, ready: Option<Condition>,
             ghost ws: seq<World>, ghost steps: seq<Step>, ghost published: seq<Version>)
    requires helper.Valid() && IsObjectDoc(helper.beforeDoc) && IsObjectDoc(doc)
    requires server.history != [] && Sound(server.history)
    requires Unique(helper.beforeConditions) && Unique(obj.conditions)
    requires |turns| == MAX_ATTEMPTS && forall turn | turn in turns :: Fair(turn)
    requires Sound(later.gapMain) && Sound(later.gapStatus)
    modifies obj, helper, server, helper.before.status
    ensures Sets(old(obj.conditions), Summarise(name, SUMMARY_OPTIONS), fmt, ready)
    ensures IsReadyOf(Entries(old(obj.conditions)), fmt, ready)
    ensures IsSet(old(obj.conditions), ready, now, obj.conditions)
    ensures IsPublication(old(server.history), helper.beforeConditions, obj.conditions, PATCH_OPTIONS, turns,
                          errors.conditions, ws, steps, published)
    ensures IsRest(published, later, helper.beforeDoc, Observed(Carrying(doc, obj.conditions)), errors, server.history)
    ensures server.requests == old(server.requests) + RestRequests(helper.beforeDoc, Observed(Carrying(doc, obj.conditions)))
    ensures published <= server.history && Sound(server.history)
    ensures IsCalm(turns, later) && IsVersionOf(Last(old(server.history)), helper.beforeConditions, helper.beforeDoc)
            && SameKind(helper.beforeDoc, doc) ==>
              && Succeeds(old(server.history), helper.beforeConditions, obj.conditions, doc, HELPER_OPTIONS,
                          errors, server.history)
              && Get(Last(server.history).rest, ["status", "observedGeneration"]) == Some(GenerationToObserve(doc))
    ensures Sorted(old(server.history)) && SortedSurroundings(turns, later) ==> Sorted(server.history)
  {
    ready := SetSummary(obj, name, SUMMARY_OPTIONS, fmt, now);
    SummarySpeaksForListed(old(obj.conditions), name, fmt, ready);
    errors, ws, steps, published := helper.Patch(obj, doc, server, HELPER_OPTIONS, turns, later);
  }

  // Ownership.

  /** On the owned types the controller never conflicts with anybody, and its value comes out. */
  lemma {:induction false} OwnedTypesWin(
    before: seq<Condition>, after: seq<Condition>, latest: EntryMap, clock: Clock, t: ConditionType)
    requires Unique(before) && Unique(after) && Keyed(latest) && Owned(t)
    ensures var r := ApplySpec(latest, Diff(before, after), PATCH_OPTIONS, clock);
            && r.conflict != Some(t)
            && (r.Ok() && At(Entries(before), t) != At(Entries(after), t) ==>
                  SameState(At(r.entries, t), At(Entries(after), t)))
  {
    NamedTypes(t);
    var r := ApplySpec(latest, Diff(before, after), PATCH_OPTIONS, clock);
    if r.conflict == Some(t) {
      ReportedTypeConflicts(before, after, latest, PATCH_OPTIONS, clock, t);
    }
    if r.Ok() {
      OwnedAlwaysWins(before, after, latest, PATCH_OPTIONS, clock, t);
    }
  }

  /** Somebody can have changed `t` so that the call ends in a conflict on it. */
  ghost predicate CanConflictOn(before: seq<Condition>, after: seq<Condition>, t: ConditionType) {
    exists latest: EntryMap :: Keyed(latest) && ConflictsOn(before, after, latest, t)
  }

  ghost predicate ConflictsOn(before: seq<Condition>, after: seq<Condition>, latest: EntryMap, t: ConditionType) {
    exists clock :: ApplySpec(latest, Diff(before, after), PATCH_OPTIONS, clock).conflict == Some(t)
  }

  /** A type that the controller changes can be in conflict if and only if it is not one of the six. */
  lemma {:induction false} ConflictsIffNotOwned(before: seq<Condition>, after: seq<Condition>, t: ConditionType)
    requires Unique(before) && Unique(after) && At(Entries(before), t) != At(Entries(after), t)
    ensures CanConflictOn(before, after, t) <==> !Owned(t)
  {
    if CanConflictOn(before, after, t) {
      var latest :| Keyed(latest) && ConflictsOn(before, after, latest, t);
      var clock :| ApplySpec(latest, Diff(before, after), PATCH_OPTIONS, clock).conflict == Some(t);
      OwnedNeverConflict(before, after, latest, clock, t);
    }
    if !Owned(t) {
      var latest, clock := ConflictOn(before, after, t);
      assert ConflictsOn(before, after, latest, t);
    }
  }

  lemma {:induction false} OwnedNeverConflict(
    before: seq<Condition>, after: seq<Condition>, latest: EntryMap, clock: Clock, t: ConditionType)
    requires Unique(before) && Unique(after) && Keyed(latest)
    requires ApplySpec(latest, Diff(before, after), PATCH_OPTIONS, clock).conflict == Some(t)
    ensures !Owned(t)
  {
    if Owned(t) {
      OwnedTypesWin(before, after, latest, clock, t);
    }
  }

  /** A condition that is neither what was there nor what is wanted. */
  function Stranger(t: ConditionType, b: Option<Condition>, a: Option<Condition>): Condition {
    var old' := if b.Some? then b.value.state.message else "";
    var new' := if a.Some? then a.value.state.message else "";
    UnknownCondition(t, "", old' + new' + "!")
  }

  lemma {:induction false} StrangerConflicts(t: ConditionType, b: Option<Condition>, a: Option<Condition>)
    requires b != a
    ensures ThreeWayConflict(b, a, Some(Stranger(t, b, a)), false)
  {
    var message := Stranger(t, b, a).state.message;
    assert b.Some? ==> |message| > |b.value.state.message|;
    assert a.Some? ==> |message| > |a.value.state.message|;
  }

  lemma {:induction false} ConflictOn(before: seq<Condition>, after: seq<Condition>, t: ConditionType)
    returns (latest: EntryMap, clock: Clock)
    requires Unique(before) && Unique(after) && At(Entries(before), t) != At(Entries(after), t) && !Owned(t)
    ensures Keyed(latest) && ApplySpec(latest, Diff(before, after), PATCH_OPTIONS, clock).conflict == Some(t)
  {
    var b, a := At(Entries(before), t), At(Entries(after), t);
    clock := (k: nat) => 0;
    latest := Entries(before)[t := Stranger(t, b, a)];
    var r := ApplySpec(latest, Diff(before, after), PATCH_OPTIONS, clock);
    NamedTypes(t);
    StrangerConflicts(t, b, a);
    MergeSucceedsIffTableHasNoConflict(before, after, latest, PATCH_OPTIONS, clock);
    var u := r.conflict.value;
    ReportedTypeConflicts(before, after, latest, PATCH_OPTIONS, clock, u);
    assert u != t ==> At(latest, u) == At(Entries(before), u);
  }

  /** Of what the phases set, only the dependency and output conditions can keep a merge from succeeding. */
  lemma {:induction false} OnlyUnownedTypesConflict(
    before: seq<Condition>, after: seq<Condition>, latest: EntryMap, clock: Clock)
    requires Unique(before) && Unique(after) && Keyed(latest)
    requires forall t | At(Entries(before), t) != At(Entries(after), t) ::
               Owned(t) || t == "ValidDependency" || t == "OutputResourceUpdated"
    ensures ApplySpec(latest, Diff(before, after), PATCH_OPTIONS, clock).Ok() <==>
            forall t | t in {"ValidDependency", "OutputResourceUpdated"} ::
              !ThreeWayConflict(At(Entries(before), t), At(Entries(after), t), At(latest, t), false)
  {
    MergeSucceedsIffTableHasNoConflict(before, after, latest, PATCH_OPTIONS, clock);
    forall t ensures PATCH_OPTIONS.force || t in PATCH_OPTIONS.owned <==> Owned(t) {
      NamedTypes(t);
    }
  }

  /** One conflict on a type that is not owned withholds everything, the owned Ready condition included: in
      every run, whoever meets it writes no version, then or ever after. */
  lemma {:induction false} UnownedConflictWithholdsReady(
    ws: seq<World>, steps: seq<Step>, i: nat, j: nat, before: seq<Condition>, after: seq<Condition>, t: ConditionType)
    requires IsRun(ws, steps) && Initial(ws[0]) && i < |steps| && steps[i].Merge? && i < j < |ws|
    requires steps[i].who < |ws[0].controllers|
    requires ws[0].controllers[steps[i].who] == Starting(Diff(before, after), PATCH_OPTIONS)
    requires Unique(before) && Unique(after) && !Owned(t)
    requires Enabled(ws[i], steps[i])
    requires ThreeWayConflict(At(Entries(before), t), At(Entries(after), t),
                              At(Entries(ws[i].history[steps[i].read].list), t), false)
    ensures forall k | |ws[0].history| <= k < |ws[j].history| :: ws[j].history[k].writer != Some(steps[i].who)
  {
    var who, w := steps[i].who, ws[i];
    var c0, c, latest := ws[0].controllers[who], w.controllers[who], Entries(w.history[steps[i].read].list);
    RunKeepsInv(ws, steps, i);
    assert ControllerInv(|ws[0].history|, w.history, who, c0, c);
    NamedTypes(t);
    MergeSucceedsIffTableHasNoConflict(before, after, latest, PATCH_OPTIONS, steps[i].clock);
    RetryDecidesTheSame(latest, c0.ops, c.ops, PATCH_OPTIONS, steps[i].clock, steps[i].clock);
    assert ws[i + 1] == Next(w, steps[i]);
    DoneIsForever(ws, steps, i + 1, j, who);
    RunKeepsInv(ws, steps, j);
    assert ControllerInv(|ws[0].history|, ws[j].history, who, c0, ws[j].controllers[who]);
  }

  // What Ready says.

  ghost predicate IsSummaryGrouping(s: seq<Condition>, name: Source, gs: seq<Group>) {
    IsSortedGrouping(Scope(s, name, SetOptions(DEFAULT_OPTIONS, SUMMARY_OPTIONS)), gs)
  }

  function ReadyOfGroups(gs: seq<Group>, fmt: Formatter): Option<Condition> {
    MergeGroups(gs, READY, SetOptions(DEFAULT_OPTIONS, SUMMARY_OPTIONS), fmt)
  }

  /** What the controller sets Ready to is what the groups of the listed conditions give. */
  lemma {:induction false} SummaryComesOfGroups(s: seq<Condition>, name: Source, fmt: Formatter, r: Option<Condition>)
    requires Unique(s)
    ensures Sets(s, Summarise(name, SUMMARY_OPTIONS), fmt, r) <==>
            exists gs :: IsSummaryGrouping(s, name, gs) && r == ReadyOfGroups(gs, fmt)
  {
    var o := SetOptions(DEFAULT_OPTIONS, SUMMARY_OPTIONS);
    var xs := Scope(s, name, o);
    SameListedSameScope(s, s, name);
    if Sets(s, Summarise(name, SUMMARY_OPTIONS), fmt, r) {
      var gs: seq<Group> :| IsSortedGrouping(xs, gs) && r == MergeGroups(gs, READY, o, fmt);
      assert IsSummaryGrouping(s, name, gs) && r == ReadyOfGroups(gs, fmt);
    }
    if gs :| IsSummaryGrouping(s, name, gs) && r == ReadyOfGroups(gs, fmt) {
      assert IsSortedGrouping(xs, gs) && r == MergeGroups(gs, READY, o, fmt);
    }
  }

  /** The summary reads the five listed types and nothing else: whatever a phase reports about dependencies or
      outputs, Ready comes out the same. */
  lemma {:induction false} ReadyReadsListedTypesOnly(
    s: seq<Condition>, s': seq<Condition>, name: Source, fmt: Formatter, gs: seq<Group>, gs': seq<Group>)
    requires Unique(s) && Unique(s')
    requires forall c | c in s && Summed(c.typ) :: WellFormed(c)
    requires forall t | Summed(t) :: At(Entries(s), t) == At(Entries(s'), t)
    requires IsSummaryGrouping(s, name, gs) && IsSummaryGrouping(s', name, gs')
    ensures ReadyOfGroups(gs, fmt) == ReadyOfGroups(gs', fmt)
  {
    var o := SetOptions(DEFAULT_OPTIONS, SUMMARY_OPTIONS);
    var xs, xs' := Scope(s, name, o), Scope(s', name, o);
    SameListedSameScope(s, s', name);
    ListedAreWellFormed(s, name);
    ScopeHasDistinctNames(s, name, o);
    MergeReadsMembersOnly(xs, gs, xs', gs', READY, o, fmt);
  }

  lemma {:induction false} ListedAreWellFormed(s: seq<Condition>, name: Source)
    requires Unique(s) && forall c | c in s && Summed(c.typ) :: WellFormed(c)
    ensures OneTopClass(Scope(s, name, SetOptions(DEFAULT_OPTIONS, SUMMARY_OPTIONS)))
  {
    SummaryScope(s, name);
    EntriesMembers(s);
    WellFormedHasOneTopClass(Scope(s, name, SetOptions(DEFAULT_OPTIONS, SUMMARY_OPTIONS)));
  }

  lemma {:induction false} SameListedSameScope(s: seq<Condition>, s': seq<Condition>, name: Source)
    requires Unique(s) && Unique(s')
    requires forall t | Summed(t) :: At(Entries(s), t) == At(Entries(s'), t)
    ensures var o := SetOptions(DEFAULT_OPTIONS, SUMMARY_OPTIONS);
            && SameMembers(Scope(s, name, o), Scope(s', name, o))
            && WithCounter(o, Scope(s, name, o)) == o == WithCounter(o, Scope(s', name, o))
            && !o.addStepCounter
  {
    var o := SetOptions(DEFAULT_OPTIONS, SUMMARY_OPTIONS);
    SummaryScope(s, name);
    SummaryScope(s', name);
    var xs, xs' := Scope(s, name, o), Scope(s', name, o);
    assert xs == [] || xs[0] in xs';
    assert xs' == [] || xs'[0] in xs;
  }

  /** What is in the scope of the summary. */
  lemma {:induction false} SummaryScope(s: seq<Condition>, name: Source)
    requires Unique(s)
    ensures var o := SetOptions(DEFAULT_OPTIONS, SUMMARY_OPTIONS);
            && o == DEFAULT_OPTIONS.(conditionTypes := Some(SUMMARY_TYPES))
            && forall x :: x in Scope(s, name, o) <==>
                           && x.from == name && Summed(x.c.typ)
                           && At(Entries(s), x.c.typ) == Some(x.c)
  {
    var o := SetOptions(DEFAULT_OPTIONS, SUMMARY_OPTIONS);
    assert SUMMARY_OPTIONS[..0] == [];
    ScopeMembers(s, name, o);
    EntriesMembers(s);
    forall t ensures t in SUMMARY_TYPES <==> Summed(t) {
      NamedTypes(t);
    }
    assert !Summed(READY);
  }

  /** Ready is True exactly when some listed condition is True and no listed condition is False. */
  lemma {:induction false} ReadyIsTrueIff(s: seq<Condition>, name: Source, fmt: Formatter, gs: seq<Group>)
    requires Unique(s)
    requires forall c | c in s && Summed(c.typ) :: WellFormed(c)
    requires IsSummaryGrouping(s, name, gs)
    ensures var r := ReadyOfGroups(gs, fmt);
            (r.Some? && r.value.state.status == StatusTrue) <==>
            && (exists t :: Summed(t) && t in Entries(s) && Entries(s)[t].state.status == StatusTrue)
            && forall t | Summed(t) && t in Entries(s) :: Entries(s)[t].state.status != StatusFalse
  {
    var o := SetOptions(DEFAULT_OPTIONS, SUMMARY_OPTIONS);
    var xs := Scope(s, name, o);
    SummaryScope(s, name);
    EntriesMembers(s);
    MergeIsTrueIff(xs, gs, READY, o, fmt);
    forall t | Summed(t) && t in Entries(s) ensures Located(Entries(s)[t], name) in xs {}
  }

  /** What Ready says for one of the five: its state in full if it is not True, nothing more if it is. */
  predicate SaysForReady(c: State, fmt: Formatter, r: Condition) {
    && r.typ == "Ready" && r.time == 0
    && match c.status
       case StatusTrue => r.state == State(StatusTrue, SeverityNone, "", "")
       case StatusFalse => r.state == State(StatusFalse, c.severity, c.reason, fmt(c.message))
       case _ => r.state == State(StatusUnknown, SeverityNone, c.reason, fmt(c.message))
  }

  /** `t` is the one Ready speaks for: none of the five outranks it, and of those with its status and severity it is
      the first in this order. */
  ghost predicate SpeaksFor(m: EntryMap, t: ConditionType) {
    && Summed(t) && t in m
    && (forall u | Summed(u) && u in m :: !Outranks(m[u].state, m[t].state))
    && forall u | Summed(u) && u in m && m[u].state.status == m[t].state.status
                  && m[u].state.severity == m[t].state.severity ::
         !Preferred(u, t, ["ValidSchema", "ValidConfig", "DefaultingComplete", "ValidTarget", "ValidTemplate"])
  }

  ghost predicate IsReadyOf(m: EntryMap, fmt: Formatter, r: Option<Condition>) {
    if r.None? then forall t | Summed(t) :: t !in m
    else exists t :: SpeaksFor(m, t) && SaysForReady(m[t].state, fmt, r.value)
  }

  /** Ready has the status and severity, the reason and the message of that one of the five. */
  lemma {:induction false} ReadySpeaksForListed(s: seq<Condition>, name: Source, fmt: Formatter, gs: seq<Group>)
    requires Unique(s) && IsSummaryGrouping(s, name, gs)
    ensures IsReadyOf(Entries(s), fmt, ReadyOfGroups(gs, fmt))
  {
    var o, r := SetOptions(DEFAULT_OPTIONS, SUMMARY_OPTIONS), ReadyOfGroups(gs, fmt);
    var xs, m := Scope(s, name, o), Entries(s);
    SummaryScope(s, name);
    GroupsSpeakForLeader(xs, gs, READY, o, fmt);
    EntriesMembers(s);
    forall t | Summed(t) && t in m ensures Located(m[t], name) in xs {}
    if xs != [] {
      var x :| Leads(x, xs, o.Order()) && SaysWhat(x, TrueOnes(xs), READY, o, fmt, r.value);
      LeaderIsSpokenFor(s, name, x);
      assert SaysForReady(m[x.c.typ].state, fmt, r.value);
    }
  }

  lemma {:induction false} LeaderIsSpokenFor(s: seq<Condition>, name: Source, x: Located)
    requires Unique(s)
    requires Leads(x, Scope(s, name, SetOptions(DEFAULT_OPTIONS, SUMMARY_OPTIONS)), SUMMARY_TYPES)
    ensures SpeaksFor(Entries(s), x.c.typ) && Entries(s)[x.c.typ] == x.c
  {
    var xs, m := Scope(s, name, SetOptions(DEFAULT_OPTIONS, SUMMARY_OPTIONS)), Entries(s);
    SummaryScope(s, name);
    EntriesMembers(s);
    forall u | Summed(u) && u in m ensures Located(m[u], name) in xs && !Outranks(m[u].state, x.c.state) {
      var y := Located(m[u], name);
      assert y in xs;
    }
    forall u | Summed(u) && u in m && m[u].state.status == x.c.state.status
               && m[u].state.severity == x.c.state.severity
      ensures !Preferred(u, x.c.typ, SUMMARY_TYPES)
    {
      var y := Located(m[u], name);
      assert y in xs && SameClass(x, y) && !GoesBefore(y, x, SUMMARY_TYPES);
    }
  }

  lemma {:induction false} SummarySpeaksForListed(
    s: seq<Condition>, name: Source, fmt: Formatter, r: Option<Condition>)
    requires Unique(s) && Sets(s, Summarise(name, SUMMARY_OPTIONS), fmt, r)
    ensures IsReadyOf(Entries(s), fmt, r)
  {
    SummaryComesOfGroups(s, name, fmt, r);
    var gs :| IsSummaryGrouping(s, name, gs) && r == ReadyOfGroups(gs, fmt);
    ReadySpeaksForListed(s, name, fmt, gs);
  }
}
