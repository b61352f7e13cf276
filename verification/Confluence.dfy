/** Controllers about different condition types: the outcome does not depend on the interleaving. */
module Confluence {
  import opened Api
  import opened Json
  import opened Ordering
  import opened Store
  import opened MergePatch
  import opened MergeLaws
  import opened World
  import opened WorldLaws

  ghost predicate PairwiseDisjoint(w: World) {
    forall a, b | 0 <= a < b < |w.controllers| :: DisjointTypes(w.controllers[a].ops, w.controllers[b].ops)
  }

  /** Other processes leave the controllers' types alone; what else they write is up to them. */
  ghost predicate Respects(w0: World, w: World, s: Step)
    requires Enabled(w, s)
  {
    s.Foreign? ==>
      forall who, t | 0 <= who < |w0.controllers| && Touches(w0.controllers[who].ops, t) ::
        At(Entries(s.version.list), t) == At(Entries(w.history[Current(w)].list), t)
  }

  /** A run of controllers about different types that nobody else interferes with. What the server held before the
      start, and how far behind the reads are, is open. */
  ghost predicate IsSeparatedRun(ws: seq<World>, steps: seq<Step>) {
    && IsRun(ws, steps) && Initial(ws[0]) && PairwiseDisjoint(ws[0])
    && forall i | 0 <= i < |steps| :: Respects(ws[0], ws[i], steps[i])
  }

  /** What the controller's diff does when it is applied alone to these conditions. */
  function AloneOn(m: EntryMap, c0: Controller): Outcome {
    ApplySpec(m, c0.ops, c0.opts, (k: nat) => 0)
  }

  /** The version everything starts from. */
  function Base(w0: World): EntryMap
    requires w0.history != []
  {
    Entries(w0.history[Current(w0)].list)
  }

  function Alone(w0: World, who: nat): Outcome
    requires w0.history != [] && who < |w0.controllers|
  {
    AloneOn(Base(w0), w0.controllers[who])
  }

  /** One type of one controller in one version: as at the start until the controller has landed, then as its
      diff alone would have made it. */
  predicate EntryAsAlone(w0: World, who: nat, c: Controller, t: ConditionType, i: nat, v: Version)
    requires w0.history != [] && who < |w0.controllers|
  {
    if c.landed.Some? && c.landed.value <= i then SameState(At(Entries(v.list), t), At(Alone(w0, who).entries, t))
    else At(Entries(v.list), t) == At(Base(w0), t)
  }

  /** In every version from the start on. */
  ghost predicate HistoryAsAlone(w0: World, who: nat, c: Controller, history: seq<Version>)
    requires w0.history != [] && who < |w0.controllers|
  {
    forall t, i | Touches(w0.controllers[who].ops, t) && Current(w0) <= i < |history| ::
      EntryAsAlone(w0, who, c, t, i, history[i])
  }

  ghost predicate SeparatedInv(w0: World, w: World) {
    && Inv(w0, w) && w0.history != []
    && forall who | 0 <= who < |w.controllers| ::
         && (w.controllers[who].landed.Some? ==> Alone(w0, who).Ok())
         && HistoryAsAlone(w0, who, w.controllers[who], w.history)
  }

  /** A diff decides alike on conditions that agree on its types, and as often as it is retried. */
  lemma {:induction false} DecidesAlike(
    m0: EntryMap, m: EntryMap, c0: Controller, ops: seq<Op>, clock: Clock)
    requires Keyed(m0) && Keyed(m) && DistinctTypes(c0.ops) && SameDiff(c0.ops, ops)
    requires forall u | Touches(c0.ops, u) :: At(m0, u) == At(m, u)
    ensures ApplySpec(m, ops, c0.opts, clock).conflict == AloneOn(m0, c0).conflict
  {
    forall k | 0 <= k < |c0.ops| ensures At(m0, c0.ops[k].Type()) == At(m, c0.ops[k].Type()) {
      assert Touches(c0.ops, c0.ops[k].Type());
    }
    DecisionDependsOnTouchedEntries(m0, m, c0.ops, ops, |c0.ops|, c0.opts, (k: nat) => 0, clock);
  }

  lemma {:induction false} MergesAsAlone(
    m0: EntryMap, m: EntryMap, c0: Controller, ops: seq<Op>, clock: Clock, t: ConditionType)
    requires Keyed(m0) && Keyed(m) && DistinctTypes(c0.ops) && SameDiff(c0.ops, ops) && Touches(c0.ops, t)
    requires forall u | Touches(c0.ops, u) :: At(m0, u) == At(m, u)
    ensures SameState(At(AloneOn(m0, c0).entries, t), At(ApplySpec(m, ops, c0.opts, clock).entries, t))
  {
    forall k | 0 <= k < |c0.ops| ensures At(m0, c0.ops[k].Type()) == At(m, c0.ops[k].Type()) {
      assert Touches(c0.ops, c0.ops[k].Type());
    }
    DecisionDependsOnTouchedEntries(m0, m, c0.ops, ops, |c0.ops|, c0.opts, (k: nat) => 0, clock);
    assert SameState(At(m0, t), At(m, t));
  }

  /** What lands was merged into the current version, which the controller's types have as at the start, whatever
      was read before; so it succeeds alone too, and has at those types the states its diff alone gives. */
  lemma {:induction false} LandsAsAlone(w0: World, w: World, who: nat)
    requires SeparatedInv(w0, w) && Initial(w0)
    requires who < |w.controllers| && w.controllers[who].phase.Holding?
    requires w.controllers[who].phase.version == Current(w)
    ensures Alone(w0, who).Ok()
    ensures forall t | Touches(w0.controllers[who].ops, t) ::
              SameState(At(Entries(w.controllers[who].phase.merged), t), At(Alone(w0, who).entries, t))
  {
    var c0, c := w0.controllers[who], w.controllers[who];
    assert ControllerInv(|w0.history|, w.history, who, c0, c) && HistoryAsAlone(w0, who, c, w.history);
    var v := w.history[Current(w)];
    var ops, clock :| SameDiff(c0.ops, ops) && MergesTo(c.phase.merged, v.list, ops, c0.opts, clock);
    assert c0 in w0.controllers;
    forall u | Touches(c0.ops, u) ensures At(Base(w0), u) == At(Entries(v.list), u) {
      assert EntryAsAlone(w0, who, c, u, Current(w), v);
    }
    DecidesAlike(Base(w0), Entries(v.list), c0, ops, clock);
    forall t | Touches(c0.ops, t) ensures SameState(At(Entries(c.phase.merged), t), At(Alone(w0, who).entries, t)) {
      MergesAsAlone(Base(w0), Entries(v.list), c0, ops, clock, t);
      SameStateSymmetric(At(Alone(w0, who).entries, t), At(Entries(c.phase.merged), t));
    }
  }

  lemma {:induction false} SameStateSymmetric(a: Option<Condition>, b: Option<Condition>)
    ensures SameState(a, b) == SameState(b, a)
  {}

  lemma {:induction false} CommitKeepsOwnHistory(w0: World, w: World, who: nat, ending: Ending)
    requires SeparatedInv(w0, w) && Initial(w0)
    requires who < |w.controllers| && w.controllers[who].phase.Holding?
    requires w.controllers[who].phase.version == Current(w)
    ensures Alone(w0, who).Ok()
    ensures HistoryAsAlone(w0, who, Commit(w, who, ending).controllers[who], Commit(w, who, ending).history)
  {
    var c, w' := w.controllers[who], Commit(w, who, ending);
    assert ControllerInv(|w0.history|, w.history, who, w0.controllers[who], c) && HistoryAsAlone(w0, who, c, w.history);
    LandsAsAlone(w0, w, who);
    forall t, i | Touches(w0.controllers[who].ops, t) && Current(w0) <= i < |w'.history|
      ensures EntryAsAlone(w0, who, w'.controllers[who], t, i, w'.history[i])
    {
      if i < |w.history| {
        assert EntryAsAlone(w0, who, c, t, i, w.history[i]);
      }
    }
  }

  lemma {:induction false} CommitKeepsOtherHistory(w0: World, w: World, who: nat, ending: Ending, other: nat)
    requires SeparatedInv(w0, w) && PairwiseDisjoint(w0)
    requires who < |w.controllers| && w.controllers[who].phase.Holding?
    requires w.controllers[who].phase.version == Current(w)
    requires other < |w.controllers| && other != who
    ensures HistoryAsAlone(w0, other, Commit(w, who, ending).controllers[other], Commit(w, who, ending).history)
  {
    var c, o, w' := w.controllers[who], w.controllers[other], Commit(w, who, ending);
    var n := Current(w);
    assert ControllerInv(|w0.history|, w.history, who, w0.controllers[who], c);
    assert ControllerInv(|w0.history|, w.history, other, w0.controllers[other], o) && HistoryAsAlone(w0, other, o, w.history);
    forall t, i | Touches(w0.controllers[other].ops, t) && Current(w0) <= i < |w'.history|
      ensures EntryAsAlone(w0, other, o, t, i, w'.history[i])
    {
      if i < |w.history| {
        assert EntryAsAlone(w0, other, o, t, i, w.history[i]);
      } else {
        assert !Touches(w0.controllers[who].ops, t) by {
          assert DisjointTypes(w0.controllers[if who < other then who else other].ops,
                               w0.controllers[if who < other then other else who].ops);
        }
        MergeLeavesOthersAlone(c.phase.merged, w.history[n].list, w0.controllers[who], t);
        assert EntryAsAlone(w0, other, o, t, n, w.history[n]);
      }
    }
  }

  lemma {:induction false} ForeignKeepsHistory(w0: World, w: World, v: Version, who: nat)
    requires SeparatedInv(w0, w) && Enabled(w, Foreign(v)) && Respects(w0, w, Foreign(v)) && who < |w.controllers|
    ensures HistoryAsAlone(w0, who, w.controllers[who], w.history + [v])
  {
    var c, n, h := w.controllers[who], Current(w), w.history + [v];
    assert ControllerInv(|w0.history|, w.history, who, w0.controllers[who], c) && HistoryAsAlone(w0, who, c, w.history);
    forall t, i | Touches(w0.controllers[who].ops, t) && Current(w0) <= i < |h| ensures EntryAsAlone(w0, who, c, t, i, h[i]) {
      assert EntryAsAlone(w0, who, c, t, if i <= n then i else n, w.history[if i <= n then i else n]);
    }
  }

  lemma {:induction false} HistoryIgnoresPhase(
    w0: World, who: nat, c: Controller, c': Controller, history: seq<Version>)
    requires w0.history != [] && who < |w0.controllers|
    requires HistoryAsAlone(w0, who, c, history) && c'.landed == c.landed
    ensures HistoryAsAlone(w0, who, c', history)
  {
    forall t, i | Touches(w0.controllers[who].ops, t) && Current(w0) <= i < |history|
      ensures EntryAsAlone(w0, who, c', t, i, history[i])
    {
      assert EntryAsAlone(w0, who, c, t, i, history[i]);
    }
  }

  lemma {:induction false} StepKeepsSeparated(w0: World, w: World, s: Step, who: nat)
    requires SeparatedInv(w0, w) && Initial(w0) && PairwiseDisjoint(w0)
    requires Enabled(w, s) && Respects(w0, w, s) && who < |w.controllers|
    ensures var c' := Next(w, s).controllers[who];
            && (c'.landed.Some? ==> Alone(w0, who).Ok())
            && HistoryAsAlone(w0, who, c', Next(w, s).history)
  {
    var c, w' := w.controllers[who], Next(w, s);
    assert (c.landed.Some? ==> Alone(w0, who).Ok()) && HistoryAsAlone(w0, who, c, w.history);
    if s.Foreign? {
      ForeignKeepsHistory(w0, w, s.version, who);
    } else if Commits(w, s) {
      if s.who == who {
        CommitKeepsOwnHistory(w0, w, who, if s.Write? then Committed else ClientError);
      } else {
        CommitKeepsOtherHistory(w0, w, s.who, if s.Write? then Committed else ClientError, who);
      }
    } else {
      HistoryIgnoresPhase(w0, who, c, w'.controllers[who], w.history);
    }
  }

  lemma {:induction false} RunKeepsSeparated(ws: seq<World>, steps: seq<Step>, i: nat)
    requires IsSeparatedRun(ws, steps) && i < |ws|
    ensures SeparatedInv(ws[0], ws[i])
  {
    RunKeepsInv(ws, steps, i);
    if i > 0 {
      RunKeepsSeparated(ws, steps, i - 1);
      forall who | 0 <= who < |ws[i].controllers|
        ensures ws[i].controllers[who].landed.Some? ==> Alone(ws[0], who).Ok()
        ensures HistoryAsAlone(ws[0], who, ws[i].controllers[who], ws[i].history)
      {
        assert Respects(ws[0], ws[i - 1], steps[i - 1]);
        assert Inv(ws[0], ws[i - 1]);
        StepKeepsSeparated(ws[0], ws[i - 1], steps[i - 1], who);
      }
    } else {
      forall who | 0 <= who < |ws[0].controllers|
        ensures ws[0].controllers[who].landed.None?
        ensures HistoryAsAlone(ws[0], who, ws[0].controllers[who], ws[0].history)
      {
        assert ws[0].controllers[who] in ws[0].controllers;
      }
    }
  }

  // Landing and refusal.

  /** In every separated run, however stale the reads, a controller that lands would succeed alone. */
  lemma {:induction false} LandingSucceedsAlone(ws: seq<World>, steps: seq<Step>, i: nat, who: nat)
    requires IsSeparatedRun(ws, steps) && i < |ws| && who < |ws[0].controllers|
    ensures who < |ws[i].controllers|
    ensures ws[i].controllers[who].landed.Some? ==> Alone(ws[0], who).Ok()
  {
    RunKeepsSeparated(ws, steps, i);
  }

  /** The version that step `j` reads. */
  function ReadAt(ws: seq<World>, steps: seq<Step>, j: nat): EntryMap
    requires j < |ws| && j < |steps| && steps[j].Merge? && steps[j].read < |ws[j].history|
  {
    Entries(ws[j].history[steps[j].read].list)
  }

  /** A merge conflict is that of the diff, alone, with the version that one merge step of the call has read; and if
      that version is not from before the start, it is that of the diff alone with the version at the start. */
  lemma {:induction false} ConflictComesFromRead(
    ws: seq<World>, steps: seq<Step>, i: nat, who: nat, t: ConditionType) returns (j: nat)
    requires IsSeparatedRun(ws, steps) && i < |ws| && who < |ws[0].controllers| && who < |ws[i].controllers|
    requires ws[i].controllers[who].phase == Done(MergeConflict(t))
    ensures j < i && IsMergeBy(steps[j], who) && steps[j].read < |ws[j].history|
    ensures AloneOn(ReadAt(ws, steps, j), ws[0].controllers[who]).conflict == Some(t)
    ensures steps[j].read >= Current(ws[0]) ==> Alone(ws[0], who).conflict == Some(t)
  {
    assert ws[0].controllers[who] in ws[0].controllers;
    j := 0;
    if i > 0 {
      j := i - 1;
      assert Enabled(ws[j], steps[j]) && ws[i] == Next(ws[j], steps[j]);
      if ws[j].controllers[who].phase == Done(MergeConflict(t)) {
        j := ConflictComesFromRead(ws, steps, j, who, t);
      } else {
        RunKeepsSeparated(ws, steps, j);
        RefusedByRead(ws[0], ws[j], steps[j], who, t);
      }
    }
  }

  lemma {:induction false} RefusedByRead(w0: World, w: World, s: Step, who: nat, t: ConditionType)
    requires SeparatedInv(w0, w) && Initial(w0) && Enabled(w, s) && who < |w.controllers|
    requires w.controllers[who].phase != Done(MergeConflict(t))
    requires Next(w, s).controllers[who].phase == Done(MergeConflict(t))
    ensures IsMergeBy(s, who) && s.read < |w.history|
    ensures AloneOn(Entries(w.history[s.read].list), w0.controllers[who]).conflict == Some(t)
    ensures s.read >= Current(w0) ==> Alone(w0, who).conflict == Some(t)
  {
    var c0, c := w0.controllers[who], w.controllers[who];
    assert ControllerInv(|w0.history|, w.history, who, c0, c) && HistoryAsAlone(w0, who, c, w.history);
    assert c0 in w0.controllers;
    assert IsMergeBy(s, who) && c.phase == Ready;
    var m := Entries(w.history[s.read].list);
    DecidesAlike(m, m, c0, c.ops, s.clock);
    if s.read >= Current(w0) {
      forall u | Touches(c0.ops, u) ensures At(Base(w0), u) == At(m, u) {
        assert EntryAsAlone(w0, who, c, u, s.read, w.history[s.read]);
      }
      DecidesAlike(Base(w0), m, c0, c.ops, s.clock);
    }
  }

  /** Versions from before the start that the controller reads have its types as the start has them. Reads that do
      not go back that far are always fine. */
  ghost predicate OldReadsAgree(ws: seq<World>, steps: seq<Step>, who: nat)
    requires IsSeparatedRun(ws, steps) && who < |ws[0].controllers|
  {
    forall j, t | 0 <= j < |steps| && IsMergeBy(steps[j], who) && steps[j].read < Current(ws[0])
                  && steps[j].read < |ws[j].history| && Touches(ws[0].controllers[who].ops, t) ::
      At(ReadAt(ws, steps, j), t) == At(Base(ws[0]), t)
  }

  /** They do not refuse a diff that succeeds at the start. */
  ghost predicate OldReadsAreHarmless(ws: seq<World>, steps: seq<Step>, who: nat)
    requires IsSeparatedRun(ws, steps) && who < |ws[0].controllers|
  {
    forall j | 0 <= j < |steps| && IsMergeBy(steps[j], who) && steps[j].read < Current(ws[0])
               && steps[j].read < |ws[j].history| && Alone(ws[0], who).Ok() ::
      AloneOn(ReadAt(ws, steps, j), ws[0].controllers[who]).Ok()
  }

  lemma {:induction false} AgreeingReadDecidesAlike(ws: seq<World>, steps: seq<Step>, who: nat, j: nat)
    requires IsSeparatedRun(ws, steps) && who < |ws[0].controllers| && OldReadsAgree(ws, steps, who)
    requires j < |steps| && IsMergeBy(steps[j], who) && steps[j].read < Current(ws[0]) && steps[j].read < |ws[j].history|
    ensures AloneOn(ReadAt(ws, steps, j), ws[0].controllers[who]).conflict == Alone(ws[0], who).conflict
  {
    var c0 := ws[0].controllers[who];
    assert c0 in ws[0].controllers;
    assert SameDiff(c0.ops, c0.ops) by { SameDiffIsReflexive(c0.ops); }
    DecidesAlike(Base(ws[0]), ReadAt(ws, steps, j), c0, c0.ops, (k: nat) => 0);
  }

  lemma {:induction false} SameDiffIsReflexive(ops: seq<Op>)
    ensures SameDiff(ops, ops)
  {}

  lemma {:induction false} AgreeingReadsAreHarmless(ws: seq<World>, steps: seq<Step>, who: nat)
    requires IsSeparatedRun(ws, steps) && who < |ws[0].controllers| && OldReadsAgree(ws, steps, who)
    ensures OldReadsAreHarmless(ws, steps, who)
  {
    forall j | 0 <= j < |steps| && IsMergeBy(steps[j], who) && steps[j].read < Current(ws[0])
               && steps[j].read < |ws[j].history| && Alone(ws[0], who).Ok()
      ensures AloneOn(ReadAt(ws, steps, j), ws[0].controllers[who]).Ok()
    {
      AgreeingReadDecidesAlike(ws, steps, who, j);
    }
  }

  /** A controller that lands would succeed alone and, unless it has read a version from before the start that differs
      on its types, one that meets a merge conflict would meet the same one alone. */
  lemma {:induction false} DecisionsAreIndependent(ws: seq<World>, steps: seq<Step>, i: nat, who: nat)
    requires IsSeparatedRun(ws, steps) && i < |ws| && who < |ws[0].controllers|
    requires OldReadsAgree(ws, steps, who)
    ensures who < |ws[i].controllers|
    ensures var c := ws[i].controllers[who];
            && (c.landed.Some? ==> Alone(ws[0], who).Ok())
            && forall t :: c.phase == Done(MergeConflict(t)) ==> Alone(ws[0], who).conflict == Some(t)
  {
    LandingSucceedsAlone(ws, steps, i, who);
    forall t | ws[i].controllers[who].phase == Done(MergeConflict(t))
      ensures Alone(ws[0], who).conflict == Some(t)
    {
      var j := ConflictComesFromRead(ws, steps, i, who, t);
      if steps[j].read < Current(ws[0]) {
        AgreeingReadDecidesAlike(ws, steps, who, j);
      }
    }
  }

  /** The call has ended, in a commit or a merge conflict. */
  predicate HasEnded(c: Controller) {
    c.phase.Done? && (c.phase.ending == Committed || c.phase.ending.MergeConflict?)
  }

  lemma {:induction false} EndedLandsOrConflicts(ws: seq<World>, steps: seq<Step>, i: nat, who: nat)
    requires IsSeparatedRun(ws, steps) && i < |ws| && who < |ws[0].controllers|
    ensures |ws[i].controllers| == |ws[0].controllers|
    ensures HasEnded(ws[i].controllers[who]) ==>
              (ws[i].controllers[who].landed.Some? <==> ws[i].controllers[who].phase == Done(Committed))
  {
    RunKeepsInv(ws, steps, i);
    assert ControllerInv(|ws[0].history|, ws[i].history, who, ws[0].controllers[who], ws[i].controllers[who]);
  }

  /** Once its call has ended this way, a controller has landed exactly if its diff would succeed alone: neither the
      order of the commits nor what was read decides it, as long as no version from before the start refuses what
      the start accepts. */
  lemma {:induction false} LandsIffSucceedsAlone(ws: seq<World>, steps: seq<Step>, i: nat, who: nat)
    requires IsSeparatedRun(ws, steps) && i < |ws| && who < |ws[0].controllers| && who < |ws[i].controllers|
    requires HasEnded(ws[i].controllers[who])
    requires ws[i].controllers[who].phase == Done(Committed) || OldReadsAreHarmless(ws, steps, who)
    ensures ws[i].controllers[who].landed.Some? <==> Alone(ws[0], who).Ok()
  {
    LandingSucceedsAlone(ws, steps, i, who);
    EndedLandsOrConflicts(ws, steps, i, who);
    var c := ws[i].controllers[who];
    if c.phase != Done(Committed) {
      var j := ConflictComesFromRead(ws, steps, i, who, c.phase.ending.typ);
    }
  }

  // When a stale read can refuse.

  /** In every separated run from here the controller, once ended, has landed exactly if it succeeds alone. */
  ghost predicate OutcomeIsFixed(w0: World, who: nat)
    requires w0.history != [] && who < |w0.controllers|
  {
    forall ws: seq<World>, steps: seq<Step>, i: nat | EndsSeparately(w0, who, ws, steps, i) ::
      ws[i].controllers[who].landed.Some? == Alone(w0, who).Ok()
  }

  ghost predicate EndsSeparately(w0: World, who: nat, ws: seq<World>, steps: seq<Step>, i: nat) {
    && IsSeparatedRun(ws, steps) && ws[0] == w0 && i < |ws| && who < |ws[i].controllers|
    && HasEnded(ws[i].controllers[who])
  }

  /** No version that a cache may still serve refuses a diff that the current one accepts. */
  predicate NoVersionMisleads(w0: World, who: nat)
    requires w0.history != [] && who < |w0.controllers|
  {
    Alone(w0, who).Ok() ==>
      forall r | 0 <= r < |w0.history| :: AloneOn(Entries(w0.history[r].list), w0.controllers[who]).Ok()
  }

  lemma {:induction false} NoOldReadMisleads(ws: seq<World>, steps: seq<Step>, who: nat)
    requires IsSeparatedRun(ws, steps) && who < |ws[0].controllers| && NoVersionMisleads(ws[0], who)
    ensures OldReadsAreHarmless(ws, steps, who)
  {
    forall j | 0 <= j < |steps| && IsMergeBy(steps[j], who) && steps[j].read < Current(ws[0])
               && steps[j].read < |ws[j].history| && Alone(ws[0], who).Ok()
      ensures AloneOn(ReadAt(ws, steps, j), ws[0].controllers[who]).Ok()
    {
      HistoryGrows(ws, steps, 0, j);
    }
  }

  /** Reading version `r` first. */
  lemma {:induction false} OneReadEnds(w0: World, who: nat, r: nat) returns (ws: seq<World>, steps: seq<Step>)
    requires Initial(w0) && PairwiseDisjoint(w0) && who < |w0.controllers| && r < |w0.history|
    requires !AloneOn(Entries(w0.history[r].list), w0.controllers[who]).Ok()
    ensures EndsSeparately(w0, who, ws, steps, 1) && ws[1].controllers[who].landed.None?
    ensures ws[1].controllers[who].phase.ending.MergeConflict?
  {
    var c, m := w0.controllers[who], Entries(w0.history[r].list);
    assert c in w0.controllers;
    ApplyFrame(m, c.ops, |c.ops|, c.opts, (k: nat) => 0);
    var merged := CanonicalListExists(AloneOn(m, c).entries);
    CanonicalIsUnique(merged);
    var s := Merge(who, r, (k: nat) => 0, merged);
    assert Enabled(w0, s);
    ws, steps := [w0, Next(w0, s)], [s];
  }

  /** The exact condition: whatever the interleaving, the outcome of a controller's call is that of its diff alone if
      and only if no version on the server refuses a diff that the current one accepts. */
  lemma {:induction false} OutcomeIsFixedIff(w0: World, who: nat)
    requires Initial(w0) && PairwiseDisjoint(w0) && who < |w0.controllers|
    ensures OutcomeIsFixed(w0, who) <==> NoVersionMisleads(w0, who)
  {
    if NoVersionMisleads(w0, who) {
      forall ws: seq<World>, steps: seq<Step>, i: nat | EndsSeparately(w0, who, ws, steps, i)
        ensures ws[i].controllers[who].landed.Some? == Alone(w0, who).Ok()
      {
        NoOldReadMisleads(ws, steps, who);
        LandsIffSucceedsAlone(ws, steps, i, who);
      }
    } else {
      var r :| 0 <= r < |w0.history| && !AloneOn(Entries(w0.history[r].list), w0.controllers[who]).Ok();
      var ws, steps := OneReadEnds(w0, who, r);
      assert !OutcomeIsFixed(w0, who);
    }
  }

  /** Such a server: a version from before the condition turned True is still in the cache, and a diff that merges
      into the current version is refused because of it. */
  lemma {:induction false} StaleVersionCanMislead() returns (w0: World, ws: seq<World>, steps: seq<Step>)
    ensures Initial(w0) && PairwiseDisjoint(w0) && |w0.controllers| == 1
    ensures Alone(w0, 0).Ok()
    ensures EndsSeparately(w0, 0, ws, steps, 1) && ws[1].controllers[0].phase.ending.MergeConflict?
  {
    var was := FalseCondition("D", "", SeverityError, "").(time := 1);
    var now, next := TrueCondition("D").(time := 2), FalseCondition("D", "", SeverityError, "y").(time := 3);
    var c := Controller([Change(now, next)], ApplyOptions([], false), Ready, 0, None);
    w0 := World([Version([was], EMPTY, None), Version([now], EMPTY, None)], [c]);
    SingleEntry(was);
    SingleEntry(now);
    SucceedsIffNoneConflicts(Entries([was]), c.ops, 1, c.opts, (k: nat) => 0);
    SucceedsIffNoneConflicts(Entries([now]), c.ops, 1, c.opts, (k: nat) => 0);
    ws, steps := OneReadEnds(w0, 0, 0);
  }

  // The final state.

  /** The controllers that have landed are all that matters: two separated runs from one start in which the same
      controllers have landed agree on the state of every type any of them is about. */
  lemma {:induction false} RunsConverge(
    ws: seq<World>, steps: seq<Step>, i: nat, ws': seq<World>, steps': seq<Step>, i': nat,
    who: nat, t: ConditionType)
    requires IsSeparatedRun(ws, steps) && i < |ws|
    requires IsSeparatedRun(ws', steps') && i' < |ws'|
    requires ws[0] == ws'[0] && who < |ws[0].controllers|
    requires Touches(ws[0].controllers[who].ops, t)
    ensures who < |ws[i].controllers| && who < |ws'[i'].controllers|
    ensures ws[i].history != [] && ws'[i'].history != []
    ensures ws[i].controllers[who].landed.Some? == ws'[i'].controllers[who].landed.Some? ==>
            SameState(At(Entries(ws[i].history[Current(ws[i])].list), t),
                      At(Entries(ws'[i'].history[Current(ws'[i'])].list), t))
  {
    FinalState(ws, steps, i, who, t);
    FinalState(ws', steps', i', who, t);
  }

  /** The state itself: that of the controller's diff applied alone if it has landed, the initial one if not. */
  lemma {:induction false} FinalState(ws: seq<World>, steps: seq<Step>, i: nat, who: nat, t: ConditionType)
    requires IsSeparatedRun(ws, steps) && i < |ws| && who < |ws[0].controllers|
    requires Touches(ws[0].controllers[who].ops, t)
    ensures who < |ws[i].controllers| && ws[i].history != []
    ensures var final := At(Entries(ws[i].history[Current(ws[i])].list), t);
            if ws[i].controllers[who].landed.Some? then SameState(final, At(Alone(ws[0], who).entries, t))
            else final == At(Base(ws[0]), t)
  {
    RunKeepsSeparated(ws, steps, i);
    var n, c := Current(ws[i]), ws[i].controllers[who];
    assert ControllerInv(|ws[0].history|, ws[i].history, who, ws[0].controllers[who], c);
    assert HistoryAsAlone(ws[0], who, c, ws[i].history);
    assert EntryAsAlone(ws[0], who, c, t, n, ws[i].history[n]);
  }

  // Complete runs.

  /** Every call has ended, in a commit or in a merge conflict that no version from before the start is to blame for. */
  ghost predicate Settled(ws: seq<World>, steps: seq<Step>, i: nat)
    requires IsSeparatedRun(ws, steps) && i < |ws|
  {
    && |ws[i].controllers| == |ws[0].controllers|
    && forall who | 0 <= who < |ws[0].controllers| ::
         && HasEnded(ws[i].controllers[who])
         && (ws[i].controllers[who].phase == Done(Committed) || OldReadsAreHarmless(ws, steps, who))
  }

  ghost predicate NobodyElse(steps: seq<Step>) {
    forall i | 0 <= i < |steps| :: !steps[i].Foreign?
  }

  ghost predicate NoneTouches(w: World, t: ConditionType) {
    forall who | 0 <= who < |w.controllers| :: !Touches(w.controllers[who].ops, t)
  }

  /** What no controller is about stays bit for bit as it was. */
  lemma {:induction false} UntouchedStays(ws: seq<World>, steps: seq<Step>, i: nat, t: ConditionType)
    requires IsRun(ws, steps) && Initial(ws[0]) && NobodyElse(steps) && i < |ws| && NoneTouches(ws[0], t)
    ensures ws[i].history != []
    ensures At(Entries(ws[i].history[Current(ws[i])].list), t) == At(Entries(ws[0].history[Current(ws[0])].list), t)
  {
    if i > 0 {
      UntouchedStays(ws, steps, i - 1, t);
      assert Enabled(ws[i - 1], steps[i - 1]) && ws[i] == Next(ws[i - 1], steps[i - 1]);
      if Commits(ws[i - 1], steps[i - 1]) {
        var _ := NoLostUpdate(ws, steps, i - 1);
      } else {
        OnlyCommitsAndForeignersWrite(ws[i - 1], steps[i - 1]);
      }
    }
  }

  function FinalMap(ws: seq<World>, i: nat): EntryMap
    requires i < |ws| && ws[i].history != []
  {
    Entries(ws[i].history[Current(ws[i])].list)
  }

  lemma {:induction false} TouchedTypesConverge(
    ws: seq<World>, steps: seq<Step>, i: nat, ws': seq<World>, steps': seq<Step>, i': nat, who: nat, t: ConditionType)
    requires IsSeparatedRun(ws, steps) && i < |ws| && Settled(ws, steps, i)
    requires IsSeparatedRun(ws', steps') && i' < |ws'| && Settled(ws', steps', i')
    requires ws[0] == ws'[0] && who < |ws[0].controllers| && Touches(ws[0].controllers[who].ops, t)
    ensures ws[i].history != [] && ws'[i'].history != []
    ensures SameState(At(FinalMap(ws, i), t), At(FinalMap(ws', i'), t))
  {
    LandsIffSucceedsAlone(ws, steps, i, who);
    LandsIffSucceedsAlone(ws', steps', i', who);
    RunsConverge(ws, steps, i, ws', steps', i', who, t);
  }

  /** Confluence: any number of controllers about different types, in any order of commits, with stale reads and
      retries in between, on a server with any history, reach the same conditions up to timestamps, all of them, once
      every call has ended. */
  lemma {:induction false} EveryOrderConverges(
    ws: seq<World>, steps: seq<Step>, i: nat, ws': seq<World>, steps': seq<Step>, i': nat)
    requires IsSeparatedRun(ws, steps) && NobodyElse(steps) && i < |ws| && Settled(ws, steps, i)
    requires IsSeparatedRun(ws', steps') && NobodyElse(steps') && i' < |ws'| && Settled(ws', steps', i')
    requires ws[0] == ws'[0]
    ensures ws[i].history != [] && ws'[i'].history != []
    ensures SameStates(FinalMap(ws, i), FinalMap(ws', i'))
  {
    HistoryGrows(ws, steps, 0, i);
    HistoryGrows(ws', steps', 0, i');
    forall t ensures SameState(At(FinalMap(ws, i), t), At(FinalMap(ws', i'), t)) {
      if NoneTouches(ws[0], t) {
        UntouchedStays(ws, steps, i, t);
        UntouchedStays(ws', steps', i', t);
      } else {
        var who :| 0 <= who < |ws[0].controllers| && Touches(ws[0].controllers[who].ops, t);
        TouchedTypesConverge(ws, steps, i, ws', steps', i', who, t);
      }
    }
  }

  /** On a server whose lists are sorted, as lists: position by position. */
  lemma {:induction false} EveryOrderConvergesOnLists(
    ws: seq<World>, steps: seq<Step>, i: nat, ws': seq<World>, steps': seq<Step>, i': nat)
    requires IsSeparatedRun(ws, steps) && NobodyElse(steps) && i < |ws| && Settled(ws, steps, i)
    requires IsSeparatedRun(ws', steps') && NobodyElse(steps') && i' < |ws'| && Settled(ws', steps', i')
    requires ws[0] == ws'[0] && Sorted(ws[0].history)
    ensures ws[i].history != [] && ws'[i'].history != []
    ensures SameLists(ws[i].history[Current(ws[i])].list, ws'[i'].history[Current(ws'[i'])].list)
  {
    EveryOrderConverges(ws, steps, i, ws', steps', i');
    RunKeepsSorted(ws, steps, i);
    RunKeepsSorted(ws', steps', i');
    var v, v' := ws[i].history[Current(ws[i])], ws'[i'].history[Current(ws'[i'])];
    assert v in ws[i].history && v' in ws'[i'].history;
    SameStatesAsLists(v.list, v'.list);
  }
}
