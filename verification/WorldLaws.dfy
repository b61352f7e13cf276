/** Safety of the publishing protocol over every run. */
module WorldLaws {
  import opened Api
  import opened Ordering
  import opened Store
  import opened MergePatch
  import opened MergeLaws
  import opened World

  lemma {:induction false} InvGrows(
    start: nat, history: seq<Version>, v: Version, who: nat, c0: Controller, c: Controller)
    requires ControllerInv(start, history, who, c0, c) && v.writer != Some(who)
    ensures ControllerInv(start, history + [v], who, c0, c)
  {
    var h := history + [v];
    assert forall i | 0 <= i < |history| :: h[i] == history[i];
  }

  lemma {:induction false} SameDiffTransitive(a: seq<Op>, b: seq<Op>, c: seq<Op>)
    requires SameDiff(a, b) && SameDiff(b, c)
    ensures SameDiff(a, c)
  {
    forall k | 0 <= k < |a| ensures SameUpToTime(a[k], c[k]) {
      assert SameUpToTime(a[k], b[k]) && SameUpToTime(b[k], c[k]);
    }
  }

  lemma {:induction false} MergeKeepsInv(
    start: nat, history: seq<Version>, who: nat, c0: Controller, c: Controller, read: nat, clock: Clock, merged: seq<Condition>)
    requires ControllerInv(start, history, who, c0, c) && c.phase == Ready
    requires read < |history| && IsMergeResult(history[read], c, clock, merged)
    ensures ControllerInv(start, history, who, c0, AfterMerge(c, history[read], read, clock, merged))
  {
    var base := history[read].list;
    var r := ApplySpec(Entries(base), c.ops, c.opts, clock);
    ApplyKeepsDiff(Entries(base), c.ops, |c.ops|, c.opts, clock);
    SameDiffTransitive(c0.ops, c.ops, r.ops);
    assert r.Ok() ==> MergesTo(merged, base, c.ops, c.opts, clock);
  }

  lemma {:induction false} CommitKeepsInvOfOthers(
    start: nat, w: World, who: nat, ending: Ending, other: nat, c0: Controller)
    requires w.history != [] && who < |w.controllers| && w.controllers[who].phase.Holding?
    requires other < |w.controllers| && other != who
    requires ControllerInv(start, w.history, other, c0, w.controllers[other])
    ensures var w' := Commit(w, who, ending); ControllerInv(start, w'.history, other, c0, w'.controllers[other])
  {
    var merged, now := w.controllers[who].phase.merged, w.history[Current(w)];
    InvGrows(start, w.history, Version(merged, now.rest, Some(who)), other, c0, w.controllers[other]);
  }

  lemma {:induction false} CommitKeepsInvOfWriter(
    start: nat, w: World, who: nat, ending: Ending, c0: Controller)
    requires 0 < start <= |w.history| && who < |w.controllers| && w.controllers[who].phase.Holding?
    requires w.controllers[who].phase.version == Current(w)
    requires ControllerInv(start, w.history, who, c0, w.controllers[who])
    requires ending in {Committed, ClientError}
    ensures var w' := Commit(w, who, ending); ControllerInv(start, w'.history, who, c0, w'.controllers[who])
  {
    var c, w' := w.controllers[who], Commit(w, who, ending);
    var n := Current(w);
    assert IsMergeOf(c.phase.merged, w.history[n].list, c0);
    assert forall i | 0 <= i < |w.history| :: w'.history[i] == w.history[i];
    assert Landing(start, w'.history, who, |w'.history| - 1, c0);
  }

  /** One step, whoever takes it, keeps the invariant. */
  lemma {:induction false} NextKeepsInv(w0: World, w: World, s: Step)
    requires w0.history != [] && Inv(w0, w) && Enabled(w, s)
    ensures Inv(w0, Next(w, s))
  {
    var w' := Next(w, s);
    forall who | 0 <= who < |w'.controllers|
      ensures ControllerInv(|w0.history|, w'.history, who, w0.controllers[who], w'.controllers[who])
    {
      StepKeepsControllerInv(w0, w, s, who);
    }
  }

  lemma {:induction false} StepKeepsControllerInv(w0: World, w: World, s: Step, who: nat)
    requires w0.history != [] && Inv(w0, w) && Enabled(w, s) && who < |w.controllers|
    ensures ControllerInv(|w0.history|, Next(w, s).history, who, w0.controllers[who], Next(w, s).controllers[who])
  {
    var c0, c := w0.controllers[who], w.controllers[who];
    match s {
      case Foreign(v) => InvGrows(|w0.history|, w.history, v, who, c0, c);
      case Merge(actor, read, clock, merged) =>
        if actor == who { MergeKeepsInv(|w0.history|, w.history, who, c0, c, read, clock, merged); }
      case Write(actor) =>
        if w.controllers[actor].phase.version == Current(w) {
          if actor == who { CommitKeepsInvOfWriter(|w0.history|, w, who, Committed, c0); }
          else { CommitKeepsInvOfOthers(|w0.history|, w, actor, Committed, who, c0); }
        }
      case Fail(actor, took) =>
        if took {
          if actor == who { CommitKeepsInvOfWriter(|w0.history|, w, who, ClientError, c0); }
          else { CommitKeepsInvOfOthers(|w0.history|, w, actor, ClientError, who, c0); }
        }
    }
  }

  lemma {:induction false} InitialInv(w0: World)
    requires Initial(w0)
    ensures Inv(w0, w0)
  {
    forall c | c in w0.controllers ensures SameDiff(c.ops, c.ops) {}
  }

  lemma {:induction false} RunKeepsInv(ws: seq<World>, steps: seq<Step>, i: nat)
    requires IsRun(ws, steps) && Initial(ws[0]) && i < |ws|
    ensures Inv(ws[0], ws[i])
  {
    if i == 0 {
      InitialInv(ws[0]);
    } else {
      RunKeepsInv(ws, steps, i - 1);
      NextKeepsInv(ws[0], ws[i - 1], steps[i - 1]);
    }
  }

  // Where a merge comes from.

  /** Versions are never rewritten. */
  lemma {:induction false} HistoryGrows(ws: seq<World>, steps: seq<Step>, i: nat, j: nat)
    requires IsRun(ws, steps) && i <= j < |ws|
    ensures ws[i].history <= ws[j].history && |ws[i].controllers| == |ws[j].controllers|
  {
    if i < j {
      HistoryGrows(ws, steps, i, j - 1);
      assert Enabled(ws[j - 1], steps[j - 1]) && ws[j] == Next(ws[j - 1], steps[j - 1]);
    }
  }

  predicate IsMergeBy(s: Step, who: nat) {
    s.Merge? && s.who == who
  }

  lemma {:induction false} HoldingOutlivesOtherSteps(w: World, s: Step, who: nat)
    requires Enabled(w, s) && who < |w.controllers| && Next(w, s).controllers[who].phase.Holding?
    ensures IsMergeBy(s, who) || Next(w, s).controllers[who] == w.controllers[who]
  {}

  /** What a controller holds is what its last merge gave. */
  lemma {:induction false} HoldsItsLastMerge(ws: seq<World>, steps: seq<Step>, i: nat, who: nat) returns (j: nat)
    requires IsRun(ws, steps) && Initial(ws[0]) && i < |ws| && who < |ws[i].controllers|
    requires ws[i].controllers[who].phase.Holding?
    ensures j < i && IsMergeBy(steps[j], who) && ws[i].controllers[who] == ws[j + 1].controllers[who]
  {
    assert who < |ws[0].controllers| ==> ws[0].controllers[who] in ws[0].controllers;
    j := 0;
    if i > 0 {
      j := i - 1;
      assert Enabled(ws[j], steps[j]) && ws[i] == Next(ws[j], steps[j]);
      HoldingOutlivesOtherSteps(ws[j], steps[j], who);
      if !IsMergeBy(steps[j], who) {
        j := HoldsItsLastMerge(ws, steps, j, who);
      }
    }
  }

  /** The time of operation k before step i: the one it started with, or one that an earlier merge of the same call
      put there, which is a reading of the clock or the time of the entry that merge met. */
  ghost predicate TimeComesFrom(ws: seq<World>, steps: seq<Step>, i: nat, who: nat, k: nat)
    requires IsRun(ws, steps) && i < |ws| && who < |ws[0].controllers| && who < |ws[i].controllers|
    requires k < |ws[0].controllers[who].ops| && k < |ws[i].controllers[who].ops|
  {
    var op0, op := ws[0].controllers[who].ops[k], ws[i].controllers[who].ops[k];
    op == op0 || exists a :: 0 <= a < i && StampedAt(ws, steps, a, who, k, op)
  }

  /** Step `a` is a merge in which operation `op` got its time. */
  predicate StampedAt(ws: seq<World>, steps: seq<Step>, a: nat, who: nat, k: nat, op: Op)
    requires a < |ws| && a < |steps|
  {
    && IsMergeBy(steps[a], who) && steps[a].read < |ws[a].history| && !op.Remove?
    && var l := At(Entries(ws[a].history[steps[a].read].list), op.Type());
       op.after.time == steps[a].clock(k) || (l.Some? && op.after.time == l.value.time)
  }

  lemma {:induction false} MergeStamps(ws: seq<World>, steps: seq<Step>, i: nat, who: nat, k: nat)
    requires IsRun(ws, steps) && i < |steps| && who < |ws[i].controllers| && IsMergeBy(steps[i], who)
    requires DistinctTypes(ws[i].controllers[who].ops) && k < |ws[i].controllers[who].ops|
    ensures |ws[i + 1].controllers| == |ws[i].controllers|
    ensures |ws[i + 1].controllers[who].ops| == |ws[i].controllers[who].ops|
    ensures var op, op' := ws[i].controllers[who].ops[k], ws[i + 1].controllers[who].ops[k];
            op' == op || StampedAt(ws, steps, i, who, k, op')
  {
    var s, c := steps[i], ws[i].controllers[who];
    assert Enabled(ws[i], s) && ws[i + 1] == Next(ws[i], s);
    RestampedOperation(Entries(ws[i].history[s.read].list), c.ops, |c.ops|, c.opts, s.clock, k);
  }

  lemma {:induction false} OthersKeepOperations(w: World, s: Step, who: nat)
    requires Enabled(w, s) && who < |w.controllers| && !IsMergeBy(s, who)
    ensures |Next(w, s).controllers| == |w.controllers| && Next(w, s).controllers[who].ops == w.controllers[who].ops
  {}

  lemma {:induction false} OperationsStayDistinct(ws: seq<World>, steps: seq<Step>, i: nat, who: nat)
    requires IsRun(ws, steps) && Initial(ws[0]) && i < |ws| && who < |ws[0].controllers|
    ensures |ws[i].controllers| == |ws[0].controllers|
    ensures DistinctTypes(ws[i].controllers[who].ops) && SameDiff(ws[0].controllers[who].ops, ws[i].controllers[who].ops)
  {
    RunKeepsInv(ws, steps, i);
    assert ControllerInv(|ws[0].history|, ws[i].history, who, ws[0].controllers[who], ws[i].controllers[who]);
    assert ws[0].controllers[who] in ws[0].controllers;
    SameDiffStaysDistinct(ws[0].controllers[who].ops, ws[i].controllers[who].ops);
  }

  lemma {:induction false} TimesComeFromMerges(ws: seq<World>, steps: seq<Step>, i: nat, who: nat, k: nat)
    requires IsRun(ws, steps) && Initial(ws[0]) && i < |ws| && who < |ws[0].controllers|
    requires k < |ws[0].controllers[who].ops|
    ensures who < |ws[i].controllers| && |ws[i].controllers[who].ops| == |ws[0].controllers[who].ops|
    ensures TimeComesFrom(ws, steps, i, who, k)
  {
    OperationsStayDistinct(ws, steps, i, who);
    if i > 0 {
      var j := i - 1;
      TimesComeFromMerges(ws, steps, j, who, k);
      OperationsStayDistinct(ws, steps, j, who);
      assert Enabled(ws[j], steps[j]) && ws[i] == Next(ws[j], steps[j]);
      if IsMergeBy(steps[j], who) {
        MergeStamps(ws, steps, j, who, k);
      } else {
        OthersKeepOperations(ws[j], steps[j], who);
      }
    }
  }

  // No lost update.

  predicate Commits(w: World, s: Step)
    requires Enabled(w, s)
  {
    (s.Write? || (s.Fail? && s.took)) && w.controllers[s.who].phase.version == Current(w)
  }

  /** The merge that step `j` computes is the merge of the controller's diff, in the form it has by then, into `base`
      at the times of that step's clock. */
  ghost predicate MergedAtStep(ws: seq<World>, steps: seq<Step>, j: nat, who: nat, merged: seq<Condition>, base: seq<Condition>)
    requires IsRun(ws, steps) && who < |ws[0].controllers|
  {
    && j < |steps| && IsMergeBy(steps[j], who) && who < |ws[j].controllers|
    && var c := ws[j].controllers[who];
       && MergesTo(merged, base, c.ops, c.opts, steps[j].clock)
       && |c.ops| == |ws[0].controllers[who].ops|
       && forall k | 0 <= k < |c.ops| :: TimeComesFrom(ws, steps, j, who, k)
  }

  lemma {:induction false} CommitsItsLastMerge(ws: seq<World>, steps: seq<Step>, i: nat) returns (j: nat)
    requires IsRun(ws, steps) && Initial(ws[0]) && i < |steps| && Enabled(ws[i], steps[i]) && Commits(ws[i], steps[i])
    ensures j < i && steps[i].who < |ws[0].controllers|
    ensures MergedAtStep(ws, steps, j, steps[i].who, ws[i].controllers[steps[i].who].phase.merged,
                         ws[i].history[Current(ws[i])].list)
  {
    var who := steps[i].who;
    j := HoldsItsLastMerge(ws, steps, i, who);
    HistoryGrows(ws, steps, 0, i);
    HistoryGrows(ws, steps, j, i);
    OperationsStayDistinct(ws, steps, j, who);
    assert Enabled(ws[j], steps[j]) && ws[j + 1] == Next(ws[j], steps[j]);
    forall k | 0 <= k < |ws[j].controllers[who].ops| ensures TimeComesFrom(ws, steps, j, who, k) {
      TimesComeFromMerges(ws, steps, j, who, k);
    }
  }

  lemma {:induction false} MergeLeavesOthersAlone(
    merged: seq<Condition>, base: seq<Condition>, c0: Controller, t: ConditionType)
    requires IsMergeOf(merged, base, c0) && !Touches(c0.ops, t)
    ensures At(Entries(merged), t) == At(Entries(base), t)
  {
    var ops, clock :| SameDiff(c0.ops, ops) && MergesTo(merged, base, ops, c0.opts, clock);
    SameDiffKeepsTypes(c0.ops, ops);
    ApplyFrame(Entries(base), ops, |ops|, c0.opts, clock);
  }

  lemma {:induction false} CommitWritesMerge(ws: seq<World>, steps: seq<Step>, i: nat)
    requires IsRun(ws, steps) && Initial(ws[0])
    requires i < |steps| && Enabled(ws[i], steps[i]) && Commits(ws[i], steps[i])
    ensures steps[i].who < |ws[0].controllers|
    ensures ws[i + 1].history != []
    ensures var now, next := ws[i].history[Current(ws[i])], ws[i + 1].history[Current(ws[i + 1])];
            && next.list == ws[i].controllers[steps[i].who].phase.merged && next.rest == now.rest
            && IsMergeOf(next.list, now.list, ws[0].controllers[steps[i].who])
  {
    RunKeepsInv(ws, steps, i);
    var w, who := ws[i], steps[i].who;
    assert ControllerInv(|ws[0].history|, w.history, who, ws[0].controllers[who], w.controllers[who]);
  }

  /** In every run, whatever was read and whoever wrote meanwhile, a write that commits turns the conditions that
      are on the server at that moment into their merge with the controller's diff, computed by step `j` of the same
      call. Conditions the diff is not about are left exactly as the last writer left them, and so is the rest of
      the object. */
  lemma {:induction false} NoLostUpdate(ws: seq<World>, steps: seq<Step>, i: nat) returns (j: nat)
    requires IsRun(ws, steps) && Initial(ws[0])
    requires i < |steps| && Enabled(ws[i], steps[i]) && Commits(ws[i], steps[i])
    ensures steps[i].who < |ws[0].controllers| && j < i
    ensures var now, next := ws[i].history[Current(ws[i])], ws[i + 1].history[Current(ws[i + 1])];
            var c0 := ws[0].controllers[steps[i].who];
            && MergedAtStep(ws, steps, j, steps[i].who, next.list, now.list)
            && IsMergeOf(next.list, now.list, c0)
            && next.rest == now.rest
            && forall t | !Touches(c0.ops, t) :: At(Entries(next.list), t) == At(Entries(now.list), t)
  {
    CommitWritesMerge(ws, steps, i);
    j := CommitsItsLastMerge(ws, steps, i);
    var who := steps[i].who;
    var now, next := ws[i].history[Current(ws[i])], ws[i + 1].history[Current(ws[i + 1])];
    forall t | !Touches(ws[0].controllers[who].ops, t) ensures At(Entries(next.list), t) == At(Entries(now.list), t) {
      MergeLeavesOthersAlone(next.list, now.list, ws[0].controllers[who], t);
    }
  }

  /** No other step of a controller writes, and versions are never rewritten. */
  lemma {:induction false} OnlyCommitsAndForeignersWrite(w: World, s: Step)
    requires Enabled(w, s)
    ensures w.history <= Next(w, s).history
    ensures !s.Foreign? && !Commits(w, s) ==> Next(w, s).history == w.history
  {}

  /** A controller's writes are on record as what they should be, and there is at most one per call. */
  lemma {:induction false} AtMostOneVersionPerCall(ws: seq<World>, steps: seq<Step>, i: nat, who: nat, j: nat, k: nat)
    requires IsRun(ws, steps) && Initial(ws[0]) && i < |ws| && who < |ws[i].controllers|
    requires |ws[0].history| <= j < |ws[i].history| && ws[i].history[j].writer == Some(who)
    requires |ws[0].history| <= k < |ws[i].history| && ws[i].history[k].writer == Some(who)
    ensures who < |ws[0].controllers| && j == k
    ensures j > 0 && IsMergeOf(ws[i].history[j].list, ws[i].history[j - 1].list, ws[0].controllers[who])
  {
    RunKeepsInv(ws, steps, i);
    assert Landing(|ws[0].history|, ws[i].history, who, j, ws[0].controllers[who]);
  }

  // Order.

  /** The server's lists, and what is about to be written, are in canonical order. */
  ghost predicate IsSorted(w: World) {
    && Sorted(w.history)
    && forall c | c in w.controllers :: c.phase.Holding? ==> Canonical(c.phase.merged)
  }

  lemma {:induction false} NextKeepsSorted(w: World, s: Step)
    requires Enabled(w, s) && IsSorted(w) && (s.Foreign? ==> Canonical(s.version.list))
    ensures IsSorted(Next(w, s))
  {
    var w' := Next(w, s);
    forall v | v in w'.history ensures Canonical(v.list) {
      assert !s.Foreign? && !s.Merge? ==> w.controllers[s.who] in w.controllers;
    }
    forall c | c in w'.controllers && c.phase.Holding? ensures Canonical(c.phase.merged) {
      assert s.Merge? ==> w.history[s.read] in w.history;
    }
  }

  /** Conditions stay sorted over every run, as long as everybody else writes them sorted. */
  lemma {:induction false} RunKeepsSorted(ws: seq<World>, steps: seq<Step>, i: nat)
    requires IsRun(ws, steps) && Initial(ws[0]) && i < |ws| && Sorted(ws[0].history)
    requires forall j | 0 <= j < |steps| && steps[j].Foreign? :: Canonical(steps[j].version.list)
    ensures IsSorted(ws[i])
  {
    if i > 0 {
      RunKeepsSorted(ws, steps, i - 1);
      assert Enabled(ws[i - 1], steps[i - 1]) && ws[i] == Next(ws[i - 1], steps[i - 1]);
      NextKeepsSorted(ws[i - 1], steps[i - 1]);
    }
  }

  // All or nothing.

  /** One conflicting operation, owned ones beside it or not, stops the call before anything is written. */
  lemma {:induction false} OneConflictStopsTheCall(
    w: World, who: nat, read: nat, clock: Clock, merged: seq<Condition>, k: nat)
    requires Enabled(w, Merge(who, read, clock, merged)) && DistinctTypes(w.controllers[who].ops)
    requires k < |w.controllers[who].ops|
    requires var c := w.controllers[who]; Conflicts(c.ops[k], At(Entries(w.history[read].list), c.ops[k].Type()), c.opts)
    ensures var w' := Next(w, Merge(who, read, clock, merged));
            && w'.history == w.history
            && w'.controllers[who].phase.Done? && w'.controllers[who].phase.ending.MergeConflict?
  {
    var c := w.controllers[who];
    SucceedsIffNoneConflicts(Entries(w.history[read].list), c.ops, |c.ops|, c.opts, clock);
  }

  /** The conflict that ends a call is that of its diff with the version that one of its merge steps has read. */
  lemma {:induction false} ConflictIsOfVersionRead(
    ws: seq<World>, steps: seq<Step>, i: nat, who: nat, t: ConditionType) returns (j: nat)
    requires IsRun(ws, steps) && Initial(ws[0]) && i < |ws| && who < |ws[0].controllers| && who < |ws[i].controllers|
    requires ws[i].controllers[who].phase == Done(MergeConflict(t))
    ensures j < i && IsMergeBy(steps[j], who) && steps[j].read < |ws[j].history|
    ensures var c0 := ws[0].controllers[who];
            ApplySpec(Entries(ws[j].history[steps[j].read].list), c0.ops, c0.opts, steps[j].clock).conflict == Some(t)
  {
    assert ws[0].controllers[who] in ws[0].controllers;
    j := 0;
    if i > 0 {
      j := i - 1;
      assert Enabled(ws[j], steps[j]) && ws[i] == Next(ws[j], steps[j]);
      HistoryGrows(ws, steps, j, i);
      if ws[j].controllers[who].phase == Done(MergeConflict(t)) {
        j := ConflictIsOfVersionRead(ws, steps, j, who, t);
      } else {
        OperationsStayDistinct(ws, steps, j, who);
        RunKeepsInv(ws, steps, j);
        RefusedBy(ws[0], ws[j], steps[j], who, t);
      }
    }
  }

  lemma {:induction false} RefusedBy(w0: World, w: World, s: Step, who: nat, t: ConditionType)
    requires Inv(w0, w) && Initial(w0) && Enabled(w, s) && who < |w.controllers|
    requires w.controllers[who].phase != Done(MergeConflict(t))
    requires Next(w, s).controllers[who].phase == Done(MergeConflict(t))
    ensures IsMergeBy(s, who) && s.read < |w.history|
    ensures var c0 := w0.controllers[who];
            ApplySpec(Entries(w.history[s.read].list), c0.ops, c0.opts, s.clock).conflict == Some(t)
  {
    var c0, c := w0.controllers[who], w.controllers[who];
    assert ControllerInv(|w0.history|, w.history, who, c0, c);
    assert c0 in w0.controllers;
    assert IsMergeBy(s, who);
    RetryDecidesTheSame(Entries(w.history[s.read].list), c0.ops, c.ops, c0.opts, s.clock, s.clock);
  }

  /** A call that ends in a merge conflict names a type that really is in conflict: somebody else has changed it, in the
      version that was read, to something the controller does not want, and it is neither owned nor forced. */
  lemma {:induction false} ReportedConflictIsReal(
    ws: seq<World>, steps: seq<Step>, i: nat, who: nat, t: ConditionType,
    before: seq<Condition>, after: seq<Condition>) returns (j: nat)
    requires IsRun(ws, steps) && Initial(ws[0]) && i < |ws| && who < |ws[0].controllers| && who < |ws[i].controllers|
    requires Unique(before) && Unique(after) && ws[0].controllers[who].ops == Diff(before, after)
    requires ws[i].controllers[who].phase == Done(MergeConflict(t))
    ensures j < i && IsMergeBy(steps[j], who) && steps[j].read < |ws[j].history|
    ensures !ws[0].controllers[who].opts.force && t !in ws[0].controllers[who].opts.owned
    ensures ThreeWayConflict(At(Entries(before), t), At(Entries(after), t),
                             At(Entries(ws[j].history[steps[j].read].list), t), false)
  {
    j := ConflictIsOfVersionRead(ws, steps, i, who, t);
    var read := Entries(ws[j].history[steps[j].read].list);
    ReportedTypeConflicts(before, after, read, ws[0].controllers[who].opts, steps[j].clock, t);
  }

  /** A call that has ended does nothing more. */
  lemma {:induction false} DoneIsForever(ws: seq<World>, steps: seq<Step>, i: nat, j: nat, who: nat)
    requires IsRun(ws, steps) && i <= j < |ws| && who < |ws[i].controllers| && ws[i].controllers[who].phase.Done?
    ensures who < |ws[j].controllers| && ws[j].controllers[who] == ws[i].controllers[who]
  {
    if i < j {
      DoneIsForever(ws, steps, i, j - 1, who);
      assert Enabled(ws[j - 1], steps[j - 1]) && ws[j] == Next(ws[j - 1], steps[j - 1]);
    }
  }

  // Bounded progress.

  /** The step begins an attempt of the controller: a read, successful or not. */
  predicate IsAttempt(w: World, s: Step, who: nat)
    requires Enabled(w, s)
  {
    IsMergeBy(s, who) || (s.Fail? && s.who == who && w.controllers[who].phase == Ready)
  }

  ghost function CountAttempts(ws: seq<World>, steps: seq<Step>, n: nat, who: nat): nat
    requires IsRun(ws, steps) && n <= |steps|
  {
    if n == 0 then 0
    else CountAttempts(ws, steps, n - 1, who) + if IsAttempt(ws[n - 1], steps[n - 1], who) then 1 else 0
  }

  lemma {:induction false} AttemptIsCounted(w: World, s: Step, who: nat)
    requires Enabled(w, s) && who < |w.controllers|
    ensures |Next(w, s).controllers| == |w.controllers|
    ensures Next(w, s).controllers[who].attempts
            == w.controllers[who].attempts + if IsAttempt(w, s, who) then 1 else 0
  {}

  lemma {:induction false} AttemptsAreCounted(ws: seq<World>, steps: seq<Step>, i: nat, who: nat)
    requires IsRun(ws, steps) && Initial(ws[0]) && i < |ws| && who < |ws[0].controllers|
    ensures |ws[i].controllers| == |ws[0].controllers|
    ensures CountAttempts(ws, steps, i, who) == ws[i].controllers[who].attempts
  {
    if i > 0 {
      AttemptsAreCounted(ws, steps, i - 1, who);
      assert Enabled(ws[i - 1], steps[i - 1]) && ws[i] == Next(ws[i - 1], steps[i - 1]);
      AttemptIsCounted(ws[i - 1], steps[i - 1], who);
    } else {
      assert ws[0].controllers[who] in ws[0].controllers;
    }
  }

  /** No run lets a controller make more than five attempts, failed reads included. */
  lemma {:induction false} AtMostFiveAttempts(ws: seq<World>, steps: seq<Step>, i: nat, who: nat)
    requires IsRun(ws, steps) && Initial(ws[0]) && i < |ws| && who < |ws[0].controllers|
    ensures CountAttempts(ws, steps, i, who) <= 5
  {
    RunKeepsInv(ws, steps, i);
    AttemptsAreCounted(ws, steps, i, who);
  }

  /** The controller's reads are not stale. */
  ghost predicate ReadsCurrent(ws: seq<World>, steps: seq<Step>, who: nat)
    requires IsRun(ws, steps)
  {
    forall i | 0 <= i < |steps| :: IsMergeBy(steps[i], who) ==> steps[i].read == Current(ws[i])
  }

  /** The steps at which one attempt reads and writes. */
  datatype Window = Window(read: nat, write: nat)

  /** Between the read and the write the server got a version, and none of those it got is the controller's own. */
  ghost predicate WasOvertaken(ws: seq<World>, steps: seq<Step>, who: nat, win: Window)
    requires IsRun(ws, steps)
  {
    && win.read < win.write < |steps| && IsMergeBy(steps[win.read], who) && steps[win.write] == Write(who)
    && |ws[win.read].history| < |ws[win.write].history|
    && forall v | |ws[win.read].history| <= v < |ws[win.write].history| ::
         ws[win.write].history[v].writer != Some(who)
  }

  /** One after the other, each over before the next begins, all of them before step `n`. */
  ghost predicate Disjoint(ws: seq<World>, steps: seq<Step>, who: nat, wins: seq<Window>, n: nat)
    requires IsRun(ws, steps)
  {
    && (forall a | 0 <= a < |wins| :: WasOvertaken(ws, steps, who, wins[a]) && wins[a].write < n)
    && forall a, b | 0 <= a < b < |wins| :: wins[a].write < wins[b].read
  }

  lemma {:induction false} WriteThatConflictsWasOvertaken(ws: seq<World>, steps: seq<Step>, i: nat, j: nat, who: nat)
    requires IsRun(ws, steps) && Initial(ws[0]) && i < |steps| && who < |ws[0].controllers|
    requires ReadsCurrent(ws, steps, who)
    requires steps[i] == Write(who) && Enabled(ws[i], steps[i])
    requires ws[i].controllers[who].phase.version != Current(ws[i])
    requires j < i && IsMergeBy(steps[j], who)
    requires who < |ws[j + 1].controllers| && ws[i].controllers[who] == ws[j + 1].controllers[who]
    ensures WasOvertaken(ws, steps, who, Window(j, i))
  {
    HistoryGrows(ws, steps, 0, j);
    HistoryGrows(ws, steps, j, i);
    assert Enabled(ws[j], steps[j]) && ws[j + 1] == Next(ws[j], steps[j]);
    RunKeepsInv(ws, steps, i);
    assert ControllerInv(|ws[0].history|, ws[i].history, who, ws[0].controllers[who], ws[i].controllers[who]);
  }

  lemma {:induction false} OneMoreWindow(
    ws: seq<World>, steps: seq<Step>, who: nat, wins: seq<Window>, j: nat, i: nat) returns (wins': seq<Window>)
    requires IsRun(ws, steps) && Disjoint(ws, steps, who, wins, j) && WasOvertaken(ws, steps, who, Window(j, i))
    ensures wins' == wins + [Window(j, i)] && Disjoint(ws, steps, who, wins', i + 1)
  {
    wins' := wins + [Window(j, i)];
  }

  /** How far the controller has come, in overtaken attempts; `open` is the step of the last read. */
  ghost predicate Progress(
    ws: seq<World>, steps: seq<Step>, i: nat, who: nat, wins: seq<Window>, open: nat)
    requires IsRun(ws, steps) && i < |ws| && who < |ws[i].controllers|
  {
    var c := ws[i].controllers[who];
    && Disjoint(ws, steps, who, wins, i)
    && match c.phase
       case Ready => |wins| == c.attempts
       case Holding(_, _) =>
         && |wins| + 1 == c.attempts && open < i && IsMergeBy(steps[open], who)
         && who < |ws[open + 1].controllers| && c == ws[open + 1].controllers[who]
         && Disjoint(ws, steps, who, wins, open)
       case Done(e) => e == TimedOut ==> |wins| == MAX_ATTEMPTS
  }

  lemma {:induction false} StepMakesProgress(
    ws: seq<World>, steps: seq<Step>, i: nat, who: nat, wins: seq<Window>, open: nat)
    returns (wins': seq<Window>, open': nat)
    requires IsRun(ws, steps) && Initial(ws[0]) && i < |steps| && who < |ws[0].controllers|
    requires |ws[i].controllers| == |ws[0].controllers| == |ws[i + 1].controllers|
    requires ReadsCurrent(ws, steps, who) && Progress(ws, steps, i, who, wins, open)
    ensures Progress(ws, steps, i + 1, who, wins', open')
  {
    var w, s, c := ws[i], steps[i], ws[i].controllers[who];
    wins', open' := wins, open;
    assert Enabled(w, s) && ws[i + 1] == Next(w, s);
    RunKeepsInv(ws, steps, i);
    assert ControllerInv(|ws[0].history|, w.history, who, ws[0].controllers[who], c);
    if IsMergeBy(s, who) {
      open' := i;
    } else if s == Write(who) && c.phase.version != Current(w) {
      WriteThatConflictsWasOvertaken(ws, steps, i, open, who);
      wins' := OneMoreWindow(ws, steps, who, wins, open, i);
    }
  }

  lemma {:induction false} FailedAttemptsWereOvertaken(ws: seq<World>, steps: seq<Step>, i: nat, who: nat)
    returns (wins: seq<Window>, open: nat)
    requires IsRun(ws, steps) && Initial(ws[0]) && i < |ws| && who < |ws[0].controllers|
    requires ReadsCurrent(ws, steps, who)
    ensures |ws[i].controllers| == |ws[0].controllers|
    ensures Progress(ws, steps, i, who, wins, open)
  {
    HistoryGrows(ws, steps, 0, i);
    if i == 0 {
      wins, open := [], 0;
      assert ws[0].controllers[who] in ws[0].controllers;
    } else {
      wins, open := FailedAttemptsWereOvertaken(ws, steps, i - 1, who);
      HistoryGrows(ws, steps, i - 1, i);
      wins, open := StepMakesProgress(ws, steps, i - 1, who, wins, open);
    }
  }

  lemma {:induction false} WindowsAddVersions(
    ws: seq<World>, steps: seq<Step>, who: nat, wins: seq<Window>, n: nat, i: nat)
    requires IsRun(ws, steps) && n <= i < |ws| && Disjoint(ws, steps, who, wins, n)
    ensures |ws[i].history| >= |ws[0].history| + |wins|
    decreases |wins|
  {
    if wins == [] {
      HistoryGrows(ws, steps, 0, i);
    } else {
      var k := |wins| - 1;
      var last := wins[k];
      assert forall a | 0 <= a < k :: wins[..k][a] == wins[a];
      WindowsAddVersions(ws, steps, who, wins[..k], last.read, last.read);
      HistoryGrows(ws, steps, last.write, i);
    }
  }

  /** With current reads, running out of attempts means that each of the five was overtaken: in five windows
      between a read and its write, one after the other, the server got versions that are not the call's own. With
      fewer the call ends in a commit, a merge conflict or a client error. */
  lemma {:induction false} ExhaustionNeedsFiveForeignVersions(ws: seq<World>, steps: seq<Step>, i: nat, who: nat)
    returns (wins: seq<Window>)
    requires IsRun(ws, steps) && Initial(ws[0]) && i < |ws| && who < |ws[0].controllers|
    requires ReadsCurrent(ws, steps, who)
    requires |ws[i].controllers| > who && ws[i].controllers[who].phase == Done(TimedOut)
    ensures |wins| == 5 && Disjoint(ws, steps, who, wins, i)
    ensures |ws[i].history| >= |ws[0].history| + 5
    ensures forall j | |ws[0].history| <= j < |ws[i].history| :: ws[i].history[j].writer != Some(who)
  {
    var open;
    wins, open := FailedAttemptsWereOvertaken(ws, steps, i, who);
    WindowsAddVersions(ws, steps, who, wins, i, i);
    RunKeepsInv(ws, steps, i);
    assert ControllerInv(|ws[0].history|, ws[i].history, who, ws[0].controllers[who], ws[i].controllers[who]);
  }
}
