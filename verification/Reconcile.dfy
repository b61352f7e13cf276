/** The reconcile pipelines: every phase runs, errors latch the combined result, one pipeline nests in another. */
module Reconcile {
  import opened Api

  // Combining results.

  /** What a reconciliation asks for: an immediate retry, or one after a delay (in nanoseconds, signed). */
  datatype Result = Result(requeue: bool, after: int)

  const ZERO := Result(false, 0)

  function LowestNonZeroResult(i: Result, j: Result): Result {
    if i == ZERO then j
    else if j == ZERO then i
    else if i.requeue then i
    else if j.requeue then j
    else if i.after < j.after then i
    else j
  }

  lemma {:induction false} LowestIsAssociative(i: Result, j: Result, k: Result)
    ensures LowestNonZeroResult(LowestNonZeroResult(i, j), k) == LowestNonZeroResult(i, LowestNonZeroResult(j, k))
    ensures LowestNonZeroResult(i, ZERO) == i == LowestNonZeroResult(ZERO, i)
  {}

  /** The order of two results matters exactly when both ask for an immediate retry and they differ. */
  lemma {:induction false} LowestCommutesIff(i: Result, j: Result)
    ensures LowestNonZeroResult(i, j) == LowestNonZeroResult(j, i) <==> i == j || !i.requeue || !j.requeue
  {}

  /** The loop's accumulation, from the first result to the last. */
  function Combine(rs: seq<Result>): Result {
    if rs == [] then ZERO else
      var n := |rs| - 1;
      LowestNonZeroResult(Combine(rs[..n]), rs[n])
  }

  /** `r` is what the pipeline should ask for: the leftmost immediate retry if there is one, otherwise the
      smallest delay among those that are not zero, otherwise nothing. */
  predicate IsStrongest(rs: seq<Result>, r: Result) {
    if exists i :: 0 <= i < |rs| && rs[i].requeue then
      exists i :: 0 <= i < |rs| && r == rs[i] && r.requeue && forall j :: 0 <= j < i ==> !rs[j].requeue
    else if exists i :: 0 <= i < |rs| && rs[i] != ZERO then
      && (exists i :: 0 <= i < |rs| && r == rs[i] && r != ZERO)
      && forall j :: 0 <= j < |rs| && rs[j] != ZERO ==> r.after <= rs[j].after
    else
      r == ZERO
  }

  lemma {:induction false} CombineIsStrongest(rs: seq<Result>)
    ensures IsStrongest(rs, Combine(rs))
  {
    if rs != [] {
      var n := |rs| - 1;
      CombineIsStrongest(rs[..n]);
      StrongestExtends(rs[..n], rs[n], Combine(rs[..n]));
      assert rs == rs[..n] + [rs[n]];
    }
  }

  lemma {:induction false} StrongestExtends(rs: seq<Result>, last: Result, r: Result)
    requires IsStrongest(rs, r)
    ensures IsStrongest(rs + [last], LowestNonZeroResult(r, last))
  {
    var all, r' := rs + [last], LowestNonZeroResult(r, last);
    assert forall i | 0 <= i < |rs| :: all[i] == rs[i];
    assert all[|rs|] == last;
    if exists i :: 0 <= i < |rs| && rs[i].requeue {
      var i :| 0 <= i < |rs| && r == rs[i] && r.requeue && forall j :: 0 <= j < i ==> !rs[j].requeue;
      assert r' == all[i];
    } else if last.requeue {
      assert r' == all[|rs|];
    } else if exists i :: 0 <= i < |rs| && rs[i] != ZERO {
      var i :| 0 <= i < |rs| && r == rs[i] && r != ZERO;
      assert r' == all[i] || r' == all[|rs|];
    }
  }

  /** The description leaves one result only, so it holds of the loop's result and of nothing else. */
  lemma {:induction false} CombineIsTheStrongest(rs: seq<Result>, r: Result)
    ensures r == Combine(rs) <==> IsStrongest(rs, r)
  {
    CombineIsStrongest(rs);
    if IsStrongest(rs, r) {
      StrongestIsUnique(rs, r, Combine(rs));
    }
  }

  lemma {:induction false} StrongestIsUnique(rs: seq<Result>, r: Result, r': Result)
    requires IsStrongest(rs, r) && IsStrongest(rs, r')
    ensures r == r'
  {
    if exists i :: 0 <= i < |rs| && rs[i].requeue {
      var i :| 0 <= i < |rs| && r == rs[i] && r.requeue && forall j :: 0 <= j < i ==> !rs[j].requeue;
      var i' :| 0 <= i' < |rs| && r' == rs[i'] && r'.requeue && forall j :: 0 <= j < i' ==> !rs[j].requeue;
      assert i == i';
    } else if exists i :: 0 <= i < |rs| && rs[i] != ZERO {
      var i :| 0 <= i < |rs| && r == rs[i] && r != ZERO;
      var i' :| 0 <= i' < |rs| && r' == rs[i'] && r' != ZERO;
      assert !rs[i].requeue && !rs[i'].requeue;
    }
  }

  // Pipelines.

  /** A phase either fails by itself or passes on what failed inside it. */
  datatype Error = Failure(text: string) | Aggregated(errors: seq<Error>)

  function NewAggregate(errors: seq<Error>): Option<Error> {
    if errors == [] then None else Some(Aggregated(errors))
  }

  /** What a phase does to the shared context, and what it returns. */
  datatype Report<C> = Report(context: C, result: Result, error: Option<Error>)

  type Phase<!C> = C -> Report<C>

  /** A pipeline under way: the context so far, the combined result, and the errors in order. */
  datatype Run<C> = Run(context: C, result: Result, errors: seq<Error>)

  function Start<C>(c: C): Run<C> {
    Run(c, ZERO, [])
  }

  function ErrorsOf(error: Option<Error>): seq<Error> {
    if error.Some? then [error.value] else []
  }

  function Continue<C>(r: Run<C>, t: Report<C>): Run<C> {
    var errors := r.errors + ErrorsOf(t.error);
    Run(t.context, if errors == [] then LowestNonZeroResult(r.result, t.result) else r.result, errors)
  }

  function RunFrom<C>(r: Run<C>, phases: seq<Phase<C>>): Run<C> {
    if phases == [] then r else
      var n := |phases| - 1;
      var r' := RunFrom(r, phases[..n]);
      Continue(r', phases[n](r'.context))
  }

  /** Two pipelines one after the other; once something has failed the result no longer changes. */
  function Join<C>(r: Run<C>, q: Run<C>): Run<C> {
    Run(q.context, if r.errors == [] then LowestNonZeroResult(r.result, q.result) else r.result, r.errors + q.errors)
  }

  lemma {:induction false} ContinueJoins<C>(r: Run<C>, q: Run<C>, t: Report<C>)
    ensures Continue(Join(r, q), t) == Join(r, Continue(q, t))
  {
    assert (r.errors + q.errors) + ErrorsOf(t.error) == r.errors + (q.errors + ErrorsOf(t.error));
    LowestIsAssociative(r.result, q.result, t.result);
  }

  /** A pipeline does the same to whatever came before it as it does on its own, up to joining the two. */
  lemma {:induction false} RunJoins<C>(r: Run<C>, phases: seq<Phase<C>>)
    ensures RunFrom(r, phases) == Join(r, RunFrom(Start(r.context), phases))
  {
    if phases == [] {
      LowestIsAssociative(r.result, ZERO, ZERO);
      assert r.errors + [] == r.errors;
    } else {
      var n := |phases| - 1;
      RunJoins(r, phases[..n]);
      var q := RunFrom(Start(r.context), phases[..n]);
      ContinueJoins(r, q, phases[n](q.context));
    }
  }

  lemma {:induction false} RunConcat<C>(r: Run<C>, a: seq<Phase<C>>, b: seq<Phase<C>>)
    ensures RunFrom(r, a + b) == RunFrom(RunFrom(r, a), b)
  {
    if b == [] {
      assert a + b == a;
    } else {
      var n := |b| - 1;
      RunConcat(r, a, b[..n]);
      var all := a + b;
      assert all != [] && all[..|all| - 1] == a + b[..n] && all[|all| - 1] == b[n];
    }
  }

  lemma {:induction false} RunOne<C>(r: Run<C>, phase: Phase<C>)
    ensures RunFrom(r, [phase]) == Continue(r, phase(r.context))
  {
    assert [phase][..0] == [];
  }

  // What a whole pipeline comes to, in terms of the reports of its phases.

  /** The report of each phase: every phase runs, on the context that the one before it left. */
  function Reports<C>(c: C, phases: seq<Phase<C>>): seq<Report<C>> {
    if phases == [] then [] else
      var t := phases[0](c);
      [t] + Reports(t.context, phases[1..])
  }

  function LastContext<C>(c: C, ts: seq<Report<C>>): C {
    if ts == [] then c else ts[|ts| - 1].context
  }

  function Errors<C>(ts: seq<Report<C>>): seq<Error> {
    if ts == [] then [] else ErrorsOf(ts[0].error) + Errors(ts[1..])
  }

  predicate NoneFails<C>(ts: seq<Report<C>>) {
    forall i | 0 <= i < |ts| :: ts[i].error.None?
  }

  /** The results of the phases before the first one that fails. */
  function ResultsBeforeFailure<C>(ts: seq<Report<C>>): seq<Result> {
    if ts == [] || ts[0].error.Some? then [] else [ts[0].result] + ResultsBeforeFailure(ts[1..])
  }

  lemma {:induction false} CombineCons(r: Result, rs: seq<Result>)
    ensures Combine([r] + rs) == LowestNonZeroResult(r, Combine(rs))
  {
    if rs == [] {
      assert [r] + rs == [r] && [r][..0] == [];
      LowestIsAssociative(r, ZERO, ZERO);
    } else {
      var n := |rs| - 1;
      CombineCons(r, rs[..n]);
      assert ([r] + rs)[..n + 1] == [r] + rs[..n];
      LowestIsAssociative(r, Combine(rs[..n]), rs[n]);
    }
  }

  lemma {:induction false} ErrorsEmptyIffNoneFails<C>(ts: seq<Report<C>>)
    ensures Errors(ts) == [] <==> NoneFails(ts)
    ensures NoneFails(ts) ==> |ResultsBeforeFailure(ts)| == |ts|
    ensures NoneFails(ts) ==> forall i | 0 <= i < |ts| :: ResultsBeforeFailure(ts)[i] == ts[i].result
  {
    if ts != [] {
      ErrorsEmptyIffNoneFails(ts[1..]);
      if NoneFails(ts) {
        assert forall i | 0 < i < |ts| :: ts[i] == ts[1..][i - 1];
      } else if ts[0].error.None? {
        var i :| 0 <= i < |ts| && ts[i].error.Some?;
        assert ts[1..][i - 1] == ts[i];
      }
    }
  }

  /** Each phase runs once, in order, on the context that the one before it left. */
  lemma {:induction false} ReportsFollowPhases<C>(c: C, phases: seq<Phase<C>>)
    ensures var ts := Reports(c, phases);
            && |ts| == |phases|
            && forall i | 0 <= i < |ts| :: ts[i] == phases[i](if i == 0 then c else ts[i - 1].context)
  {
    if phases != [] {
      var t := phases[0](c);
      ReportsFollowPhases(t.context, phases[1..]);
      var ts, rest := Reports(c, phases), Reports(t.context, phases[1..]);
      forall i | 0 < i < |ts| ensures ts[i] == phases[i](ts[i - 1].context) {
        assert ts[i] == rest[i - 1] && phases[i] == phases[1..][i - 1];
        assert ts[i - 1] == if i == 1 then t else rest[i - 2];
      }
    }
  }

  /** The results that count are those of the phases up to the first failure. */
  lemma {:induction false} ResultsStopAtFailure<C>(ts: seq<Report<C>>)
    ensures var rs := ResultsBeforeFailure(ts);
            && |rs| <= |ts|
            && (forall i | 0 <= i < |rs| :: ts[i].error.None? && rs[i] == ts[i].result)
            && (|rs| < |ts| ==> ts[|rs|].error.Some?)
  {
    if ts != [] && ts[0].error.None? {
      ResultsStopAtFailure(ts[1..]);
      var rs := ResultsBeforeFailure(ts);
      assert forall i | 0 < i < |ts| :: ts[i] == ts[1..][i - 1];
    }
  }

  /** How many of the first `n` phases fail. */
  function CountFailures<C>(ts: seq<Report<C>>, n: nat): nat
    requires n <= |ts|
  {
    if n == 0 then 0 else CountFailures(ts, n - 1) + if ts[n - 1].error.Some? then 1 else 0
  }

  lemma {:induction false} ErrorsOfOneMore<C>(ts: seq<Report<C>>, t: Report<C>)
    ensures Errors(ts + [t]) == Errors(ts) + ErrorsOf(t.error)
  {
    if ts == [] {
      assert ts + [t] == [t] && [t][1..] == [];
    } else {
      ErrorsOfOneMore(ts[1..], t);
      assert (ts + [t])[0] == ts[0] && (ts + [t])[1..] == ts[1..] + [t];
      assert ErrorsOf(ts[0].error) + (Errors(ts[1..]) + ErrorsOf(t.error)) == Errors(ts) + ErrorsOf(t.error);
    }
  }

  lemma {:induction false} FirstFailuresAreReported<C>(ts: seq<Report<C>>, n: nat, i: nat)
    requires n <= |ts|
    ensures |Errors(ts[..n])| == CountFailures(ts, n)
    ensures i < n && ts[i].error.Some? ==>
              CountFailures(ts, i) < CountFailures(ts, n)
              && Errors(ts[..n])[CountFailures(ts, i)] == ts[i].error.value
  {
    if n > 0 {
      FirstFailuresAreReported(ts, n - 1, i);
      ErrorsOfOneMore(ts[..n - 1], ts[n - 1]);
      assert ts[..n] == ts[..n - 1] + [ts[n - 1]];
    }
  }

  /** Every failure is reported, as it is and in order: the error of a phase comes after as many as there are phases
      that fail before it, and there are no others. */
  lemma {:induction false} EveryFailureIsReported<C>(ts: seq<Report<C>>, i: nat)
    requires i < |ts|
    ensures |Errors(ts)| == CountFailures(ts, |ts|)
    ensures ts[i].error.Some? ==>
              CountFailures(ts, i) < |Errors(ts)| && Errors(ts)[CountFailures(ts, i)] == ts[i].error.value
  {
    assert ts[..|ts|] == ts;
    FirstFailuresAreReported(ts, |ts|, i);
  }

  lemma {:induction false} RunCons<C>(c: C, phases: seq<Phase<C>>)
    requires phases != []
    ensures var t := phases[0](c);
            RunFrom(Start(c), phases) == Join(Continue(Start(c), t), RunFrom(Start(t.context), phases[1..]))
  {
    assert phases == [phases[0]] + phases[1..];
    RunConcat(Start(c), [phases[0]], phases[1..]);
    RunOne(Start(c), phases[0]);
    RunJoins(Continue(Start(c), phases[0](c)), phases[1..]);
  }

  /** What the reports of a pipeline come to. */
  function RunOf<C>(c: C, ts: seq<Report<C>>): Run<C> {
    Run(LastContext(c, ts), Combine(ResultsBeforeFailure(ts)), Errors(ts))
  }

  /** The pipeline's context is the last one, its errors are all the errors in order, and its result combines
      the results of the phases before the first failure. */
  lemma {:induction false} RunIsItsReports<C>(c: C, phases: seq<Phase<C>>)
    ensures var ts := Reports(c, phases);
            |ts| == |phases| && RunFrom(Start(c), phases) == RunOf(c, ts)
  {
    if phases != [] {
      var t := phases[0](c);
      RunIsItsReports(t.context, phases[1..]);
      RunCons(c, phases);
      JoinReport(c, t, Reports(t.context, phases[1..]));
    }
  }

  lemma {:induction false} JoinReport<C>(c: C, t: Report<C>, ts: seq<Report<C>>)
    ensures Join(Continue(Start(c), t), RunOf(t.context, ts)) == RunOf(c, [t] + ts)
  {
    var all := [t] + ts;
    assert all[1..] == ts;
    CombineCons(t.result, ResultsBeforeFailure(ts));
    LowestIsAssociative(t.result, ZERO, ZERO);
  }

  /** The loop of both pipelines. */
  method RunPhases<C>(c: C, phases: seq<Phase<C>>) returns (context: C, res: Result, errs: seq<Error>)
    ensures Run(context, res, errs) == RunFrom(Start(c), phases)
  {
    context, res, errs := c, ZERO, [];
    for i := 0 to |phases|
      invariant Run(context, res, errs) == RunFrom(Start(c), phases[..i])
    {
      assert phases[..i + 1][..i] == phases[..i];
      var t := phases[i](context);
      context := t.context;
      if t.error.Some? {
        errs := errs + [t.error.value];
      }
      if |errs| > 0 {
        continue;
      }
      res := LowestNonZeroResult(res, t.result);
    }
    assert phases[..|phases|] == phases;
  }

  /** The report of the nested pipeline: `mark` sets ValidConfig, and only if no phase fails. */
  function Nested<C>(inner: seq<Phase<C>>, mark: C -> C): Phase<C> {
    c =>
      var q := RunFrom(Start(c), inner);
      Report(if q.errors == [] then mark(q.context) else q.context, q.result, NewAggregate(q.errors))
  }

  method ReconcileValidation<C>(c: C, inner: seq<Phase<C>>, mark: C -> C) returns (t: Report<C>)
    ensures t == Nested(inner, mark)(c)
    ensures var ts := Reports(c, inner);
            && |ts| == |inner|
            && t.context == (if NoneFails(ts) then mark(LastContext(c, ts)) else LastContext(c, ts))
            && t.result == Combine(ResultsBeforeFailure(ts))
            && t.error == if NoneFails(ts) then None else Some(Aggregated(Errors(ts)))
  {
    var context, res, errs := RunPhases(c, inner);
    if |errs| == 0 {
      context := mark(context);
    }
    t := Report(context, res, NewAggregate(errs));
    ghost var ts := Reports(c, inner);
    RunIsItsReports(c, inner);
    ErrorsEmptyIffNoneFails(ts);
  }

  /** The whole reconciliation. Without a definition nothing runs. Otherwise every phase runs; the rendered
      template is saved exactly when no phase fails, and the save counts towards the result even when it
      fails itself. */
  method ReconcileAll<C>(definitionRef: string, c: C, phases: seq<Phase<C>>, save: Phase<C>)
    returns (t: Report<C>, saved: bool)
    ensures definitionRef == "" ==> !saved && t == Report(c, ZERO, None)
    ensures definitionRef != "" ==> (saved <==> NoneFails(Reports(c, phases)))
    ensures definitionRef != "" && !saved ==>
              var ts := Reports(c, phases);
              && t.context == LastContext(c, ts)
              && t.result == Combine(ResultsBeforeFailure(ts))
              && t.error == Some(Aggregated(Errors(ts)))
    ensures saved ==>
              var ts := Reports(c, phases);
              var s := save(LastContext(c, ts));
              && t.context == s.context
              && t.result == Combine(ResultsBeforeFailure(ts) + [s.result])
              && t.error == if s.error.None? then None else Some(Aggregated([s.error.value]))
  {
    if definitionRef == "" {
      return Report(c, ZERO, None), false;
    }
    var context, res, errs := RunPhases(c, phases);
    ghost var ts := Reports(c, phases);
    RunIsItsReports(c, phases);
    ErrorsEmptyIffNoneFails(ts);
    saved := |errs| == 0;
    if saved {
      var s := save(context);
      context := s.context;
      if s.error.Some? {
        errs := errs + [s.error.value];
      }
      assert errs == ErrorsOf(s.error);
      ghost var rs := ResultsBeforeFailure(ts) + [s.result];
      assert rs[..|rs| - 1] == ResultsBeforeFailure(ts);
      res := LowestNonZeroResult(res, s.result);
    }
    t := Report(context, res, NewAggregate(errs));
  }

  // Nesting against flattening.

  /** The mark as a phase of its own. */
  function MarkPhase<C>(mark: C -> C): Phase<C> {
    c => Report(mark(c), ZERO, None)
  }

  /** As long as the nested pipeline does not fail, it might as well not be nested, whatever comes before and
      after it and whatever fails there. */
  lemma {:induction false} NestingIsFlattening<C>(
    c: C, pre: seq<Phase<C>>, inner: seq<Phase<C>>, mark: C -> C, rest: seq<Phase<C>>)
    requires NoneFails(Reports(RunFrom(Start(c), pre).context, inner))
    ensures RunFrom(Start(c), pre + [Nested(inner, mark)] + rest)
            == RunFrom(Start(c), pre + (inner + [MarkPhase(mark)]) + rest)
  {
    var r := RunFrom(Start(c), pre);
    var q := RunFrom(Start(r.context), inner);
    RunIsItsReports(r.context, inner);
    ErrorsEmptyIffNoneFails(Reports(r.context, inner));
    RunConcat(Start(c), pre, [Nested(inner, mark)]);
    RunOne(r, Nested(inner, mark));
    RunConcat(Start(c), pre, inner + [MarkPhase(mark)]);
    RunConcat(r, inner, [MarkPhase(mark)]);
    RunJoins(r, inner);
    RunOne(Join(r, q), MarkPhase(mark));
    LowestIsAssociative(Join(r, q).result, ZERO, ZERO);
    assert Continue(Join(r, q), MarkPhase(mark)(q.context)) == Continue(r, Nested(inner, mark)(r.context));
    RunConcat(Start(c), pre + [Nested(inner, mark)], rest);
    RunConcat(Start(c), pre + (inner + [MarkPhase(mark)]), rest);
  }

  /** The failures themselves, in order, however deeply aggregated. */
  function Leaves(errors: seq<Error>): seq<string>
    decreases errors
  {
    if errors == [] then [] else
      (match errors[0]
       case Failure(text) => [text]
       case Aggregated(es) => Leaves(es))
      + Leaves(errors[1..])
  }

  /** Failures that are not aggregated are their own leaves. */
  lemma {:induction false} FailuresAreLeaves(texts: seq<string>)
    ensures Leaves(seq(|texts|, i requires 0 <= i < |texts| => Failure(texts[i]))) == texts
  {
    var errors: seq<Error> := seq(|texts|, i requires 0 <= i < |texts| => Failure(texts[i]));
    if texts != [] {
      var rest: seq<Error> := seq(|texts[1..]|, i requires 0 <= i < |texts[1..]| => Failure(texts[1..][i]));
      FailuresAreLeaves(texts[1..]);
      assert errors[1..] == rest;
      assert texts == [texts[0]] + texts[1..];
    }
  }

  lemma {:induction false} LeavesConcat(a: seq<Error>, b: seq<Error>)
    ensures Leaves(a + b) == Leaves(a) + Leaves(b)
  {
    if a == [] {
      assert a + b == b;
    } else {
      LeavesConcat(a[1..], b);
      assert (a + b)[1..] == a[1..] + b;
    }
  }

  /** When the nested pipeline fails, flattening it would leave the same context and the same failures in the
      same order. The result would be the same if and only if the nested phases before the failure asked for
      nothing beyond what was already asked for, or something had failed before. */
  lemma {:induction false} FlatteningAFailure<C>(
    c: C, pre: seq<Phase<C>>, inner: seq<Phase<C>>, mark: C -> C, rest: seq<Phase<C>>)
    requires !NoneFails(Reports(RunFrom(Start(c), pre).context, inner))
    ensures var nested := RunFrom(Start(c), pre + [Nested(inner, mark)] + rest);
            var flat := RunFrom(Start(c), pre + inner + rest);
            var before := RunFrom(Start(c), pre);
            var asked := Combine(ResultsBeforeFailure(Reports(before.context, inner)));
            && nested.context == flat.context
            && Leaves(nested.errors) == Leaves(flat.errors)
            && (nested.result == flat.result <==>
                before.errors != [] || LowestNonZeroResult(before.result, asked) == before.result)
  {
    var r := RunFrom(Start(c), pre);
    var q := RunFrom(Start(r.context), inner);
    RunIsItsReports(r.context, inner);
    ErrorsEmptyIffNoneFails(Reports(r.context, inner));
    RunMiddle(Start(c), pre, [Nested(inner, mark)], rest);
    RunOne(r, Nested(inner, mark));
    RunMiddle(Start(c), pre, inner, rest);
    RunJoins(r, inner);
    LeavesOfAggregate(r.errors, q.errors);
    FailedRunIgnoresResults(FailedReport(r, q), Join(r, q), rest);
  }

  /** What a failing nested pipeline, whose phases come to `q`, makes of the run. */
  function FailedReport<C>(r: Run<C>, q: Run<C>): Run<C> {
    Run(q.context, r.result, r.errors + [Aggregated(q.errors)])
  }

  lemma {:induction false} RunMiddle<C>(r: Run<C>, a: seq<Phase<C>>, b: seq<Phase<C>>, d: seq<Phase<C>>)
    ensures RunFrom(r, a + b + d) == RunFrom(RunFrom(RunFrom(r, a), b), d)
  {
    RunConcat(r, a + b, d);
    RunConcat(r, a, b);
  }

  lemma {:induction false} LeavesOfAggregate(a: seq<Error>, b: seq<Error>)
    ensures Leaves(a + [Aggregated(b)]) == Leaves(a + b)
  {
    LeavesConcat(a, [Aggregated(b)]);
    LeavesConcat(a, b);
    assert [Aggregated(b)][1..] == [];
    assert Leaves([]) == [];
  }

  /** After a failure, what is still to come adds errors and nothing to the result. */
  lemma {:induction false} FailedRunIgnoresResults<C>(n: Run<C>, f: Run<C>, rest: seq<Phase<C>>)
    requires n.errors != [] && f.errors != [] && n.context == f.context && Leaves(n.errors) == Leaves(f.errors)
    ensures var n', f' := RunFrom(n, rest), RunFrom(f, rest);
            && n'.context == f'.context && Leaves(n'.errors) == Leaves(f'.errors)
            && n'.result == n.result && f'.result == f.result
  {
    RunJoins(n, rest);
    RunJoins(f, rest);
    var q := RunFrom(Start(n.context), rest);
    LeavesConcat(n.errors, q.errors);
    LeavesConcat(f.errors, q.errors);
  }
}
