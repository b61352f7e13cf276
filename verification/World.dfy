/** The publishing protocol as a transition system: one versioned server, any number of controllers running
    the optimistic status-conditions loop, and other processes that write what they like in between. */
module World {
  import opened Api
  import opened Json
  import opened Ordering
  import opened MergePatch
  import opened MergeLaws

  /** One resource version of the object: its conditions, everything else, and which controller wrote it. */
  datatype Version = Version(list: seq<Condition>, rest: Json, writer: Option<nat>)

  /** Every list is in canonical order. */
  predicate Sorted(vs: seq<Version>) {
    forall v | v in vs :: Canonical(v.list)
  }

  datatype Ending = Committed | MergeConflict(typ: ConditionType) | ClientError | TimedOut

  datatype Phase =
    | Ready
    | Holding(version: nat, merged: seq<Condition>)
    | Done(ending: Ending)

  /** A controller inside the loop; `attempts` counts the reads, `landed` is the version its write left. */
  datatype Controller = Controller(
    ops: seq<Op>, opts: ApplyOptions, phase: Phase, attempts: nat, landed: Option<nat>)

  datatype World = World(history: seq<Version>, controllers: seq<Controller>)

  const MAX_ATTEMPTS: nat := 5

  datatype Step =
    | Foreign(version: Version)
    | Merge(who: nat, read: nat, clock: Clock, merged: seq<Condition>)
    | Write(who: nat)
    | Fail(who: nat, took: bool)

  function Current(w: World): nat
    requires w.history != []
  {
    |w.history| - 1
  }

  /** What reading a version and applying the diff to it gives; sorting leaves the list open, not the map. */
  predicate IsMergeResult(v: Version, c: Controller, clock: Clock, merged: seq<Condition>) {
    && Unique(merged)
    && Entries(merged) == ApplySpec(Entries(v.list), c.ops, c.opts, clock).entries
    && (Canonical(v.list) ==> Canonical(merged))
  }

  predicate Enabled(w: World, s: Step) {
    && w.history != []
    && match s
       case Foreign(v) => Unique(v.list) && v.writer == None
       case Merge(who, read, clock, merged) =>
         // A read may be stale: any version so far can come out of the cache.
         && who < |w.controllers| && w.controllers[who].phase == Ready && read < |w.history|
         && IsMergeResult(w.history[read], w.controllers[who], clock, merged)
       case Write(who) => who < |w.controllers| && w.controllers[who].phase.Holding?
       case Fail(who, took) =>
         // The client fails on the read, or on the write, which may have taken effect all the same.
         && who < |w.controllers| && !w.controllers[who].phase.Done?
         && (took ==> w.controllers[who].phase.Holding? && w.controllers[who].phase.version == Current(w))
  }

  /** The compare-and-swap went through: the conditions are replaced whole and nothing else changes. A write
      that changes nothing makes no new version. */
  function Commit(w: World, who: nat, ending: Ending): World
    requires w.history != [] && who < |w.controllers| && w.controllers[who].phase.Holding?
  {
    var c, now := w.controllers[who], w.history[Current(w)];
    var history := if c.phase.merged == now.list then w.history
                   else w.history + [Version(c.phase.merged, now.rest, Some(who))];
    World(history, w.controllers[who := c.(phase := Done(ending), landed := Some(|history| - 1))])
  }

  function AfterMerge(c: Controller, v: Version, read: nat, clock: Clock, merged: seq<Condition>): Controller {
    var r := ApplySpec(Entries(v.list), c.ops, c.opts, clock);
    c.(ops := r.ops,
       attempts := c.attempts + 1,
       phase := if r.Ok() then Holding(read, merged) else Done(MergeConflict(r.conflict.value)))
  }

  /** The version moved on: try again, unless this was the last attempt. */
  function AfterConflict(c: Controller): Controller {
    c.(phase := if c.attempts < MAX_ATTEMPTS then Ready else Done(TimedOut))
  }

  function AfterError(c: Controller): Controller {
    c.(phase := Done(ClientError), attempts := if c.phase.Ready? then c.attempts + 1 else c.attempts)
  }

  function Next(w: World, s: Step): World
    requires Enabled(w, s)
  {
    match s
    case Foreign(v) => w.(history := w.history + [v])
    case Merge(who, read, clock, merged) =>
      w.(controllers := w.controllers[who := AfterMerge(w.controllers[who], w.history[read], read, clock, merged)])
    case Write(who) =>
      var c := w.controllers[who];
      if c.phase.version == Current(w) then Commit(w, who, Committed)
      else w.(controllers := w.controllers[who := AfterConflict(c)])
    case Fail(who, took) =>
      if took then Commit(w, who, ClientError)
      else w.(controllers := w.controllers[who := AfterError(w.controllers[who])])
  }

  /** A run: any interleaving of steps. */
  ghost predicate IsRun(ws: seq<World>, steps: seq<Step>) {
    && |ws| == |steps| + 1
    && forall i | 0 <= i < |steps| :: Enabled(ws[i], steps[i]) && ws[i + 1] == Next(ws[i], steps[i])
  }

  /** Every controller is about to start, on distinct types each, and the server's lists repeat no type. Who wrote
      the versions that are there already, an earlier call of one of the controllers perhaps, does not matter. */
  predicate Initial(w: World) {
    && w.history != []
    && (forall v | v in w.history :: Unique(v.list))
    && forall c | c in w.controllers ::
         DistinctTypes(c.ops) && c.phase == Ready && c.attempts == 0 && c.landed == None
  }

  /** `merged` is a successful three-way merge of the controller's diff into `base`, at some time. */
  ghost predicate IsMergeOf(merged: seq<Condition>, base: seq<Condition>, c0: Controller) {
    exists ops, clock :: SameDiff(c0.ops, ops) && MergesTo(merged, base, ops, c0.opts, clock)
  }

  predicate MergesTo(merged: seq<Condition>, base: seq<Condition>, ops: seq<Op>, opts: ApplyOptions, clock: Clock) {
    var r := ApplySpec(Entries(base), ops, opts, clock);
    r.Ok() && Entries(merged) == r.entries
  }

  /** What holds of one controller at any time; `c0` is the same controller at the start, when there were `start`
      versions. */
  ghost predicate ControllerInv(start: nat, history: seq<Version>, who: nat, c0: Controller, c: Controller) {
    && SameDiff(c0.ops, c.ops) && c.opts == c0.opts
    && c.attempts <= MAX_ATTEMPTS
    && (c.phase.Ready? ==> c.attempts < MAX_ATTEMPTS)
    && (c.phase.Holding? ==>
          && c.phase.version < |history| && Unique(c.phase.merged)
          && IsMergeOf(c.phase.merged, history[c.phase.version].list, c0))
    && (c.landed.Some? ==>
          && c.phase in {Done(Committed), Done(ClientError)}
          && c.landed.value < |history| && Landing(start, history, who, c.landed.value, c0))
    && (c.phase == Done(Committed) ==> c.landed.Some?)
    && (forall i | start <= i < |history| && history[i].writer == Some(who) :: c.landed == Some(i))
  }

  /** Version `i` is what a successful merge made of the version in place just before it, and nothing but
      conditions changed; a merge that changes nothing lands on the version it was computed from. */
  ghost predicate Landing(start: nat, history: seq<Version>, who: nat, i: nat, c0: Controller)
    requires i < |history|
  {
    if start <= i && history[i].writer == Some(who) then
      i > 0 && IsMergeOf(history[i].list, history[i - 1].list, c0) && history[i].rest == history[i - 1].rest
    else
      IsMergeOf(history[i].list, history[i].list, c0)
  }

  ghost predicate Inv(w0: World, w: World) {
    && w.history != [] && w0.history <= w.history
    && |w.controllers| == |w0.controllers|
    && (forall v | v in w.history :: Unique(v.list))
    && forall who | 0 <= who < |w.controllers| ::
         ControllerInv(|w0.history|, w.history, who, w0.controllers[who], w.controllers[who])
  }
}
