/** The loop that publishes conditions: read, merge, compare-and-swap, at most five times. */
module Publish {
  import opened Api
  import opened Json
  import opened Ordering
  import opened Store
  import opened MergePatch
  import opened MergeLaws
  import opened World
  import opened WorldLaws

  datatype WriteFault = NoFault | Rejected | ReplyLost

  datatype WriteResult = Accepted | VersionConflict | WriteError

  /** What the surroundings do during one attempt: versions other processes write before the read, how far
      behind the cache is, whether the read fails, versions written between read and write, what happens to
      the write, and the clock. */
  datatype Turn = Turn(
    ahead: seq<Version>, age: nat, readFails: bool, between: seq<Version>, fault: WriteFault, clock: Clock)

  /** Lists that repeat no type, and documents in the form that leaves the conditions out. */
  predicate Sound(vs: seq<Version>) {
    forall v | v in vs :: Unique(v.list) && ProperRest(v.rest)
  }

  predicate FromOthers(vs: seq<Version>) {
    Sound(vs) && forall v | v in vs :: v.writer == None
  }

  predicate Fair(turn: Turn) {
    FromOthers(turn.ahead) && FromOthers(turn.between)
  }

  /** A request that carries no version: the patches to the main endpoint and to the status endpoint. */
  datatype Request = MainRequest(patch: Json) | StatusRequest(patch: Json)

  /** The API server, seen through one object: its versions, and the requests without a version so far. */
  class Server {
    var history: seq<Version>
    var requests: seq<Request>

    constructor (first: Version)
      ensures history == [first] && requests == []
    {
      history, requests := [first], [];
    }

    /** Fills `latest` from a version; the cache may be `age` versions behind. */
    method Get(age: nat, latest: Object) returns (read: nat)
      requires history != []
      modifies latest
      ensures read < |history| && latest.conditions == history[read].list
      ensures age == 0 ==> read == |history| - 1
    {
      read := if age < |history| then |history| - 1 - age else 0;
      latest.conditions := history[read].list;
    }

    /** The status patch carries the version it was computed from, and replaces the conditions whole. */
    method PatchStatus(latest: Object, read: nat, fault: WriteFault) returns (r: WriteResult)
      requires history != []
      modifies `history
      ensures fault == Rejected ==> r == WriteError && history == old(history)
      ensures fault != Rejected && read != |old(history)| - 1 ==> r == VersionConflict && history == old(history)
      ensures fault != Rejected && read == |old(history)| - 1 ==>
                && r == (if fault == ReplyLost then WriteError else Accepted)
                && var now := old(history)[|old(history)| - 1];
                   history == if latest.conditions == now.list then old(history)
                              else old(history) + [Version(latest.conditions, now.rest, Some(0))]
    {
      if fault == Rejected {
        return WriteError;
      }
      var now := history[|history| - 1];
      if read != |history| - 1 {
        return VersionConflict;
      }
      if latest.conditions != now.list {
        history := history + [Version(latest.conditions, now.rest, Some(0))];
      }
      return if fault == ReplyLost then WriteError else Accepted;
    }

    method Interfere(vs: seq<Version>)
      modifies `history
      ensures history == old(history) + vs
    {
      history := history + vs;
    }
  }

  /** The step is one that this turn of the surroundings accounts for: other processes write the versions they are
      said to write, a read is current if the cache is not behind, and the client fails only if it is said to. */
  ghost predicate Explains(turn: Turn, w: World, s: Step) {
    match s
    case Foreign(v) => v in turn.ahead || v in turn.between
    case Merge(_, read, clock, _) => clock == turn.clock && (turn.age == 0 ==> read == |w.history| - 1)
    case Write(_) => true
    case Fail(_, took) => (turn.readFails || turn.fault != NoFault) && (took ==> turn.fault == ReplyLost)
  }

  ghost predicate IsExplained(turns: seq<Turn>, w: World, s: Step) {
    exists turn :: turn in turns && Explains(turn, w, s)
  }

  ghost predicate AllExplained(turns: seq<Turn>, ws: seq<World>, steps: seq<Step>)
    requires IsRun(ws, steps)
  {
    forall i | 0 <= i < |steps| :: IsExplained(turns, ws[i], steps[i])
  }

  ghost predicate EndsIn(turns: seq<Turn>, ws: seq<World>, steps: seq<Step>, w0: World, w: World) {
    IsRun(ws, steps) && ws[0] == w0 && ws[|steps|] == w && AllExplained(turns, ws, steps)
  }

  lemma {:induction false} RunOneStep(
    turns: seq<Turn>, turn: Turn, ws: seq<World>, steps: seq<Step>, w0: World, w: World, s: Step)
    returns (ws': seq<World>, steps': seq<Step>)
    requires EndsIn(turns, ws, steps, w0, w) && Enabled(w, s) && turn in turns && Explains(turn, w, s)
    ensures EndsIn(turns, ws', steps', w0, Next(w, s))
  {
    ws', steps' := ws + [Next(w, s)], steps + [s];
    assert IsExplained(turns, w, s);
    forall i | 0 <= i < |steps'|
      ensures Enabled(ws'[i], steps'[i]) && ws'[i + 1] == Next(ws'[i], steps'[i])
      ensures IsExplained(turns, ws'[i], steps'[i])
    {
      if i < |steps| {
        assert Enabled(ws[i], steps[i]) && ws[i + 1] == Next(ws[i], steps[i]) && IsExplained(turns, ws[i], steps[i]);
      }
    }
  }

  lemma {:induction false} RunOthers(
    turns: seq<Turn>, turn: Turn, ws: seq<World>, steps: seq<Step>, w0: World, w: World, vs: seq<Version>)
    returns (ws': seq<World>, steps': seq<Step>)
    requires EndsIn(turns, ws, steps, w0, w) && w.history != [] && FromOthers(vs) && turn in turns
    requires forall v | v in vs :: v in turn.ahead || v in turn.between
    ensures EndsIn(turns, ws', steps', w0, w.(history := w.history + vs))
    decreases |vs|
  {
    if vs == [] {
      assert w.history + vs == w.history;
      ws', steps' := ws, steps;
    } else {
      ws', steps' := RunOneStep(turns, turn, ws, steps, w0, w, Foreign(vs[0]));
      ws', steps' := RunOthers(turns, turn, ws', steps', w0, w.(history := w.history + [vs[0]]), vs[1..]);
      assert w.history + [vs[0]] + vs[1..] == w.history + vs;
    }
  }

  function OneController(history: seq<Version>, c: Controller): World {
    World(history, [c])
  }

  function Starting(ops: seq<Op>, opts: ApplyOptions): Controller {
    Controller(ops, opts, Ready, 0, None)
  }

  /** The first half of a pass: read a version and merge the diff into it. The ghost arguments are the run so
      far and the controller in it. */
  method ReadAndMerge(
    server: Server, before: Object, diff: Patch, opts: ApplyOptions, turn: Turn,
    ghost turns: seq<Turn>, ghost ws: seq<World>, ghost steps: seq<Step>, ghost w0: World, ghost c: Controller)
    returns (r: Option<Ending>, latest: Object, read: nat,
             ghost ws': seq<World>, ghost steps': seq<Step>, ghost c': Controller)
    requires Initial(w0) && EndsIn(turns, ws, steps, w0, OneController(server.history, c))
    requires server.history != [] && Sound(server.history) && Fair(turn) && turn in turns
    requires c.ops == diff.ops && diff.ops != [] && c.opts == opts && c.phase == Ready
    modifies server`history, diff
    ensures fresh(latest) && server.history != [] && Sound(server.history) && diff.ops != []
    ensures old(server.history) <= server.history
    ensures EndsIn(turns, ws', steps', w0, OneController(server.history, c'))
    ensures c'.ops == diff.ops && c'.opts == opts && c'.attempts == c.attempts + 1
    ensures r.Some? ==> c'.phase == Done(r.value) && r.value != TimedOut
    ensures r.None? ==> c'.phase == Holding(read, latest.conditions) && read < |server.history|
    ensures r.None? ==> Unique(latest.conditions)
    ensures r.None? && turn.age == 0 ==> read == |server.history| - 1
  {
    latest := new Object(before.conditions);
    read := 0;
    c' := c;
    ws', steps' := RunOthers(turns, turn, ws, steps, w0, OneController(server.history, c'), turn.ahead);
    server.Interfere(turn.ahead);
    if turn.readFails {
      ws', steps' := RunOneStep(turns, turn, ws', steps', w0, OneController(server.history, c'), Fail(0, false));
      c' := AfterError(c');
      r := Some(ClientError);
      return;
    }
    read := server.Get(turn.age, latest);
    assert server.history[read] in server.history;
    var result := diff.Apply(latest, opts, turn.clock);
    ghost var merge := Merge(0, read, turn.clock, latest.conditions);
    ws', steps' := RunOneStep(turns, turn, ws', steps', w0, OneController(server.history, c'), merge);
    c' := AfterMerge(c', server.history[read], read, turn.clock, latest.conditions);
    r := if result == Applied then None else Some(MergeConflict(result.typ));
  }

  /** The second half: send the merged conditions back under the version they were computed from. */
  method Send(
    server: Server, latest: Object, read: nat, turn: Turn,
    ghost turns: seq<Turn>, ghost ws: seq<World>, ghost steps: seq<Step>, ghost w0: World, ghost c: Controller)
    returns (r: Option<Ending>, ghost ws': seq<World>, ghost steps': seq<Step>, ghost c': Controller)
    requires EndsIn(turns, ws, steps, w0, OneController(server.history, c))
    requires read < |server.history| && Sound(server.history) && Fair(turn) && turn in turns
    requires c.phase == Holding(read, latest.conditions) && Unique(latest.conditions)
    modifies server`history
    ensures server.history != [] && Sound(server.history) && old(server.history) <= server.history
    ensures EndsIn(turns, ws', steps', w0, OneController(server.history, c'))
    ensures c'.ops == c.ops && c'.opts == c.opts && c'.attempts == c.attempts
    ensures r.Some? ==> c'.phase == Done(r.value) && r.value != TimedOut
    ensures r.None? ==> c'.phase == (if c'.attempts < MAX_ATTEMPTS then Ready else Done(TimedOut))
    ensures r.None? ==> read != |old(server.history)| - 1 || turn.between != []
  {
    ws', steps' := RunOthers(turns, turn, ws, steps, w0, OneController(server.history, c), turn.between);
    server.Interfere(turn.between);
    ghost var w := OneController(server.history, c);
    assert server.history[|server.history| - 1] in server.history;
    var answer := server.PatchStatus(latest, read, turn.fault);
    ghost var write := if answer == WriteError then Fail(0, turn.fault == ReplyLost) else Write(0);
    ws', steps' := RunOneStep(turns, turn, ws', steps', w0, w, write);
    c' := Next(w, write).controllers[0];
    assert Next(w, write) == OneController(server.history, c');
    r := match answer
         case Accepted => Some(Committed)
         case WriteError => Some(ClientError)
         case VersionConflict => None;
  }

  /** One pass of the backoff loop: an ending, or None to try again. */
  method Attempt(
    server: Server, before: Object, diff: Patch, opts: ApplyOptions, turn: Turn,
    ghost turns: seq<Turn>, ghost ws: seq<World>, ghost steps: seq<Step>, ghost w0: World, ghost c: Controller)
    returns (r: Option<Ending>, ghost ws': seq<World>, ghost steps': seq<Step>, ghost c': Controller)
    requires Initial(w0) && EndsIn(turns, ws, steps, w0, OneController(server.history, c))
    requires server.history != [] && Sound(server.history) && Fair(turn) && turn in turns
    requires c.ops == diff.ops && diff.ops != [] && c.opts == opts && c.phase == Ready
    modifies server`history, diff
    ensures server.history != [] && Sound(server.history) && diff.ops != []
    ensures old(server.history) <= server.history
    ensures EndsIn(turns, ws', steps', w0, OneController(server.history, c'))
    ensures c'.ops == diff.ops && c'.opts == opts && c'.attempts == c.attempts + 1
    ensures r.Some? ==> c'.phase == Done(r.value) && r.value != TimedOut
    ensures r.None? ==> c'.phase == (if c'.attempts < MAX_ATTEMPTS then Ready else Done(TimedOut))
    ensures r.None? ==> turn.age > 0 || turn.between != []
  {
    var latest, read;
    r, latest, read, ws', steps', c' := ReadAndMerge(server, before, diff, opts, turn, turns, ws, steps, w0, c);
    if r.None? {
      r, ws', steps', c' := Send(server, latest, read, turn, turns, ws', steps', w0, c');
    }
  }

  /** The backoff loop. */
  method RetryLoop(
    server: Server, before: Object, diff: Patch, opts: ApplyOptions, turns: seq<Turn>, ghost w0: World)
    returns (ending: Ending, ghost ws: seq<World>, ghost steps: seq<Step>)
    requires server.history != [] && Sound(server.history)
    requires Initial(w0) && w0 == OneController(server.history, Starting(diff.ops, opts)) && diff.ops != []
    requires |turns| == MAX_ATTEMPTS && forall turn | turn in turns :: Fair(turn)
    modifies server`history, diff
    ensures server.history != [] && Sound(server.history) && old(server.history) <= server.history
    ensures exists c :: EndsIn(turns, ws, steps, w0, OneController(server.history, c)) && c.phase == Done(ending)
    ensures ending == TimedOut ==> forall k | 0 <= k < 5 :: turns[k].age > 0 || turns[k].between != []
  {
    ghost var c := Starting(diff.ops, opts);
    ws, steps := [w0], [];
    var k := 0;
    while k < MAX_ATTEMPTS
      invariant 0 <= k <= MAX_ATTEMPTS && server.history != [] && Sound(server.history) && diff.ops != []
      invariant old(server.history) <= server.history
      invariant c.ops == diff.ops && c.opts == opts && c.attempts == k
      invariant c.phase == if k < MAX_ATTEMPTS then Ready else Done(TimedOut)
      invariant EndsIn(turns, ws, steps, w0, OneController(server.history, c))
      invariant forall j | 0 <= j < k :: turns[j].age > 0 || turns[j].between != []
    {
      var r;
      r, ws, steps, c := Attempt(server, before, diff, opts, turns[k], turns, ws, steps, w0, c);
      if r.Some? {
        ending := r.value;
        return;
      }
      k := k + 1;
    }
    ending := TimedOut;
  }

  predicate EndedAs(w: World, ending: Ending) {
    |w.controllers| == 1 && w.controllers[0].phase == Done(ending)
  }

  /** A call is a run of the transition system, from the diff of `before` and `after` to the ending it returns, and
      every step of the run is one that the surroundings account for; None means there was nothing to do. Running
      out of attempts means that in each of the five somebody else wrote between read and write, or the read was
      stale. The run takes the server from `first` to `published`. */
  ghost predicate IsPublication(
    first: seq<Version>, before: seq<Condition>, after: seq<Condition>, opts: ApplyOptions, turns: seq<Turn>,
    ending: Option<Ending>, ws: seq<World>, steps: seq<Step>, published: seq<Version>)
  {
    && (ending == None <==> Diff(before, after) == [])
    && (ending == None ==> published == first)
    && IsRun(ws, steps) && Initial(ws[0]) && AllExplained(turns, ws, steps)
    && ws[0] == OneController(first, Starting(Diff(before, after), opts))
    && ws[|steps|].history == published && first <= published && published != [] && Sound(published)
    && (ending.Some? ==> EndedAs(ws[|steps|], ending.value))
    && (ending == Some(TimedOut) ==>
          |turns| == MAX_ATTEMPTS && forall k | 0 <= k < MAX_ATTEMPTS :: turns[k].age > 0 || turns[k].between != [])
  }

  method PatchStatusConditions(
    server: Server, before: Object, after: Object, opts: ApplyOptions, turns: seq<Turn>)
    returns (ending: Option<Ending>, ghost ws: seq<World>, ghost steps: seq<Step>)
    requires server.history != [] && Sound(server.history)
    requires Unique(before.conditions) && Unique(after.conditions)
    requires |turns| == MAX_ATTEMPTS && forall turn | turn in turns :: Fair(turn)
    modifies server`history
    ensures IsPublication(old(server.history), before.conditions, after.conditions, opts, turns,
                          ending, ws, steps, server.history)
  {
    var diff := Patch.NewPatch(before, after);
    DiffTypesAreDistinct(before.conditions, after.conditions);
    ghost var w0 := OneController(server.history, Starting(diff.ops, opts));
    ending, ws, steps := None, [w0], [];
    if diff.ops != [] {
      var e;
      e, ws, steps := RetryLoop(server, before, diff, opts, turns, w0);
      ending := Some(e);
    }
  }

  /** The lists stay sorted over a call if everybody else keeps them so. */
  lemma {:induction false} PublicationStaysSorted(
    first: seq<Version>, before: seq<Condition>, after: seq<Condition>, opts: ApplyOptions, turns: seq<Turn>,
    ending: Option<Ending>, ws: seq<World>, steps: seq<Step>, published: seq<Version>)
    requires IsPublication(first, before, after, opts, turns, ending, ws, steps, published) && Sorted(first)
    requires forall turn | turn in turns :: Sorted(turn.ahead) && Sorted(turn.between)
    ensures Sorted(published)
  {
    forall j | 0 <= j < |steps| && steps[j].Foreign? ensures Canonical(steps[j].version.list) {
      assert IsExplained(turns, ws[j], steps[j]);
    }
    RunKeepsSorted(ws, steps, |steps|);
  }

  // An undisturbed call.

  ghost predicate NobodyElseWrites(steps: seq<Step>) {
    forall s | s in steps :: !s.Foreign?
  }

  /** Of one controller that nobody disturbs: nothing is written before it lands, and it lands by merging its diff
      into the version it started from; the only other ending is a failure of the client. */
  ghost predicate Undisturbed(w0: World, w: World) {
    && w0.history != [] && |w0.controllers| == |w.controllers| == 1
    && w.history != []
    && var c0, c := w0.controllers[0], w.controllers[0];
       var first, last := w0.history[Current(w0)], w.history[Current(w)];
       && (c.landed.None? ==> w.history == w0.history)
       && (c.landed.Some? ==> c.phase.Done? && last.rest == first.rest && IsMergeOf(last.list, first.list, c0))
       && (c.phase.Holding? ==> c.phase.version == Current(w0))
       && (c.phase.Done? ==> c.phase.ending in {Committed, ClientError})
  }

  lemma {:induction false} FreshDiffNeverConflicts(
    before: seq<Condition>, after: seq<Condition>, ops: seq<Op>, opts: ApplyOptions, clock: Clock)
    requires Unique(before) && Unique(after) && SameDiff(Diff(before, after), ops)
    ensures ApplySpec(Entries(before), ops, opts, clock).Ok()
    ensures SameStates(ApplySpec(Entries(before), ops, opts, clock).entries, Entries(after))
  {
    var diff := Diff(before, after);
    DiffTypesAreDistinct(before, after);
    DiffApplyRoundTrip(before, after, opts, clock);
    RetryDecidesTheSame(Entries(before), diff, ops, opts, clock, clock);
    var r, r' := ApplySpec(Entries(before), diff, opts, clock), ApplySpec(Entries(before), ops, opts, clock);
    forall t ensures SameState(At(r'.entries, t), At(Entries(after), t)) {
      assert SameState(At(r.entries, t), At(r'.entries, t)) && SameState(At(r.entries, t), At(Entries(after), t));
    }
  }

  lemma {:induction false} MergeStaysUndisturbed(w0: World, w: World, s: Step, after: seq<Condition>)
    requires Inv(w0, w) && Undisturbed(w0, w) && Enabled(w, s) && s.Merge? && s.read == Current(w)
    requires Unique(after) && w0.controllers[0].ops == Diff(w0.history[Current(w0)].list, after)
    ensures Undisturbed(w0, Next(w, s))
  {
    var c := w.controllers[0];
    assert ControllerInv(|w0.history|, w.history, 0, w0.controllers[0], c);
    FreshDiffNeverConflicts(w0.history[Current(w0)].list, after, c.ops, c.opts, s.clock);
  }

  lemma {:induction false} HoldsMergeOfFirst(w0: World, w: World)
    requires Inv(w0, w) && Undisturbed(w0, w) && w.controllers[0].phase.Holding?
    ensures w.history == w0.history && w.controllers[0].phase.version == Current(w0)
    ensures IsMergeOf(w.controllers[0].phase.merged, w0.history[Current(w0)].list, w0.controllers[0])
  {
    assert ControllerInv(|w0.history|, w.history, 0, w0.controllers[0], w.controllers[0]);
  }

  lemma {:induction false} CommitStaysUndisturbed(w0: World, w: World, ending: Ending)
    requires w0.history != [] && |w0.controllers| == |w.controllers| == 1 && w.history == w0.history
    requires w.controllers[0].phase.Holding? && ending in {Committed, ClientError}
    requires IsMergeOf(w.controllers[0].phase.merged, w0.history[Current(w0)].list, w0.controllers[0])
    ensures Undisturbed(w0, Commit(w, 0, ending))
  {}

  lemma {:induction false} WriteStaysUndisturbed(w0: World, w: World, s: Step)
    requires Inv(w0, w) && Undisturbed(w0, w) && Enabled(w, s) && s.Write?
    ensures Undisturbed(w0, Next(w, s))
  {
    HoldsMergeOfFirst(w0, w);
    CommitStaysUndisturbed(w0, w, Committed);
  }

  lemma {:induction false} FailStaysUndisturbed(w0: World, w: World, s: Step)
    requires Inv(w0, w) && Undisturbed(w0, w) && Enabled(w, s) && s.Fail?
    ensures Undisturbed(w0, Next(w, s))
  {
    if s.took {
      HoldsMergeOfFirst(w0, w);
      CommitStaysUndisturbed(w0, w, ClientError);
    } else {
      assert ControllerInv(|w0.history|, w.history, 0, w0.controllers[0], w.controllers[0]);
    }
  }

  lemma {:induction false} StepStaysUndisturbed(w0: World, w: World, s: Step, after: seq<Condition>)
    requires Inv(w0, w) && Undisturbed(w0, w) && Enabled(w, s) && !s.Foreign?
    requires s.Merge? ==> s.read == Current(w)
    requires Unique(after) && w0.controllers[0].ops == Diff(w0.history[Current(w0)].list, after)
    ensures Undisturbed(w0, Next(w, s))
  {
    match s {
      case Merge(_, _, _, _) => MergeStaysUndisturbed(w0, w, s, after);
      case Write(_) => WriteStaysUndisturbed(w0, w, s);
      case Fail(_, _) => FailStaysUndisturbed(w0, w, s);
    }
  }

  lemma {:induction false} RunStaysUndisturbed(ws: seq<World>, steps: seq<Step>, i: nat, after: seq<Condition>)
    requires IsRun(ws, steps) && Initial(ws[0]) && i < |ws| && NobodyElseWrites(steps) && ReadsCurrent(ws, steps, 0)
    requires |ws[0].controllers| == 1
    requires Unique(after) && ws[0].controllers[0].ops == Diff(ws[0].history[Current(ws[0])].list, after)
    ensures Undisturbed(ws[0], ws[i])
  {
    if i > 0 {
      RunStaysUndisturbed(ws, steps, i - 1, after);
      RunKeepsInv(ws, steps, i - 1);
      StepStaysUndisturbed(ws[0], ws[i - 1], steps[i - 1], after);
    } else {
      assert ws[0].controllers[0] in ws[0].controllers;
    }
  }

  /** Undisturbed, a call that ends has either met a failure of the client or left the server with the target's
      conditions, up to timestamps, and everything else untouched. */
  lemma {:induction false} UndisturbedCallReachesAfter(
    ws: seq<World>, steps: seq<Step>, i: nat, before: seq<Condition>, after: seq<Condition>, opts: ApplyOptions)
    requires IsRun(ws, steps) && Initial(ws[0]) && i < |ws| && NobodyElseWrites(steps) && ReadsCurrent(ws, steps, 0)
    requires Unique(before) && Unique(after)
    requires ws[0].history[Current(ws[0])].list == before
    requires ws[0].controllers == [Starting(Diff(before, after), opts)]
    ensures |ws[i].controllers| == 1 && ws[i].history != []
    ensures var c, last := ws[i].controllers[0], ws[i].history[Current(ws[i])];
            && (c.phase.Done? ==> c.phase.ending in {Committed, ClientError})
            && (c.phase == Done(Committed) ==>
                  && SameStates(Entries(last.list), Entries(after))
                  && last.rest == ws[0].history[Current(ws[0])].rest)
  {
    RunStaysUndisturbed(ws, steps, i, after);
    RunKeepsInv(ws, steps, i);
    var c, last := ws[i].controllers[0], ws[i].history[Current(ws[i])];
    assert ControllerInv(|ws[0].history|, ws[i].history, 0, ws[0].controllers[0], c);
    if c.phase == Done(Committed) {
      var ops, clock :| SameDiff(Diff(before, after), ops) && MergesTo(last.list, before, ops, opts, clock);
      FreshDiffNeverConflicts(before, after, ops, opts, clock);
    }
  }

  /** Nobody writes, no read is behind, nothing fails. */
  predicate Calm(turn: Turn) {
    turn.ahead == [] && turn.between == [] && turn.age == 0 && !turn.readFails && turn.fault == NoFault
  }

  lemma {:induction false} CalmRun(turns: seq<Turn>, ws: seq<World>, steps: seq<Step>, i: nat)
    requires IsRun(ws, steps) && AllExplained(turns, ws, steps) && forall turn | turn in turns :: Calm(turn)
    requires i < |steps|
    ensures !steps[i].Foreign? && !steps[i].Fail? && (steps[i].Merge? ==> steps[i].read == |ws[i].history| - 1)
  {
    assert IsExplained(turns, ws[i], steps[i]);
    var turn :| turn in turns && Explains(turn, ws[i], steps[i]);
  }

  lemma {:induction false} WithoutFailuresNoClientError(ws: seq<World>, steps: seq<Step>, i: nat)
    requires IsRun(ws, steps) && Initial(ws[0]) && i < |ws| && |ws[0].controllers| == 1
    requires forall s | s in steps :: !s.Fail?
    ensures |ws[i].controllers| == 1 && ws[i].controllers[0].phase != Done(ClientError)
  {
    if i > 0 {
      WithoutFailuresNoClientError(ws, steps, i - 1);
      assert Enabled(ws[i - 1], steps[i - 1]) && ws[i] == Next(ws[i - 1], steps[i - 1]);
      assert steps[i - 1] in steps;
    } else {
      assert ws[0].controllers[0] in ws[0].controllers;
    }
  }

  lemma {:induction false} EmptyDiffMeansEqual(before: seq<Condition>, after: seq<Condition>)
    requires Unique(before) && Unique(after) && Diff(before, after) == []
    ensures SameStates(Entries(before), Entries(after))
  {
    forall t ensures SameState(At(Entries(before), t), At(Entries(after), t)) {
      DiffAt(before, after, t);
    }
  }

  lemma {:induction false} CalmRunCommits(
    turns: seq<Turn>, ws: seq<World>, steps: seq<Step>, before: seq<Condition>, after: seq<Condition>,
    opts: ApplyOptions, ending: Ending)
    requires IsRun(ws, steps) && Initial(ws[0]) && AllExplained(turns, ws, steps)
    requires forall turn | turn in turns :: Calm(turn)
    requires Unique(before) && Unique(after) && ws[0].history[Current(ws[0])].list == before
    requires ws[0].controllers == [Starting(Diff(before, after), opts)] && EndedAs(ws[|steps|], ending)
    ensures ending == Committed && ws[|steps|].history != []
    ensures var last := ws[|steps|].history[Current(ws[|steps|])];
            SameStates(Entries(last.list), Entries(after)) && last.rest == ws[0].history[Current(ws[0])].rest
  {
    forall i | 0 <= i < |steps|
      ensures !steps[i].Foreign? && !steps[i].Fail? && (steps[i].Merge? ==> steps[i].read == |ws[i].history| - 1)
    {
      CalmRun(turns, ws, steps, i);
    }
    UndisturbedCallReachesAfter(ws, steps, |steps|, before, after, opts);
    WithoutFailuresNoClientError(ws, steps, |steps|);
  }

  lemma {:induction false} CalmPublicationCommits(
    first: seq<Version>, before: seq<Condition>, after: seq<Condition>, opts: ApplyOptions, turns: seq<Turn>,
    ending: Option<Ending>, ws: seq<World>, steps: seq<Step>, published: seq<Version>)
    requires IsPublication(first, before, after, opts, turns, ending, ws, steps, published) && ending.Some?
    requires forall turn | turn in turns :: Calm(turn)
    requires Unique(before) && Unique(after) && first != [] && first[|first| - 1].list == before
    ensures ending == Some(Committed) && published != []
    ensures published[|published| - 1].rest == first[|first| - 1].rest
    ensures SameStates(Entries(published[|published| - 1].list), Entries(after))
  {
    assert ws[0] == World(first, [Starting(Diff(before, after), opts)]) && ws[|steps|].history == published;
    CalmRunCommits(turns, ws, steps, before, after, opts, ending.value);
  }

  /** The whole call in calm surroundings, whatever PatchStatusConditions returns there: unless there was nothing to
      do it has committed, and the server has the target's conditions and everything else as before. */
  lemma {:induction false} CalmCallReachesAfter(
    first: seq<Version>, before: seq<Condition>, after: seq<Condition>, opts: ApplyOptions, turns: seq<Turn>,
    ending: Option<Ending>, ws: seq<World>, steps: seq<Step>, published: seq<Version>)
    requires IsPublication(first, before, after, opts, turns, ending, ws, steps, published)
    requires forall turn | turn in turns :: Calm(turn)
    requires Unique(before) && Unique(after) && first != [] && first[|first| - 1].list == before
    ensures ending == if Diff(before, after) == [] then None else Some(Committed)
    ensures published != [] && published[|published| - 1].rest == first[|first| - 1].rest
    ensures SameStates(Entries(published[|published| - 1].list), Entries(after))
  {
    if ending == None {
      EmptyDiffMeansEqual(before, after);
    } else {
      CalmPublicationCommits(first, before, after, opts, turns, ending, ws, steps, published);
    }
  }
}
