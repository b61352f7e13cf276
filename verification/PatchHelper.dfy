/** Publishing a whole object: the conditions under the version lock, then spec and metadata, then the status. */
module PatchHelper {
  import opened Api
  import opened Json
  import opened Ordering
  import opened Store
  import opened MergePatch
  import opened MergeLaws
  import opened World
  import opened Publish
  import opened Payloads

  function StatusOf(doc: Json): map<string, Json> {
    if Member(doc, "status").Obj? then doc.fields["status"].fields else map[]
  }

  /** A document with these conditions in its status; an empty list is left out. */
  function Carrying(doc: Json, list: seq<Condition>): Json
    requires Member(doc, "status").Obj?
  {
    if list == [] then Strip(doc)
    else Obj(doc.fields["status" := Obj(StatusOf(doc)["conditions" := Conditions(list)])])
  }

  /** The document a client sees: a version with its conditions in their place. */
  function ToDoc(v: Version): Json
    requires ProperRest(v.rest)
  {
    Carrying(v.rest, v.list)
  }

  function ConditionsOf(doc: Json): seq<Condition> {
    match Member(Member(doc, "status"), "conditions")
    case Conditions(list) => list
    case _ => []
  }

  function FromDoc(doc: Json): Version {
    Version(ConditionsOf(doc), Strip(doc), None)
  }

  /** The main endpoint merges the patch and ignores what it says about status. */
  function MainWrite(doc: Json, patch: Json): Json
    requires patch.Obj?
  {
    var m := ApplyPatch(doc, patch).fields - {"status"};
    Obj(if doc.Obj? && "status" in doc.fields then m["status" := doc.fields["status"]] else m)
  }

  /** The status endpoint merges the patch and ignores everything but status. */
  function StatusWrite(doc: Json, patch: Json): Json
    requires patch.Obj?
  {
    var m, fields := ApplyPatch(doc, patch).fields, if doc.Obj? then doc.fields else map[];
    Obj(if "status" in m then fields["status" := m["status"]] else fields - {"status"})
  }

  lemma {:induction false} ProperRestIsStripped(rest: Json)
    requires ProperRest(rest)
    ensures Strip(rest) == rest
  {
    assert StatusOf(rest) - {"conditions"} == StatusOf(rest);
    assert rest.fields["status" := rest.fields["status"]] == rest.fields;
  }

  lemma {:induction false} DocRoundTrip(v: Version)
    requires ProperRest(v.rest)
    ensures ToDoc(v).Obj? && FromDoc(ToDoc(v)) == Version(v.list, v.rest, None)
  {
    ProperRestIsStripped(v.rest);
    assert StatusOf(v.rest)["conditions" := Conditions(v.list)] - {"conditions"} == StatusOf(v.rest);
    assert v.rest.fields["status" := v.rest.fields["status"]] == v.rest.fields;
    assert Strip(ToDoc(v)).fields == v.rest.fields;
  }

  /** A spec or metadata write leaves the conditions, and the rest of the status, alone. */
  lemma {:induction false} MainWriteKeepsStatus(v: Version, patch: Json)
    requires ProperRest(v.rest) && patch.Obj?
    ensures FromDoc(MainWrite(ToDoc(v), patch)) == Version(v.list, MainWrite(v.rest, patch), None)
    ensures ProperRest(MainWrite(v.rest, patch)) && StatusOf(MainWrite(v.rest, patch)) == StatusOf(v.rest)
  {
    DocRoundTrip(v);
    ProperRestIsStripped(v.rest);
    var d := ToDoc(v);
    var w := MainWrite(d, patch);
    assert Member(w, "status") == Member(d, "status");
    assert ApplyPatch(d, patch).fields - {"status"} == ApplyPatch(v.rest, patch).fields - {"status"};
    assert Strip(w).fields == MainWrite(v.rest, patch).fields;
  }

  predicate SparesConditions(patch: Json) {
    && patch.Obj?
    && ("status" in patch.fields ==> patch.fields["status"].Obj? && "conditions" !in patch.fields["status"].fields)
  }

  lemma {:induction false} StatusMergeKeepsConditions(status: map<string, Json>, c: Json, patch: Json)
    requires patch.Obj? && "conditions" !in patch.fields && "conditions" !in status
    ensures ApplyPatch(Obj(status["conditions" := c]), patch) ==
            Obj(ApplyPatch(Obj(status), patch).fields["conditions" := c])
    ensures "conditions" !in ApplyPatch(Obj(status), patch).fields
  {
    assert ApplyPatch(Obj(status["conditions" := c]), patch).fields ==
           ApplyPatch(Obj(status), patch).fields["conditions" := c];
  }

  /** A status write whose patch does not speak of conditions leaves them alone. */
  lemma {:induction false} StatusWriteKeepsConditions(v: Version, patch: Json)
    requires ProperRest(v.rest) && SparesConditions(patch)
    ensures FromDoc(StatusWrite(ToDoc(v), patch)) == Version(v.list, StatusWrite(v.rest, patch), None)
    ensures ProperRest(StatusWrite(v.rest, patch))
  {
    var d, s := ToDoc(v), StatusOf(v.rest);
    DocRoundTrip(v);
    ProperRestIsStripped(v.rest);
    if "status" in patch.fields {
      var p := patch.fields["status"];
      StatusMergeKeepsConditions(s, Conditions(v.list), p);
      var merged := ApplyPatch(Obj(s), p).fields;
      assert Member(v.rest, "status") == Obj(s);
      assert StatusWrite(v.rest, patch) == Obj(v.rest.fields["status" := Obj(merged)]);
      var r := StatusWrite(v.rest, patch);
      assert StatusOf(r) == merged;
      DocRoundTrip(Version(v.list, r, None));
      if v.list == [] {
        ProperRestIsStripped(r);
        assert StatusWrite(d, patch) == ToDoc(Version(v.list, r, None));
      } else {
        assert Member(d, "status") == Obj(s["conditions" := Conditions(v.list)]);
        assert StatusWrite(d, patch).fields == ToDoc(Version(v.list, r, None)).fields;
      }
    } else {
      assert StatusWrite(d, patch).fields == d.fields;
      assert StatusWrite(v.rest, patch).fields == v.rest.fields;
    }
  }

  function DeltaOf(before: Json, after: Json, focus: Focus): Json
    requires before.Obj? && after.Obj?
  {
    Delta(Payload(before, focus, true), Payload(after, focus, true))
  }

  lemma {:induction false} StatusDeltaSparesConditions(before: Json, after: Json)
    requires Member(before, "status").Obj? && Member(after, "status").Obj?
    ensures SparesConditions(DeltaOf(before, after, StatusFocus))
  {
    var a, b := Payload(before, StatusFocus, true), Payload(after, StatusFocus, true);
    assert a.fields["status"] == Obj(StatusOf(before) - {"conditions"});
    assert b.fields["status"] == Obj(StatusOf(after) - {"conditions"});
    var d := Delta(a, b);
    if "status" in d.fields {
      assert d.fields["status"] == Delta(a.fields["status"], b.fields["status"]);
      assert "conditions" !in d.fields["status"].fields;
    }
  }

  // The two writes on what the server holds.

  predicate NeedsMain(changes: set<string>) {
    "metadata" in changes || "spec" in changes
  }

  /** A document of an API object: the five fields, a status object, and no nulls. */
  predicate IsObjectDoc(doc: Json) {
    && doc.Obj? && NullFree(doc)
    && doc.fields.Keys <= {"kind", "apiVersion", "metadata", "spec", "status"}
    && Member(doc, "status").Obj?
  }

  predicate SameKind(before: Json, after: Json) {
    Get(before, ["kind"]) == Get(after, ["kind"]) && Get(before, ["apiVersion"]) == Get(after, ["apiVersion"])
  }

  /** The top-level fields in which two documents differ. */
  function DifferingFields(before: Json, after: Json): set<string>
    requires before.Obj? && after.Obj?
  {
    set k | k in before.fields.Keys + after.fields.Keys &&
            !(k in before.fields && k in after.fields && before.fields[k] == after.fields[k])
  }

  /** They are the fields that the merge patch mentions. */
  lemma {:induction false} DeltaHasDifferingFields(before: Json, after: Json)
    requires before.Obj? && after.Obj?
    ensures Delta(before, after).fields.Keys == DifferingFields(before, after)
  {
    forall k | k in before.fields && k in after.fields && before.fields[k].Obj? && after.fields[k].Obj?
      ensures Delta(before.fields[k], after.fields[k]) == EMPTY <==> before.fields[k] == after.fields[k]
    {
      EmptyDeltaMeansEqual(before.fields[k], after.fields[k]);
    }
  }

  function AfterMain(v: Version, before: Json, after: Json): Version
    requires before.Obj? && after.Obj?
  {
    if NeedsMain(DifferingFields(before, after))
    then Version(v.list, MainWrite(v.rest, DeltaOf(before, after, SpecFocus)), None)
    else v
  }

  function AfterStatus(v: Version, before: Json, after: Json): Version
    requires before.Obj? && after.Obj?
  {
    if "status" in DifferingFields(before, after)
    then Version(v.list, StatusWrite(v.rest, DeltaOf(before, after, StatusFocus)), None)
    else v
  }

  predicate SameContent(v: Version, w: Version) {
    v.list == w.list && v.rest == w.rest
  }

  lemma {:induction false} NullFreePayload(doc: Json, focus: Focus)
    requires doc.Obj? && NullFree(doc)
    ensures NullFree(Payload(doc, focus, true))
  {
    if Member(doc, "status").Obj? {
      assert NullFree(doc.fields["status"]);
      assert NullFree(Obj(doc.fields["status"].fields - {"conditions"}));
    }
  }

  /** Undisturbed, the spec and metadata write makes everything but status as it is in `after`. */
  lemma {:induction false} MainWriteReachesAfter(v: Version, before: Json, after: Json, k: string)
    requires IsObjectDoc(before) && IsObjectDoc(after) && v.rest == Strip(before)
    requires SameKind(before, after)
    requires k != "status"
    ensures ProperRest(v.rest)
    ensures var r := AfterMain(v, before, after).rest;
            && r.Obj? && (k in r.fields <==> k in after.fields)
            && (k in r.fields ==> r.fields[k] == after.fields[k])
  {
    var a, b, d := Payload(before, SpecFocus, true), Payload(after, SpecFocus, true), DeltaOf(before, after, SpecFocus);
    assert k in v.rest.fields <==> k in before.fields;
    assert k in before.fields ==> v.rest.fields[k] == before.fields[k];
    if NeedsMain(DifferingFields(before, after)) {
      NullFreePayload(after, SpecFocus);
      DeltaRoundTripAt(a, b, k);
      assert k in v.rest.fields <==> k in a.fields;
      assert k in after.fields <==> k in b.fields;
    } else {
      assert Get(before, [k]) == if k in before.fields then Get(before.fields[k], [][..]) else None;
      assert Get(after, [k]) == if k in after.fields then Get(after.fields[k], [][..]) else None;
      assert k in {"metadata", "spec"} ==> k !in DifferingFields(before, after);
    }
  }

  lemma {:induction false} StatusWriteReachesAfter(v: Version, before: Json, after: Json)
    requires IsObjectDoc(before) && IsObjectDoc(after)
    requires ProperRest(v.rest) && StatusOf(v.rest) == StatusOf(before) - {"conditions"}
    ensures var r := AfterStatus(v, before, after).rest;
            && r.Obj? && Member(r, "status") == Obj(StatusOf(after) - {"conditions"})
            && forall k | k != "status" :: (k in r.fields <==> k in v.rest.fields)
                                           && (k in r.fields ==> r.fields[k] == v.rest.fields[k])
  {
    var a, b, d := Payload(before, StatusFocus, true), Payload(after, StatusFocus, true), DeltaOf(before, after, StatusFocus);
    assert a.fields["status"] == Obj(StatusOf(before) - {"conditions"}) == v.rest.fields["status"];
    assert b.fields["status"] == Obj(StatusOf(after) - {"conditions"});
    if "status" in DifferingFields(before, after) {
      NullFreePayload(after, StatusFocus);
      DeltaRoundTripAt(a, b, "status");
    }
  }

  lemma {:induction false} FieldReachesAfter(v: Version, before: Json, after: Json, k: string)
    requires IsObjectDoc(before) && IsObjectDoc(after) && v.rest == Strip(before)
    requires SameKind(before, after)
    requires ProperRest(AfterMain(v, before, after).rest)
    requires StatusOf(AfterMain(v, before, after).rest) == StatusOf(before) - {"conditions"}
    ensures var w := AfterStatus(AfterMain(v, before, after), before, after).rest;
            && w.Obj? && (k in w.fields <==> k in Strip(after).fields)
            && (k in w.fields ==> w.fields[k] == Strip(after).fields[k])
  {
    var m := AfterMain(v, before, after);
    StatusWriteReachesAfter(m, before, after);
    if k != "status" {
      MainWriteReachesAfter(v, before, after, k);
    }
  }

  /** Three undisturbed writes leave the server with the metadata, the spec and the other status fields of
      `after`, and with the conditions the first write left. */
  lemma {:induction false} UndisturbedWritesReachAfter(v: Version, before: Json, after: Json)
    requires IsObjectDoc(before) && IsObjectDoc(after) && v.rest == Strip(before)
    requires SameKind(before, after)
    ensures ProperRest(v.rest) && ProperRest(AfterMain(v, before, after).rest)
    ensures var w := AfterStatus(AfterMain(v, before, after), before, after);
            w.list == v.list && w.rest == Strip(after)
  {
    var m := AfterMain(v, before, after);
    MainWriteReachesAfter(v, before, after, "spec");
    assert StatusOf(v.rest) == StatusOf(before) - {"conditions"};
    MainWriteKeepsStatus(v, DeltaOf(before, after, SpecFocus));
    var w := AfterStatus(m, before, after).rest;
    FieldReachesAfter(v, before, after, "status");
    forall k ensures (k in w.fields <==> k in Strip(after).fields)
                     && (k in w.fields ==> w.fields[k] == Strip(after).fields[k])
    {
      FieldReachesAfter(v, before, after, k);
    }
    assert w.fields == Strip(after).fields;
  }

  /** Neither write needs the lock: what `before` and `after` agree on below spec or metadata stays as other
      processes have left it. */
  lemma {:induction false} MainWriteLosesNoUpdate(rest: Json, before: Json, after: Json, path: Path)
    requires rest.Obj? && before.Obj? && after.Obj? && path != [] && path[0] != "status"
    requires var a, b := Payload(before, SpecFocus, true), Payload(after, SpecFocus, true);
             SharedSpine(a, b, path) && Get(a, path) == Get(b, path)
    ensures Get(MainWrite(rest, DeltaOf(before, after, SpecFocus)), path) == Get(rest, path)
  {
    var d := DeltaOf(before, after, SpecFocus);
    AgreedPathsAreKept(rest, Payload(before, SpecFocus, true), Payload(after, SpecFocus, true), path);
    var m, w := ApplyPatch(rest, d), MainWrite(rest, d);
    assert path[0] in w.fields <==> path[0] in m.fields;
    assert Get(w, path) == if path[0] in w.fields then Get(w.fields[path[0]], path[1..]) else None;
    assert Get(m, path) == if path[0] in m.fields then Get(m.fields[path[0]], path[1..]) else None;
  }

  /** The same for the status: what `before` and `after` agree on below it, conditions aside, stays. */
  lemma {:induction false} StatusWriteLosesNoUpdate(rest: Json, before: Json, after: Json, path: Path)
    requires rest.Obj? && before.Obj? && after.Obj? && path != [] && path[0] == "status"
    requires var a, b := Payload(before, StatusFocus, true), Payload(after, StatusFocus, true);
             SharedSpine(a, b, path) && Get(a, path) == Get(b, path)
    ensures Get(StatusWrite(rest, DeltaOf(before, after, StatusFocus)), path) == Get(rest, path)
  {
    var d := DeltaOf(before, after, StatusFocus);
    AgreedPathsAreKept(rest, Payload(before, StatusFocus, true), Payload(after, StatusFocus, true), path);
    var m, w := ApplyPatch(rest, d), StatusWrite(rest, d);
    assert path[0] in w.fields <==> path[0] in m.fields;
    assert Get(w, path) == if path[0] in w.fields then Get(w.fields[path[0]], path[1..]) else None;
    assert Get(m, path) == if path[0] in m.fields then Get(m.fields[path[0]], path[1..]) else None;
  }

  lemma {:induction false} StripTwice(doc: Json)
    ensures Strip(Strip(doc)) == Strip(doc)
  {
    if Member(doc, "status").Obj? {
      var s := doc.fields["status"].fields - {"conditions"};
      assert s - {"conditions"} == s;
      assert Strip(doc).fields["status"] == Obj(s);
      assert Strip(Strip(doc)).fields == Strip(doc).fields;
    }
  }

  lemma {:induction false} ObservedIsObjectDoc(doc: Json)
    requires IsObjectDoc(doc)
    ensures IsObjectDoc(Observed(doc)) && SameKind(doc, Observed(doc))
    ensures ConditionsOf(Observed(doc)) == ConditionsOf(doc)
  {
    assert NullFree(doc.fields["status"]);
    assert NullFree(Obj(doc.fields["status"].fields["observedGeneration" := GenerationOf(doc)]));
    assert forall k | k != "status" :: k in doc.fields <==> k in Observed(doc).fields;
    assert forall k :: Get(doc, [k]) == if k in doc.fields then Get(doc.fields[k], [k][1..]) else None;
  }

  lemma {:induction false} CarryingIsObjectDoc(doc: Json, list: seq<Condition>)
    requires IsObjectDoc(doc)
    ensures IsObjectDoc(Carrying(doc, list)) && SameKind(doc, Carrying(doc, list))
    ensures ConditionsOf(Carrying(doc, list)) == list && Strip(Carrying(doc, list)) == Strip(doc)
  {
    var d, status := Carrying(doc, list), StatusOf(doc);
    assert NullFree(doc.fields["status"]);
    assert NullFree(Obj(status - {"conditions"})) && NullFree(Obj(status["conditions" := Conditions(list)]));
    assert status["conditions" := Conditions(list)] - {"conditions"} == status - {"conditions"};
    StripTwice(doc);
    assert Strip(d).fields == Strip(doc).fields;
    assert forall k | k != "status" :: k in doc.fields <==> k in d.fields;
    assert forall k :: Get(doc, [k]) == if k in doc.fields then Get(doc.fields[k], [k][1..]) else None;
  }

  datatype HelperOptions = HelperOptions(includeObservedGeneration: bool, conditions: ApplyOptions)

  /** The document that the writes aim at: the object as it is now, the generation observed if asked for. */
  function Target(doc: Json, list: seq<Condition>, options: HelperOptions): Json
    requires Member(doc, "status").Obj?
  {
    if options.includeObservedGeneration then Observed(Carrying(doc, list)) else Carrying(doc, list)
  }

  lemma {:induction false} TargetIsObjectDoc(doc: Json, list: seq<Condition>, options: HelperOptions)
    requires IsObjectDoc(doc)
    ensures IsObjectDoc(Target(doc, list, options)) && SameKind(doc, Target(doc, list, options))
    ensures ConditionsOf(Target(doc, list, options)) == list
  {
    CarryingIsObjectDoc(doc, list);
    ObservedIsObjectDoc(Carrying(doc, list));
  }

  /** The target is the object: its conditions, the generation observed if asked for, and otherwise what it has. */
  ghost predicate IsTarget(rest: Json, doc: Json, observe: bool) {
    && Get(rest, ["status", "observedGeneration"]) ==
       (if observe then Some(GenerationToObserve(doc)) else Get(doc, ["status", "observedGeneration"]))
    && forall p: Path | Apart(p, ["status", "conditions"]) && Apart(p, ["status", "observedGeneration"]) ::
         Get(rest, p) == Get(doc, p)
  }

  lemma {:induction false} CarryingChangesNothingElse(doc: Json, list: seq<Condition>, p: Path)
    requires Member(doc, "status").Obj? && Apart(p, ["status", "conditions"])
    ensures Get(Carrying(doc, list), p) == Get(doc, p)
  {
    if list == [] {
      StrippingChangesNothingElse(doc, p);
    } else {
      var doc' := Carrying(doc, list);
      assert doc'.fields - {"status"} == doc.fields - {"status"};
      assert doc'.fields["status"].fields - {"conditions"} == doc.fields["status"].fields - {"conditions"};
      OneStatusFieldDiffers(doc, doc', "conditions", p);
    }
  }

  lemma {:induction false} StrippedTargetIsTarget(doc: Json, list: seq<Condition>, options: HelperOptions)
    requires IsObjectDoc(doc)
    ensures IsTarget(Strip(Target(doc, list, options)), doc, options.includeObservedGeneration)
  {
    var carried, target := Carrying(doc, list), Target(doc, list, options);
    TargetIsObjectDoc(doc, list, options);
    CarryingIsObjectDoc(doc, list);
    var observed: Path, generation: Path := ["status", "observedGeneration"], ["metadata", "generation"];
    assert |"observedGeneration"| != |"conditions"| && observed[1] == "observedGeneration";
    assert Apart(observed, ["status", "conditions"]);
    CarryingChangesNothingElse(doc, list, observed);
    CarryingChangesNothingElse(doc, list, generation);
    StrippingChangesNothingElse(target, observed);
    ObservedIsGeneration(carried);
    forall p: Path | Apart(p, ["status", "conditions"]) && Apart(p, observed)
      ensures Get(Strip(target), p) == Get(doc, p)
    {
      CarryingChangesNothingElse(doc, list, p);
      ObservingChangesNothingElse(carried, p);
      StrippingChangesNothingElse(target, p);
    }
  }

  /** Whenever there are conditions to publish, the status counts as changed. */
  lemma {:induction false} ChangedConditionsChangeStatus(
    beforeDoc: Json, before: seq<Condition>, doc: Json, after: seq<Condition>, options: HelperOptions)
    requires IsObjectDoc(beforeDoc) && IsObjectDoc(doc) && Unique(before) && Unique(after)
    requires ConditionsOf(beforeDoc) == before && Diff(before, after) != []
    ensures "status" in DifferingFields(beforeDoc, Target(doc, after, options))
  {
    TargetIsObjectDoc(doc, after, options);
    DiffIsPointwise(before, after);
    assert Diff(before, after)[0] in Diff(before, after);
    assert before != after;
  }

  // The history the two writes leave.

  /** What the surroundings do after the conditions: versions written before each of the two writes, and what
      happens to the writes. */
  datatype Later = Later(gapMain: seq<Version>, main: WriteFault, gapStatus: seq<Version>, status: WriteFault)

  datatype Errors = Errors(conditions: Option<Ending>, main: bool, status: bool)

  /** A write that changes nothing makes no new version. */
  function Appended(history: seq<Version>, v: Version): seq<Version>
    requires history != []
  {
    if SameContent(v, history[|history| - 1]) then history else history + [v]
  }

  function WithMain(history: seq<Version>, fault: WriteFault, before: Json, after: Json): seq<Version>
    requires history != [] && before.Obj? && after.Obj?
  {
    if fault == Rejected then history else Appended(history, AfterMain(history[|history| - 1], before, after))
  }

  function WithStatus(history: seq<Version>, fault: WriteFault, before: Json, after: Json): seq<Version>
    requires history != [] && before.Obj? && after.Obj?
  {
    if fault == Rejected then history else Appended(history, AfterStatus(history[|history| - 1], before, after))
  }

  /** Each of the two writes is made on the version it finds. */
  function WithRest(history: seq<Version>, later: Later, before: Json, after: Json): seq<Version>
    requires history != [] && before.Obj? && after.Obj?
  {
    WithStatus(WithMain(history + later.gapMain, later.main, before, after) + later.gapStatus,
               later.status, before, after)
  }

  /** The requests: one for each part that has changed, with the difference of its payloads. */
  function RestRequests(before: Json, after: Json): seq<Request>
    requires before.Obj? && after.Obj?
  {
    (if NeedsMain(DifferingFields(before, after)) then [MainRequest(DeltaOf(before, after, SpecFocus))] else [])
    + (if "status" in DifferingFields(before, after) then [StatusRequest(DeltaOf(before, after, StatusFocus))] else [])
  }

  /** A field is counted as changed if it reads differently. */
  lemma {:induction false} ChangedFieldsReadDifferently(before: Json, after: Json, k: string)
    requires before.Obj? && after.Obj?
    ensures k in DifferingFields(before, after) <==> Get(before, [k]) != Get(after, [k])
  {
    assert [k][1..] == [];
    assert Get(before, [k]) == if k in before.fields then Get(before.fields[k], []) else None;
    assert Get(after, [k]) == if k in after.fields then Get(after.fields[k], []) else None;
  }

  /** A request to the main endpoint is made exactly if metadata or spec reads differently, one to the status endpoint
      exactly if the status does, and never more than one of each. */
  lemma {:induction false} RequestsAsNeeded(before: Json, after: Json)
    requires before.Obj? && after.Obj?
    ensures var main := MainRequest(DeltaOf(before, after, SpecFocus));
            var status := StatusRequest(DeltaOf(before, after, StatusFocus));
            var mainDiffers := Get(before, ["metadata"]) != Get(after, ["metadata"])
                               || Get(before, ["spec"]) != Get(after, ["spec"]);
            var statusDiffers := Get(before, ["status"]) != Get(after, ["status"]);
            RestRequests(before, after) ==
            if mainDiffers && statusDiffers then [main, status]
            else if mainDiffers then [main]
            else if statusDiffers then [status]
            else []
  {
    ChangedFieldsReadDifferently(before, after, "metadata");
    ChangedFieldsReadDifferently(before, after, "spec");
    ChangedFieldsReadDifferently(before, after, "status");
  }

  lemma {:induction false} WithRestExtends(history: seq<Version>, later: Later, before: Json, after: Json)
    requires history != [] && before.Obj? && after.Obj?
    ensures history <= WithRest(history, later, before, after)
  {}

  lemma {:induction false} MainWriteIsSound(history: seq<Version>, fault: WriteFault, before: Json, after: Json)
    requires history != [] && Sound(history) && before.Obj? && after.Obj?
    ensures Sound(WithMain(history, fault, before, after))
  {
    var v := history[|history| - 1];
    assert v in history;
    MainWriteKeepsStatus(v, DeltaOf(before, after, SpecFocus));
  }

  lemma {:induction false} StatusWriteIsSound(history: seq<Version>, fault: WriteFault, before: Json, after: Json)
    requires history != [] && Sound(history) && IsObjectDoc(before) && IsObjectDoc(after)
    ensures Sound(WithStatus(history, fault, before, after))
  {
    var v := history[|history| - 1];
    assert v in history;
    StatusDeltaSparesConditions(before, after);
    StatusWriteKeepsConditions(v, DeltaOf(before, after, StatusFocus));
  }

  function Last(history: seq<Version>): Version
    requires history != []
  {
    history[|history| - 1]
  }

  /** The second part of a call: the history it leaves, and its errors. */
  ghost predicate IsRest(
    published: seq<Version>, later: Later, before: Json, after: Json, errors: Errors, history: seq<Version>)
  {
    && published != [] && before.Obj? && after.Obj?
    && history == WithRest(published, later, before, after) && history != []
    && errors.main == (NeedsMain(DifferingFields(before, after)) && later.main != NoFault)
    && errors.status == ("status" in DifferingFields(before, after) && later.status != NoFault)
  }

  ghost predicate IsCalm(turns: seq<Turn>, later: Later) {
    && (forall turn | turn in turns :: Calm(turn))
    && later == Later([], NoFault, [], NoFault)
  }

  predicate IsVersionOf(v: Version, conditions: seq<Condition>, doc: Json) {
    v.list == conditions && v.rest == Strip(doc)
  }

  /** The second part in calm surroundings, from a version whose rest is that of `before`. */
  lemma {:induction false} CalmRestReachesAfter(published: seq<Version>, later: Later, before: Json, after: Json)
    requires published != [] && IsObjectDoc(before) && IsObjectDoc(after) && SameKind(before, after)
    requires later == Later([], NoFault, [], NoFault) && Last(published).rest == Strip(before)
    ensures Last(WithRest(published, later, before, after)).list == Last(published).list
    ensures Last(WithRest(published, later, before, after)).rest == Strip(after)
  {
    var v := Last(published);
    UndisturbedWritesReachAfter(v, before, after);
    assert published + [] == published;
    var h := WithMain(published, NoFault, before, after);
    assert h + [] == h && SameContent(Last(h), AfterMain(v, before, after));
    assert SameContent(AfterStatus(Last(h), before, after), AfterStatus(AfterMain(v, before, after), before, after));
  }

  /** No error, except that there may have been nothing to do, and the server has the target: its metadata, spec and
      other status fields, and its conditions up to timestamps, position by position if everything is sorted. */
  ghost predicate Succeeds(
    first: seq<Version>, before: seq<Condition>, after: seq<Condition>, doc: Json, options: HelperOptions,
    errors: Errors, history: seq<Version>)
    requires Member(doc, "status").Obj?
  {
    && errors == Errors(if Diff(before, after) == [] then None else Some(Committed), false, false)
    && history != []
    && Last(history).rest == Strip(Target(doc, after, options))
    && IsTarget(Last(history).rest, doc, options.includeObservedGeneration)
    && SameStates(Entries(Last(history).list), Entries(after))
    && (Sorted(first) && Canonical(after) ==> SameLists(Last(history).list, after))
  }

  /** Everybody else writes sorted lists. */
  ghost predicate SortedSurroundings(turns: seq<Turn>, later: Later) {
    && (forall turn | turn in turns :: Sorted(turn.ahead) && Sorted(turn.between))
    && Sorted(later.gapMain) && Sorted(later.gapStatus)
  }

  lemma {:induction false} RestStaysSorted(
    published: seq<Version>, later: Later, before: Json, after: Json)
    requires published != [] && before.Obj? && after.Obj? && Sorted(published)
    requires Sorted(later.gapMain) && Sorted(later.gapStatus)
    ensures Sorted(WithRest(published, later, before, after))
  {
    var h1 := published + later.gapMain;
    assert h1[|h1| - 1] in h1;
    var h2 := WithMain(h1, later.main, before, after) + later.gapStatus;
    assert h2[|h2| - 1] in h2;
  }

  /** The server's lists stay sorted over a whole call. */
  lemma {:induction false} CallStaysSorted(
    first: seq<Version>, before: seq<Condition>, after: seq<Condition>, opts: ApplyOptions, turns: seq<Turn>,
    later: Later, errors: Errors, ws: seq<World>, steps: seq<Step>, published: seq<Version>,
    beforeDoc: Json, target: Json, history: seq<Version>)
    requires IsPublication(first, before, after, opts, turns, errors.conditions, ws, steps, published)
    requires IsRest(published, later, beforeDoc, target, errors, history)
    requires Sorted(first) && SortedSurroundings(turns, later)
    ensures Sorted(history)
  {
    PublicationStaysSorted(first, before, after, opts, turns, errors.conditions, ws, steps, published);
    RestStaysSorted(published, later, beforeDoc, target);
  }

  lemma {:induction false} CalmRestSucceeds(
    published: seq<Version>, later: Later, beforeDoc: Json, doc: Json, list: seq<Condition>, options: HelperOptions,
    errors: Errors, history: seq<Version>)
    requires IsObjectDoc(beforeDoc) && IsObjectDoc(doc) && SameKind(beforeDoc, doc)
    requires IsRest(published, later, beforeDoc, Target(doc, list, options), errors, history)
    requires later == Later([], NoFault, [], NoFault) && Last(published).rest == Strip(beforeDoc)
    ensures !errors.main && !errors.status
    ensures Last(history).list == Last(published).list && Last(history).rest == Strip(Target(doc, list, options))
  {
    TargetIsObjectDoc(doc, list, options);
    CalmRestReachesAfter(published, later, beforeDoc, Target(doc, list, options));
  }

  lemma {:induction false} CalmPatchSucceeds(
    first: seq<Version>, before: seq<Condition>, after: seq<Condition>, beforeDoc: Json, doc: Json,
    options: HelperOptions, turns: seq<Turn>, later: Later, errors: Errors, ws: seq<World>, steps: seq<Step>,
    published: seq<Version>, history: seq<Version>)
    requires Unique(before) && Unique(after) && IsObjectDoc(beforeDoc) && IsObjectDoc(doc) && first != []
    requires IsPublication(first, before, after, options.conditions, turns, errors.conditions, ws, steps, published)
    requires IsRest(published, later, beforeDoc, Target(doc, after, options), errors, history)
    requires IsCalm(turns, later) && IsVersionOf(Last(first), before, beforeDoc) && SameKind(beforeDoc, doc)
    ensures Succeeds(first, before, after, doc, options, errors, history)
  {
    StrippedTargetIsTarget(doc, after, options);
    CalmCallReachesAfter(first, before, after, options.conditions, turns, errors.conditions, ws, steps, published);
    CalmRestSucceeds(published, later, beforeDoc, doc, after, options, errors, history);
    if Sorted(first) && Canonical(after) {
      CallStaysSorted(first, before, after, options.conditions, turns, later, errors, ws, steps, published,
                      beforeDoc, Target(doc, after, options), history);
      assert Last(history) in history;
      SameStatesAsLists(Last(history).list, after);
    }
  }

  method Replace(server: Server, doc: Json)
    requires server.history != []
    modifies server`history
    ensures server.history == Appended(old(server.history), FromDoc(doc))
  {
    var next := FromDoc(doc);
    var now := server.history[|server.history| - 1];
    if next.list != now.list || next.rest != now.rest {
      server.history := server.history + [next];
    }
  }

  /** A patch request to the main endpoint. */
  method SendMain(server: Server, patch: Json, fault: WriteFault)
    requires server.history != [] && Sound(server.history) && patch.Obj?
    modifies server
    ensures server.requests == old(server.requests) + [MainRequest(patch)]
    ensures var h := old(server.history);
            server.history ==
            if fault == Rejected then h else Appended(h, Version(Last(h).list, MainWrite(Last(h).rest, patch), None))
  {
    server.requests := server.requests + [MainRequest(patch)];
    if fault != Rejected {
      var now := server.history[|server.history| - 1];
      assert now in server.history;
      DocRoundTrip(now);
      MainWriteKeepsStatus(now, patch);
      Replace(server, MainWrite(ToDoc(now), patch));
    }
  }

  /** A patch request to the status endpoint. */
  method SendStatus(server: Server, patch: Json, fault: WriteFault)
    requires server.history != [] && Sound(server.history) && SparesConditions(patch)
    modifies server
    ensures server.requests == old(server.requests) + [StatusRequest(patch)]
    ensures var h := old(server.history);
            server.history ==
            if fault == Rejected then h else Appended(h, Version(Last(h).list, StatusWrite(Last(h).rest, patch), None))
  {
    server.requests := server.requests + [StatusRequest(patch)];
    if fault != Rejected {
      var now := server.history[|server.history| - 1];
      assert now in server.history;
      DocRoundTrip(now);
      StatusWriteKeepsConditions(now, patch);
      Replace(server, StatusWrite(ToDoc(now), patch));
    }
  }

  /** The patch helper: the object as it was, typed and as a map, and what has changed since. */
  class Helper {
    const beforeConditions: seq<Condition>
    const beforeDoc: Json
    const before: Unstructured
    var after: Unstructured
    var changes: set<string>

    ghost predicate Valid()
      reads this, before, before.status, after, after.status
    {
      && before != after && (before.status != null ==> before.status != after.status)
      && before.Valid() && after.Valid()
      && Strip(before.Content()) == Strip(beforeDoc)
    }

    /** Keeps a copy of the object, which later edits of the object do not reach; `doc` is what the object has besides
        its conditions. */
    constructor (obj: Object, doc: Json)
      requires IsObjectDoc(doc)
      ensures Valid() && beforeDoc == Carrying(doc, obj.conditions) && beforeConditions == obj.conditions
      ensures IsObjectDoc(beforeDoc) && ConditionsOf(beforeDoc) == beforeConditions
      ensures fresh(before) && fresh(after) && (before.status != null ==> fresh(before.status))
      ensures before.Content() == beforeDoc
    {
      CarryingIsObjectDoc(doc, obj.conditions);
      beforeConditions, beforeDoc := obj.conditions, Carrying(doc, obj.conditions);
      before := new Unstructured(Carrying(doc, obj.conditions));
      after := new Unstructured.Empty();
      changes := {};
    }

    /** The top-level fields that have changed, read off the merge patch. */
    method CalculateChanges(doc: Json)
      requires beforeDoc.Obj? && doc.Obj?
      modifies this`changes
      ensures changes == DifferingFields(beforeDoc, doc)
    {
      var patchDiff := Delta(beforeDoc, doc).fields;
      DeltaHasDifferingFields(beforeDoc, doc);
      var keys := patchDiff.Keys;
      changes := {};
      while keys != {}
        invariant changes + keys == patchDiff.Keys
        decreases |keys|
      {
        var key :| key in keys;
        MoveOne(keys, changes, key);
        changes, keys := changes + {key}, keys - {key};
      }
      assert changes + keys == changes;
    }

    /** The merge patch for one of the two writes, from focused copies of before and after. The copies share
        the inner maps of `before` and `after`: the status focus takes the conditions out of both. */
    method CalculatePatch(focus: Focus, ghost doc: Json) returns (patch: Json)
      requires Valid() && IsObjectDoc(beforeDoc) && IsObjectDoc(doc) && Strip(after.Content()) == Strip(doc)
      modifies before.status, after.status
      ensures Valid() && Strip(after.Content()) == Strip(doc)
      ensures patch == DeltaOf(beforeDoc, doc, focus)
    {
      ghost var a, b := before.Content(), after.Content();
      PayloadIgnoresConditions(a, beforeDoc, focus);
      PayloadIgnoresConditions(b, doc, focus);
      var beforeCopy := UnsafeUnstructuredCopy(before, focus, true);
      ghost var beforePayload := beforeCopy.Content();
      assert after.Content() == b;
      var afterCopy := UnsafeUnstructuredCopy(after, focus, true);
      assert beforeCopy.Content() == beforePayload;
      StripTwice(a);
      StripTwice(b);
      patch := Delta(beforeCopy.Content(), afterCopy.Content());
    }

    /** Issues the patch for metadata and spec, if they have changed. */
    method PatchMain(server: Server, fault: WriteFault, ghost doc: Json) returns (error: bool)
      requires Valid() && IsObjectDoc(beforeDoc) && IsObjectDoc(doc) && Strip(after.Content()) == Strip(doc)
      requires changes == DifferingFields(beforeDoc, doc)
      requires server.history != [] && Sound(server.history)
      modifies server, before.status, after.status
      ensures Valid() && Strip(after.Content()) == Strip(doc)
      ensures error == (NeedsMain(changes) && fault != NoFault)
      ensures server.requests ==
              old(server.requests) + if NeedsMain(changes) then [MainRequest(DeltaOf(beforeDoc, doc, SpecFocus))] else []
      ensures server.history == WithMain(old(server.history), fault, beforeDoc, doc)
    {
      if !NeedsMain(changes) {
        return false;
      }
      var patch := CalculatePatch(SpecFocus, doc);
      SendMain(server, patch, fault);
      error := fault != NoFault;
    }

    /** Issues the patch for the status, if it has changed. */
    method PatchStatus(server: Server, fault: WriteFault, ghost doc: Json) returns (error: bool)
      requires Valid() && IsObjectDoc(beforeDoc) && IsObjectDoc(doc) && Strip(after.Content()) == Strip(doc)
      requires changes == DifferingFields(beforeDoc, doc)
      requires server.history != [] && Sound(server.history)
      modifies server, before.status, after.status
      ensures Valid()
      ensures error == ("status" in changes && fault != NoFault)
      ensures server.requests ==
              old(server.requests) + if "status" in changes then [StatusRequest(DeltaOf(beforeDoc, doc, StatusFocus))] else []
      ensures server.history == WithStatus(old(server.history), fault, beforeDoc, doc)
    {
      if "status" !in changes {
        return false;
      }
      var patch := CalculatePatch(StatusFocus, doc);
      StatusDeltaSparesConditions(beforeDoc, doc);
      SendStatus(server, patch, fault);
      error := fault != NoFault;
    }

    /** The two writes after the conditions, with what comes in between. */
    method PatchTheRest(server: Server, later: Later, ghost doc: Json) returns (mainError: bool, statusError: bool)
      requires Valid() && IsObjectDoc(beforeDoc) && IsObjectDoc(doc) && Strip(after.Content()) == Strip(doc)
      requires changes == DifferingFields(beforeDoc, doc)
      requires server.history != [] && Sound(server.history) && Sound(later.gapMain) && Sound(later.gapStatus)
      modifies server, before.status, after.status
      ensures mainError == (NeedsMain(changes) && later.main != NoFault)
      ensures statusError == ("status" in changes && later.status != NoFault)
      ensures server.requests == old(server.requests) + RestRequests(beforeDoc, doc)
      ensures server.history == WithRest(old(server.history), later, beforeDoc, doc) && Sound(server.history)
      ensures old(server.history) <= server.history
    {
      server.Interfere(later.gapMain);
      MainWriteIsSound(server.history, later.main, beforeDoc, doc);
      mainError := PatchMain(server, later.main, doc);
      server.Interfere(later.gapStatus);
      StatusWriteIsSound(server.history, later.status, beforeDoc, doc);
      statusError := PatchStatus(server, later.status, doc);
      WithRestExtends(old(server.history), later, beforeDoc, doc);
    }

    /** Converts the object and, if asked to, has its status say which generation has been observed. */
    method SetAfter(obj: Object, doc: Json, options: HelperOptions)
      requires Valid() && IsObjectDoc(doc)
      modifies `after
      ensures Valid() && fresh(after) && (after.status != null ==> fresh(after.status))
      ensures after.Content() == Target(doc, obj.conditions, options)
    {
      CarryingIsObjectDoc(doc, obj.conditions);
      after := new Unstructured(Carrying(doc, obj.conditions));
      if options.includeObservedGeneration {
        after.ObserveGeneration();
      }
    }

    /** Assigns the two fields: what the object is now, and what has changed. */
    method Prepare(obj: Object, doc: Json, options: HelperOptions)
      requires Valid() && IsObjectDoc(beforeDoc) && IsObjectDoc(doc)
      modifies `after, `changes
      ensures Valid() && fresh(after) && (after.status != null ==> fresh(after.status))
      ensures after.Content() == Target(doc, obj.conditions, options)
      ensures changes == DifferingFields(beforeDoc, Target(doc, obj.conditions, options))
    {
      TargetIsObjectDoc(doc, obj.conditions, options);
      SetAfter(obj, doc, options);
      CalculateChanges(Target(doc, obj.conditions, options));
    }

    /** The first part of the call, with what the second needs. */
    method PatchConditions(obj: Object, doc: Json, server: Server, options: HelperOptions, turns: seq<Turn>)
      returns (ending: Option<Ending>, ghost ws: seq<World>, ghost steps: seq<Step>)
      requires Valid() && IsObjectDoc(beforeDoc) && IsObjectDoc(doc)
      requires server.history != [] && Sound(server.history)
      requires Unique(beforeConditions) && Unique(obj.conditions)
      requires |turns| == MAX_ATTEMPTS && forall turn | turn in turns :: Fair(turn)
      modifies this, server`history
      ensures Valid() && fresh(after) && (after.status != null ==> fresh(after.status))
      ensures after.Content() == Target(doc, obj.conditions, options)
      ensures changes == DifferingFields(beforeDoc, Target(doc, obj.conditions, options))
      ensures IsPublication(old(server.history), beforeConditions, obj.conditions, options.conditions, turns,
                            ending, ws, steps, server.history)
    {
      Prepare(obj, doc, options);
      var beforeObject := new Object(beforeConditions);
      ending, ws, steps := PatchStatusConditions(server, beforeObject, obj, options.conditions, turns);
    }

    /** Both parts. The conditions are published first; whatever comes of that, the other two writes are attempted on
        what the server holds then. */
    method PatchBoth(obj: Object, doc: Json, server: Server, options: HelperOptions, turns: seq<Turn>, later: Later)
      returns (errors: Errors, ghost ws: seq<World>, ghost steps: seq<Step>, ghost published: seq<Version>)
      requires Valid() && IsObjectDoc(beforeDoc) && IsObjectDoc(doc)
      requires server.history != [] && Sound(server.history)
      requires Unique(beforeConditions) && Unique(obj.conditions)
      requires |turns| == MAX_ATTEMPTS && forall turn | turn in turns :: Fair(turn)
      requires Sound(later.gapMain) && Sound(later.gapStatus)
      modifies this, server, before.status
      ensures IsPublication(old(server.history), beforeConditions, obj.conditions, options.conditions, turns,
                            errors.conditions, ws, steps, published)
      ensures IsRest(published, later, beforeDoc, Target(doc, obj.conditions, options), errors, server.history)
      ensures server.requests == old(server.requests) + RestRequests(beforeDoc, Target(doc, obj.conditions, options))
      ensures published <= server.history && Sound(server.history)
    {
      TargetIsObjectDoc(doc, obj.conditions, options);
      var ending;
      ending, ws, steps := PatchConditions(obj, doc, server, options, turns);
      published := server.history;
      var mainError, statusError := PatchTheRest(server, later, Target(doc, obj.conditions, options));
      errors := Errors(ending, mainError, statusError);
    }

    /** The whole call. In calm surroundings, from the version the helper was made for, it succeeds and the server ends
        up with the target; and the server's lists stay sorted if everybody else keeps them so. */
    method Patch(obj: Object, doc: Json, server: Server, options: HelperOptions, turns: seq<Turn>, later: Later)
      returns (errors: Errors, ghost ws: seq<World>, ghost steps: seq<Step>, ghost published: seq<Version>)
      requires Valid() && IsObjectDoc(beforeDoc) && IsObjectDoc(doc)
      requires server.history != [] && Sound(server.history)
      requires Unique(beforeConditions) && Unique(obj.conditions)
      requires |turns| == MAX_ATTEMPTS && forall turn | turn in turns :: Fair(turn)
      requires Sound(later.gapMain) && Sound(later.gapStatus)
      modifies this, server, before.status
      ensures IsPublication(old(server.history), beforeConditions, obj.conditions, options.conditions, turns,
                            errors.conditions, ws, steps, published)
      ensures IsRest(published, later, beforeDoc, Target(doc, obj.conditions, options), errors, server.history)
      ensures server.requests == old(server.requests) + RestRequests(beforeDoc, Target(doc, obj.conditions, options))
      ensures published <= server.history && Sound(server.history)
      ensures IsCalm(turns, later) && IsVersionOf(Last(old(server.history)), beforeConditions, beforeDoc)
              && SameKind(beforeDoc, doc) ==>
                Succeeds(old(server.history), beforeConditions, obj.conditions, doc, options, errors, server.history)
      ensures Sorted(old(server.history)) && SortedSurroundings(turns, later) ==> Sorted(server.history)
    {
      ghost var first := server.history;
      errors, ws, steps, published := PatchBoth(obj, doc, server, options, turns, later);
      if IsCalm(turns, later) && IsVersionOf(Last(first), beforeConditions, beforeDoc) && SameKind(beforeDoc, doc) {
        CalmPatchSucceeds(first, beforeConditions, obj.conditions, beforeDoc, doc, options, turns, later,
                          errors, ws, steps, published, server.history);
      }
      if Sorted(first) && SortedSurroundings(turns, later) {
        CallStaysSorted(first, beforeConditions, obj.conditions, options.conditions, turns, later, errors, ws, steps,
                        published, beforeDoc, Target(doc, obj.conditions, options), server.history);
      }
    }
  }
}
