/** Objects as maps that share inner maps, and the focused copies the patch helper takes of them. */
module Payloads {
  import opened Api
  import opened Json

  datatype Focus = SpecFocus | StatusFocus {
    function Key(): string {
      if SpecFocus? then "spec" else "status"
    }
  }

  predicate Preserved(key: string) {
    key in {"kind", "apiVersion", "metadata"}
  }

  predicate Kept(key: string, focus: Focus) {
    key == focus.Key() || Preserved(key)
  }

  /** A document without status.conditions. */
  function Strip(doc: Json): Json {
    if Member(doc, "status").Obj?
    then Obj(doc.fields["status" := Obj(doc.fields["status"].fields - {"conditions"})])
    else doc
  }

  predicate Strips(focus: Focus, isConditionsSetter: bool) {
    isConditionsSetter && focus == StatusFocus
  }

  function Restrict(fields: map<string, Json>, focus: Focus): map<string, Json> {
    map k | k in fields && Kept(k, focus) :: fields[k]
  }

  /** What a focused copy is meant to carry. */
  function Payload(doc: Json, focus: Focus, isConditionsSetter: bool): Json
    requires doc.Obj?
  {
    Obj(Restrict((if Strips(focus, isConditionsSetter) then Strip(doc) else doc).fields, focus))
  }

  /** metadata.generation, which is 0 if it is missing. */
  function GenerationOf(doc: Json): Json {
    var generation := Member(Member(doc, "metadata"), "generation");
    if generation.Scalar? then generation else Scalar("0")
  }

  /** A document whose status says that this generation has been observed. */
  function Observed(doc: Json): Json {
    if Member(doc, "status").Obj?
    then Obj(doc.fields["status" := Obj(doc.fields["status"].fields["observedGeneration" := GenerationOf(doc)])])
    else doc
  }

  /** Neither path leads to the other. */
  predicate Apart(p: Path, q: Path) {
    !(p <= q) && !(q <= p)
  }

  /** Documents that differ in one status field differ on the paths to and below that field only. */
  lemma {:induction false} OneStatusFieldDiffers(doc: Json, doc': Json, key: string, p: Path)
    requires Member(doc, "status").Obj? && Member(doc', "status").Obj?
    requires doc.fields - {"status"} == doc'.fields - {"status"}
    requires doc.fields["status"].fields - {key} == doc'.fields["status"].fields - {key}
    requires Apart(p, ["status", key])
    ensures Get(doc', p) == Get(doc, p)
  {
    var f, f' := doc.fields - {"status"}, doc'.fields - {"status"};
    if p[0] != "status" {
      assert p[0] in doc.fields <==> p[0] in f;
      assert p[0] in doc'.fields <==> p[0] in f';
      assert p[0] in f ==> doc.fields[p[0]] == f[p[0]] && doc'.fields[p[0]] == f'[p[0]];
    } else {
      assert |p| > 1 by {
        assert |p| == 1 ==> p <= ["status", key];
      }
      assert p[1] != key by {
        assert p[1] == key ==> ["status", key] <= p;
      }
      var g, g' := doc.fields["status"].fields, doc'.fields["status"].fields;
      var rest, rest' := g - {key}, g' - {key};
      assert p[1] in g <==> p[1] in rest;
      assert p[1] in g' <==> p[1] in rest';
      assert p[1] in rest ==> g[p[1]] == rest[p[1]] && g'[p[1]] == rest'[p[1]];
      assert Get(doc, p) == Get(doc.fields["status"], p[1..]) && Get(doc', p) == Get(doc'.fields["status"], p[1..]);
      assert p[1..][0] == p[1] && p[1..][1..] == p[2..];
    }
  }

  lemma {:induction false} GetTwo(doc: Json, k: string, l: string)
    ensures Get(doc, [k, l]) == if doc.Obj? && k in doc.fields && doc.fields[k].Obj? && l in doc.fields[k].fields
                                then Some(doc.fields[k].fields[l]) else None
  {
    assert [k, l][1..] == [l] && [l][1..] == [];
    assert forall j: Json :: Get(j, []) == Some(j);
  }

  /** What should be observed: metadata.generation, or 0 if there is none. */
  function GenerationToObserve(doc: Json): Json {
    match Get(doc, ["metadata", "generation"])
    case Some(Scalar(text)) => Scalar(text)
    case _ => Scalar("0")
  }

  /** Observing puts metadata.generation into status.observedGeneration. */
  lemma {:induction false} ObservedIsGeneration(doc: Json)
    requires Member(doc, "status").Obj?
    ensures Get(Observed(doc), ["status", "observedGeneration"]) == Some(GenerationToObserve(doc))
  {
    GetTwo(doc, "metadata", "generation");
    GetTwo(Observed(doc), "status", "observedGeneration");
  }

  /** And it leaves every other path alone. */
  lemma {:induction false} ObservingChangesNothingElse(doc: Json, p: Path)
    requires Member(doc, "status").Obj? && Apart(p, ["status", "observedGeneration"])
    ensures Get(Observed(doc), p) == Get(doc, p)
  {
    var doc' := Observed(doc);
    assert doc'.fields - {"status"} == doc.fields - {"status"};
    assert doc'.fields["status"].fields - {"observedGeneration"} == doc.fields["status"].fields - {"observedGeneration"};
    OneStatusFieldDiffers(doc, doc', "observedGeneration", p);
  }

  /** Leaving the conditions out leaves every other path alone. */
  lemma {:induction false} StrippingChangesNothingElse(doc: Json, p: Path)
    requires Member(doc, "status").Obj? && Apart(p, ["status", "conditions"])
    ensures Get(Strip(doc), p) == Get(doc, p)
  {
    var doc' := Strip(doc);
    assert doc'.fields - {"status"} == doc.fields - {"status"};
    assert doc'.fields["status"].fields - {"conditions"} == doc.fields["status"].fields - {"conditions"};
    OneStatusFieldDiffers(doc, doc', "conditions", p);
  }

  /** An inner map, shared by every object that refers to it. */
  class Node {
    var entries: map<string, Json>

    constructor (entries: map<string, Json>)
      ensures this.entries == entries
    {
      this.entries := entries;
    }
  }

  /** An object as a map of fields. The inner map of its status has an identity of its own, because it is the
      one that is edited through a copy; the other fields are never written through. */
  class Unstructured {
    var plain: map<string, Json>
    var status: Node?

    ghost predicate Valid()
      reads this
    {
      if status == null then "status" in plain ==> !plain["status"].Obj? else "status" !in plain
    }

    /** The document the object spells out. */
    function Content(): Json
      reads this, status
    {
      if status == null then Obj(plain) else Obj(plain["status" := Obj(status.entries)])
    }

    /** Converts a document: a fresh map with a fresh inner map. */
    constructor (doc: Json)
      requires doc.Obj?
      ensures Valid() && Content() == doc && (status != null ==> fresh(status))
    {
      if Member(doc, "status").Obj? {
        plain := doc.fields - {"status"};
        status := new Node(doc.fields["status"].fields);
      } else {
        plain := doc.fields;
        status := null;
      }
      new;
      assert Content().fields == doc.fields;
    }

    constructor Empty()
      ensures plain == map[] && status == null
    {
      plain, status := map[], null;
    }

    /** Sets the nested field status.observedGeneration, if there is a status. */
    method ObserveGeneration()
      requires Valid()
      modifies status
      ensures Valid() && Content() == Observed(old(Content()))
    {
      if status != null {
        var generation := GenerationOf(Obj(plain));
        assert Member(Content(), "metadata") == Member(Obj(plain), "metadata");
        status.entries := status.entries["observedGeneration" := generation];
        assert plain["status" := Obj(status.entries)]
               == plain["status" := Obj(old(status.entries))]["status" := Obj(status.entries)];
      }
    }

    /** Removes the nested field status.conditions, wherever the inner map is shared. */
    method RemoveConditions()
      modifies status
      ensures status != null ==> status.entries == old(status.entries) - {"conditions"}
    {
      if status != null {
        status.entries := status.entries - {"conditions"};
      }
    }
  }

  /** The inner map that a copy with this focus edits. */
  ghost function Edited(obj: Unstructured, focus: Focus, isConditionsSetter: bool): set<Node>
    reads obj
  {
    if Strips(focus, isConditionsSetter) && obj.status != null then {obj.status} else {}
  }

  lemma {:induction false} PayloadOfParts(
    plain: map<string, Json>, entries: map<string, Json>, focus: Focus, setter: bool)
    requires "status" !in plain
    ensures var doc := Obj(plain["status" := Obj(entries)]);
            var edited := if Strips(focus, setter) then entries - {"conditions"} else entries;
            Payload(doc, focus, setter) ==
            if focus == StatusFocus then Obj(Restrict(plain, focus)["status" := Obj(edited)]) else Obj(Restrict(plain, focus))
  {
    var doc := Obj(plain["status" := Obj(entries)]);
    assert doc.fields["status"] == Obj(entries);
    if focus == StatusFocus {
      var edited := if Strips(focus, setter) then entries - {"conditions"} else entries;
      assert Payload(doc, focus, setter).fields == Restrict(plain, focus)["status" := Obj(edited)];
    } else {
      assert Payload(doc, focus, setter).fields == Restrict(plain, focus);
    }
  }

  /** The kept fields among those visited so far. */
  function Copied(plain: map<string, Json>, done: set<string>, focus: Focus): map<string, Json> {
    map k | k in plain && k in done && Kept(k, focus) :: plain[k]
  }

  ghost function KeysOf(obj: Unstructured): set<string>
    reads obj
  {
    obj.plain.Keys + if obj.status != null then {"status"} else {}
  }

  /** The fields visited are shared, and so is the inner map of status once it has been visited. */
  ghost predicate Shared(obj: Unstructured, res: Unstructured, done: set<string>, focus: Focus)
    reads obj, res
  {
    && res.plain == Copied(obj.plain, done, focus)
    && res.status == (if focus == StatusFocus && "status" in done then obj.status else null)
  }

  /** How far the copy has come: the fields visited are shared, and once status has been visited its inner map,
      which held `entries`, has lost the conditions if it has to. */
  ghost predicate Progress(
    obj: Unstructured, res: Unstructured, done: set<string>, entries: map<string, Json>, focus: Focus, setter: bool)
    reads obj, res, obj.status
  {
    && Shared(obj, res, done, focus)
    && (obj.status != null ==>
          obj.status.entries == if Strips(focus, setter) && "status" in done then entries - {"conditions"} else entries)
  }

  /** The copying part of one turn. */
  method CopyField(obj: Unstructured, res: Unstructured, key: string, focus: Focus, ghost done: set<string>)
    requires obj != res && obj.Valid() && key in KeysOf(obj) && Shared(obj, res, done, focus)
    modifies res
    ensures Shared(obj, res, done + {key}, focus)
  {
    if key == focus.Key() || Preserved(key) {
      if key == "status" && obj.status != null {
        res.status := obj.status;
      } else {
        res.plain := res.plain[key := obj.plain[key]];
      }
    }
  }

  /** One turn of the loop over the keys. */
  method CopyKey(
    obj: Unstructured, res: Unstructured, key: string, focus: Focus, isConditionsSetter: bool,
    ghost done: set<string>, ghost entries: map<string, Json>)
    requires obj != res && obj.Valid() && key in KeysOf(obj)
    requires Progress(obj, res, done, entries, focus, isConditionsSetter)
    modifies res, Edited(obj, focus, isConditionsSetter)
    ensures obj.status == old(obj.status) && obj.plain == old(obj.plain)
    ensures Progress(obj, res, done + {key}, entries, focus, isConditionsSetter)
  {
    CopyField(obj, res, key, focus, done);
    if isConditionsSetter && focus == StatusFocus {
      res.RemoveConditions();
    }
  }

  lemma {:induction false} MoveOne<T>(a: set<T>, b: set<T>, x: T)
    requires x in a
    ensures (a - {x}) + (b + {x}) == a + b
  {}

  /** The loop of the copy, over the keys in any order. */
  method CopyKeys(obj: Unstructured, res: Unstructured, focus: Focus, isConditionsSetter: bool)
    requires obj != res && obj.Valid() && res.plain == map[] && res.status == null
    modifies res, Edited(obj, focus, isConditionsSetter)
    ensures obj.status == old(obj.status) && obj.plain == old(obj.plain)
    ensures Progress(obj, res, KeysOf(obj), if obj.status == null then map[] else old(obj.status.entries),
                     focus, isConditionsSetter)
  {
    ghost var entries := if obj.status == null then map[] else obj.status.entries;
    var keys := obj.plain.Keys + if obj.status != null then {"status"} else {};
    ghost var done: set<string> := {};
    assert res.plain == Copied(obj.plain, done, focus);
    while keys != {}
      invariant keys + done == KeysOf(obj)
      invariant obj.status == old(obj.status) && obj.plain == old(obj.plain)
      invariant Progress(obj, res, done, entries, focus, isConditionsSetter)
      decreases |keys|
    {
      var key :| key in keys;
      CopyKey(obj, res, key, focus, isConditionsSetter, done, entries);
      MoveOne(keys, done, key);
      keys, done := keys - {key}, done + {key};
    }
    assert keys + done == done;
  }

  /** The shallow copy. It carries the payload, but shares the inner map of status with the original: taking the
      status copy removes status.conditions from the original too, and nothing else. */
  method UnsafeUnstructuredCopy(obj: Unstructured, focus: Focus, isConditionsSetter: bool) returns (res: Unstructured)
    requires obj.Valid()
    modifies Edited(obj, focus, isConditionsSetter)
    ensures fresh(res) && obj.Valid()
    ensures res.status == if focus == StatusFocus then obj.status else null
    ensures res.Content() == Payload(old(obj.Content()), focus, isConditionsSetter)
    ensures obj.Content() ==
            if Strips(focus, isConditionsSetter) then Strip(old(obj.Content())) else old(obj.Content())
  {
    res := new Unstructured.Empty();
    ghost var entries := if obj.status == null then map[] else obj.status.entries;
    CopyKeys(obj, res, focus, isConditionsSetter);
    assert Copied(obj.plain, KeysOf(obj), focus) == Restrict(obj.plain, focus);
    if obj.status != null {
      PayloadOfParts(obj.plain, entries, focus, isConditionsSetter);
    }
  }

  lemma {:induction false} PayloadIgnoresConditions(doc: Json, doc': Json, focus: Focus)
    requires doc.Obj? && doc'.Obj? && Strip(doc) == Strip(doc')
    ensures Payload(doc, focus, true) == Payload(doc', focus, true)
  {
    if focus == SpecFocus {
      forall k ensures k in doc.fields && k != "status" <==> k in doc'.fields && k != "status"
               ensures k in doc.fields && k != "status" ==> doc.fields[k] == doc'.fields[k]
      {
        assert k in Strip(doc).fields <==> k in Strip(doc').fields;
      }
      assert Payload(doc, focus, true).fields == Payload(doc', focus, true).fields;
    }
  }

  /** A payload carries the common fields and its own, the status without its conditions, and nothing else. */
  lemma {:induction false} PayloadCarriesItsFocus(doc: Json, k: string, p: Path)
    requires doc.Obj?
    ensures Get(Payload(doc, SpecFocus, true), [k]) ==
            if k in {"kind", "apiVersion", "metadata", "spec"} then Get(doc, [k]) else None
    ensures k != "status" ==>
              Get(Payload(doc, StatusFocus, true), [k]) ==
              if k in {"kind", "apiVersion", "metadata"} then Get(doc, [k]) else None
    ensures Member(doc, "status").Obj? && p != [] && p[0] == "status" && Apart(p, ["status", "conditions"]) ==>
              Get(Payload(doc, StatusFocus, true), p) == Get(doc, p)
  {
    var spec, status := Payload(doc, SpecFocus, true), Payload(doc, StatusFocus, true);
    assert [k][1..] == [];
    assert forall j: Json | j.Obj? :: Get(j, [k]) == if k in j.fields then Get(j.fields[k], []) else None;
    if Member(doc, "status").Obj? && p != [] && p[0] == "status" && Apart(p, ["status", "conditions"]) {
      StrippingChangesNothingElse(doc, p);
      assert status.fields["status"] == Strip(doc).fields["status"];
    }
  }

  /** Neither payload can touch what belongs to the other: no conditions in the status payload, no status at
      all in the spec payload, no spec in the status payload. */
  lemma {:induction false} PayloadsAreApart(doc: Json, setter: bool)
    requires doc.Obj?
    ensures Get(Payload(doc, StatusFocus, true), ["status", "conditions"]) == None
    ensures Get(Payload(doc, SpecFocus, setter), ["status"]) == None
    ensures Get(Payload(doc, StatusFocus, setter), ["spec"]) == None
  {
    var status := Payload(doc, StatusFocus, true);
    assert ["status", "conditions"][1..] == ["conditions"];
    assert Get(status, ["status", "conditions"]) ==
           if "status" in status.fields then Get(status.fields["status"], ["conditions"]) else None;
  }
}
