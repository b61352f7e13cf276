/** JSON documents, merge patches (section 2 of RFC 7396) and the diff that produces them. */
module Json {
  import opened Api

  /** A condition list is kept as one leaf: a merge patch replaces lists whole. */
  datatype Json =
    | Null
    | Scalar(text: string)
    | List(items: seq<Json>)
    | Conditions(list: seq<Condition>)
    | Obj(fields: map<string, Json>)

  const EMPTY := Obj(map[])

  /** A missing member counts as null, which is not an object. */
  function Member(j: Json, k: string): Json {
    if j.Obj? && k in j.fields then j.fields[k] else Null
  }

  function ApplyPatch(target: Json, patch: Json): Json
    decreases patch
  {
    match patch
    case Obj(p) =>
      var t := if target.Obj? then target.fields else map[];
      Obj(map k | k in t.Keys + p.Keys && (k in p ==> p[k] != Null) ::
            if k in p then ApplyPatch(Member(target, k), p[k]) else t[k])
    case _ => patch
  }

  predicate NullFree(j: Json) {
    match j
    case Null => false
    case Obj(f) => forall k | k in f :: NullFree(f[k])
    case _ => true
  }

  /** The merge patch from one object to another: new and changed members, nested objects member by member,
      null for members that are gone. */
  function Delta(a: Json, b: Json): Json
    requires a.Obj? && b.Obj?
    ensures Delta(a, b).Obj?
    decreases a
  {
    Obj(map k | k in a.fields.Keys + b.fields.Keys && Differs(a, b, k) ::
          if k !in b.fields then Null
          else if k in a.fields && a.fields[k].Obj? && b.fields[k].Obj? then Delta(a.fields[k], b.fields[k])
          else b.fields[k])
  }

  predicate Differs(a: Json, b: Json, k: string)
    requires a.Obj? && b.Obj? && k in a.fields.Keys + b.fields.Keys
    decreases a, 0
  {
    if k in a.fields && k in b.fields then
      if a.fields[k].Obj? && b.fields[k].Obj? then Delta(a.fields[k], b.fields[k]) != EMPTY
      else a.fields[k] != b.fields[k]
    else true
  }

  /** A document with a status object, kept without its conditions; a missing status counts as an empty one. */
  predicate ProperRest(j: Json) {
    Member(j, "status").Obj? && "conditions" !in Member(j, "status").fields
  }

  lemma {:induction false} EmptyDeltaMeansEqual(a: Json, b: Json)
    requires a.Obj? && b.Obj?
    ensures Delta(a, b) == EMPTY <==> a == b
    decreases a
  {
    forall k | k in a.fields && k in b.fields && a.fields[k].Obj? && b.fields[k].Obj?
      ensures Delta(a.fields[k], b.fields[k]) == EMPTY <==> a.fields[k] == b.fields[k]
    {
      EmptyDeltaMeansEqual(a.fields[k], b.fields[k]);
    }
    if Delta(a, b) == EMPTY {
      forall k | k in a.fields.Keys + b.fields.Keys ensures k in a.fields && k in b.fields && a.fields[k] == b.fields[k] {
        assert k !in Delta(a, b).fields;
      }
      assert a.fields == b.fields;
    }
  }

  /** Where there is no object to merge into, a patch without nulls is the result. */
  lemma {:induction false} MergeIntoNothing(target: Json, patch: Json)
    requires !target.Obj? && NullFree(patch)
    ensures ApplyPatch(target, patch) == patch
    decreases patch
  {
    if patch.Obj? {
      forall k | k in patch.fields ensures ApplyPatch(Member(target, k), patch.fields[k]) == patch.fields[k] {
        MergeIntoNothing(Member(target, k), patch.fields[k]);
      }
      assert ApplyPatch(target, patch).fields == patch.fields;
    }
  }

  /** Diffing and patching are inverse: for documents without nulls the patch takes one to the other. */
  lemma {:induction false} DeltaRoundTrip(a: Json, b: Json)
    requires a.Obj? && b.Obj? && NullFree(b)
    ensures ApplyPatch(a, Delta(a, b)) == b
    decreases a
  {
    var d, r := Delta(a, b), ApplyPatch(a, Delta(a, b));
    forall k ensures k in r.fields <==> k in b.fields
             ensures k in r.fields && k in b.fields ==> r.fields[k] == b.fields[k]
    {
      DeltaRoundTripAt(a, b, k);
    }
    assert r.fields == b.fields;
  }

  lemma {:induction false} DeltaRoundTripAt(a: Json, b: Json, k: string)
    requires a.Obj? && b.Obj? && NullFree(b)
    ensures k in ApplyPatch(a, Delta(a, b)).fields <==> k in b.fields
    ensures k in b.fields ==> ApplyPatch(a, Delta(a, b)).fields[k] == b.fields[k]
    decreases a, 0
  {
    if k in b.fields {
      if k in a.fields && a.fields[k].Obj? && b.fields[k].Obj? {
        EmptyDeltaMeansEqual(a.fields[k], b.fields[k]);
        DeltaRoundTrip(a.fields[k], b.fields[k]);
      } else if k !in a.fields || !a.fields[k].Obj? {
        MergeIntoNothing(Member(a, k), b.fields[k]);
      }
    }
  }

  type Path = seq<string>

  function Get(j: Json, path: Path): Option<Json> {
    if path == [] then Some(j)
    else if j.Obj? && path[0] in j.fields then Get(j.fields[path[0]], path[1..])
    else None
  }

  /** Both documents have objects all the way down to the last step of the path. */
  predicate SharedSpine(a: Json, b: Json, path: Path) {
    if |path| <= 1 then true
    else
      var k := path[0];
      && a.Obj? && b.Obj? && k in a.fields && k in b.fields
      && a.fields[k].Obj? && b.fields[k].Obj?
      && SharedSpine(a.fields[k], b.fields[k], path[1..])
  }

  /** Patching without a lock loses nobody else's update: what the two documents agree on stays as it is on the
      server, whatever the server has become. */
  lemma {:induction false} AgreedPathsAreKept(server: Json, a: Json, b: Json, path: Path)
    requires a.Obj? && b.Obj? && path != [] && SharedSpine(a, b, path)
    requires Get(a, path) == Get(b, path)
    ensures Get(ApplyPatch(server, Delta(a, b)), path) == Get(server, path)
    decreases |path|
  {
    var k, rest := path[0], path[1..];
    var d := Delta(a, b);
    if |path| == 1 {
      assert rest == [];
      assert Get(a, path) == (if k in a.fields then Some(a.fields[k]) else None);
      assert Get(b, path) == (if k in b.fields then Some(b.fields[k]) else None);
      if k in a.fields && a.fields[k].Obj? {
        EmptyDeltaMeansEqual(a.fields[k], b.fields[k]);
      }
      assert k in a.fields ==> k in b.fields && !Differs(a, b, k);
      assert k !in d.fields;
      assert Get(ApplyPatch(server, d), path) == Get(server, path);
    } else if k in d.fields {
      AgreedPathsAreKept(Member(server, k), a.fields[k], b.fields[k], rest);
      assert ApplyPatch(server, d).fields[k] == ApplyPatch(Member(server, k), Delta(a.fields[k], b.fields[k]));
    }
  }

  /** And what they disagree on, down to members that are not objects, becomes as in the second document. */
  lemma {:induction false} ChangedPathsAreWritten(server: Json, a: Json, b: Json, path: Path)
    requires a.Obj? && b.Obj? && path != [] && SharedSpine(a, b, path)
    requires Get(a, path) != Get(b, path)
    requires Get(b, path).Some? ==> !Get(b, path).value.Obj? && Get(b, path).value != Null
    ensures Get(ApplyPatch(server, Delta(a, b)), path) == Get(b, path)
    decreases |path|
  {
    var k, rest := path[0], path[1..];
    if |path| == 1 {
      assert rest == [];
      assert Get(a, path) == (if k in a.fields then Some(a.fields[k]) else None);
      assert Get(b, path) == (if k in b.fields then Some(b.fields[k]) else None);
      assert k in a.fields.Keys + b.fields.Keys && Differs(a, b, k);
    } else {
      assert a.fields[k] != b.fields[k];
      EmptyDeltaMeansEqual(a.fields[k], b.fields[k]);
      ChangedPathsAreWritten(Member(server, k), a.fields[k], b.fields[k], rest);
      assert Differs(a, b, k) && Delta(a, b).fields[k] == Delta(a.fields[k], b.fields[k]);
      assert ApplyPatch(server, Delta(a, b)).fields[k] == ApplyPatch(Member(server, k), Delta(a.fields[k], b.fields[k]));
    }
  }
}
