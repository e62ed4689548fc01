/**
  Where the aggregate and bulkWrite handlers of server.js apply the normaliser:
  to the `$match` field of every pipeline stage, and to the filter of the first
  write kind of every bulk operation that has one. Both handlers read a list
  from the request body (`|| []`) and rewrite it with `map`.
 */
module Handlers {
  import opened Wrappers
  import opened ObjectIds
  import opened JsonValues
  import opened Normalizer

  /** The TypeErrors the two handlers can throw; their `catch` answers with status 500. */
  datatype TypeError =
    | ReadOfNull(property: string)  // reading a property of null
    | NotAFunction(callee: string)  // calling `map` on a truthy value that is not an array

  datatype Outcome<T> = Ok(value: T) | Thrown(error: TypeError)

  const WriteKinds: seq<string> := ["updateOne", "updateMany", "deleteOne", "deleteMany", "replaceOne"]

  /** The property names the two handlers read. */
  predicate IsHandlerKey(key: string) {
    key == "$match" || key == "filter" || key in WriteKinds
  }

  /**
    The result of reading `v[key]` in JavaScript: an own property, nothing, or
    (for `filter` on an array) the inherited method `Array.prototype.filter`.
   */
  datatype Property = Undefined | Value(v: Json) | ArrayFilterMethod {
    predicate Truthy() {
      match this
      case Undefined => false
      case Value(x) => JsonValues.Truthy(x)
      case ArrayFilterMethod => true
    }
  }

  /**
    `v[key]` for a value that is not null. None of the handler keys is a
    property of Object.prototype, String.prototype, Number.prototype or
    Boolean.prototype; of them, Array.prototype has only `filter`.
   */
  function ReadProperty(v: Json, key: string): (p: Property)
    requires v != Null && IsHandlerKey(key)
    ensures p.Value? <==> v.Obj? && Get(v.entries, key).Some?
    ensures p.Value? ==> Get(v.entries, key) == Some(p.v)
    ensures p.ArrayFilterMethod? <==> v.Arr? && key == "filter"
  {
    match v
    case Obj(es) =>
      (match Get(es, key)
       case Some(x) => Value(x)
       case None => Undefined)
    case Arr(_) => if key == "filter" then ArrayFilterMethod else Undefined
    case _ => Undefined
  }

  /** The value under `key` in `es`, which has it. */
  lemma GetDecoded(es: seq<Entry>, key: string)
    requires Decoded(Obj(es)) && Get(es, key).Some?
    ensures Decoded(Get(es, key).value)
  {
  }

  /** An object's own property is the value of every entry holding its key. */
  lemma ReadEvery(v: Json, key: string)
    requires Decoded(v) && v != Null && IsHandlerKey(key)
    ensures v.Obj? ==> forall i :: 0 <= i < |v.entries| && v.entries[i].key == key ==> ReadProperty(v, key) == Value(v.entries[i].value)
  {
    if v.Obj? {
      GetEvery(v.entries, key);
    }
  }

  /** The `map` callback of the aggregate handler: `if (stage.$match) stage.$match = parseObjectIds(stage.$match)`. */
  function RewriteStage(stage: Json): (r: Outcome<Json>)
    requires Decoded(stage)
    ensures r.Thrown? <==> stage == Null
    ensures r.Ok? && !stage.Obj? ==> r.value == stage
    ensures r.Ok? && stage.Obj? ==>
      r.value.Obj? &&
      Keys(r.value.entries) == Keys(stage.entries) &&
      forall i :: 0 <= i < |stage.entries| ==>
        r.value.entries[i].value ==
          if stage.entries[i].key == "$match" && Truthy(stage.entries[i].value)
          then Normalize(stage.entries[i].value)
          else stage.entries[i].value
  {
    if stage == Null then
      Thrown(ReadOfNull("$match"))
    else
      var match_ := ReadProperty(stage, "$match");
      ReadEvery(stage, "$match");
      if match_.Truthy() then
        var m := match_.v;
        GetDecoded(stage.entries, "$match");
        SetReplaces(stage.entries, "$match", Normalize(m));
        Ok(Obj(Set(stage.entries, "$match", Normalize(m))))
      else
        Ok(stage)
  }

  /**
    The aggregate handler's rewrite: `req.body.pipeline || []`, then every
    stage rewritten in order. `Null` also stands for an absent field, which is
    just as falsy.
   */
  method ParsePipeline(pipeline: Json) returns (r: Outcome<seq<Json>>)
    requires Decoded(pipeline)
    ensures r.Thrown? <==> (Truthy(pipeline) && !pipeline.Arr?) || (pipeline.Arr? && Null in pipeline.items)
    ensures r.Ok? ==>
      var stages := if pipeline.Arr? then pipeline.items else [];
      |r.value| == |stages| &&
      forall i :: 0 <= i < |stages| ==> RewriteStage(stages[i]) == Ok(r.value[i])
  {
    var stages: seq<Json>;
    if !Truthy(pipeline) {
      stages := [];
    } else if pipeline.Arr? {
      stages := pipeline.items;
    } else {
      return Thrown(NotAFunction("pipeline.map"));
    }
    var parsed: seq<Json> := [];
    for i := 0 to |stages|
      invariant |parsed| == i
      invariant Null !in stages[..i]
      invariant forall k :: 0 <= k < i ==> RewriteStage(stages[k]) == Ok(parsed[k])
    {
      var stage := RewriteStage(stages[i]);
      if stage.Thrown? {
        assert stages[i] in stages;
        return Thrown(stage.error);
      }
      assert stages[..i + 1] == stages[..i] + [stages[i]];
      parsed := parsed + [stage.value];
    }
    assert stages[..|stages|] == stages;
    return Ok(parsed);
  }

  /** `op[kind] && op[kind].filter` */
  predicate HasFilter(op: Json, kind: string)
    requires op != Null && kind in WriteKinds
  {
    match ReadProperty(op, kind)
    case Value(x) => Truthy(x) && ReadProperty(x, "filter").Truthy()
    case _ => false
  }

  /** The chain of `else if` tests from the kind at index `k` on: the first kind that has a filter. */
  function SelectKind(op: Json, k: nat): (r: Option<nat>)
    requires op != Null && k <= |WriteKinds|
    ensures r.Some? ==>
      k <= r.value < |WriteKinds| && HasFilter(op, WriteKinds[r.value]) &&
      forall j :: k <= j < r.value ==> !HasFilter(op, WriteKinds[j])
    ensures r.None? ==> forall j :: k <= j < |WriteKinds| ==> !HasFilter(op, WriteKinds[j])
    decreases |WriteKinds| - k
  {
    if k == |WriteKinds| then None
    else if HasFilter(op, WriteKinds[k]) then Some(k)
    else SelectKind(op, k + 1)
  }

  /**
    The `map` callback of the bulkWrite handler: `op.<kind>.filter =
    parseObjectIds(op.<kind>.filter)` for the selected kind. When `op.<kind>`
    is an array, `filter` is the inherited method, which `parseObjectIds`
    returns as it is; the array gains an own `filter` property holding that
    method, which the model does not represent; its elements are unchanged.
   */
  function RewriteOperation(op: Json): (r: Outcome<Json>)
    requires Decoded(op)
    ensures r.Thrown? <==> op == Null
    ensures op != Null && SelectKind(op, 0).None? ==> r == Ok(op)
  {
    if op == Null then
      Thrown(ReadOfNull("updateOne"))
    else
      match SelectKind(op, 0)
      case None => Ok(op)
      case Some(k) =>
        var kind := WriteKinds[k];
        var target := Get(op.entries, kind).value;
        if target.Arr? then Ok(op)
        else
          GetDecoded(op.entries, kind);
          var f := Get(target.entries, "filter").value;
          GetDecoded(target.entries, "filter");
          Ok(Obj(Set(op.entries, kind, Obj(Set(target.entries, "filter", Normalize(f))))))
  }

  /**
    For an operation whose first selected kind holds an object, the result
    differs from the operation only in that object's `filter`, which is
    normalised; every other kind, including any later one with a filter, is
    left as it is.
   */
  lemma RewriteOperationEffect(op: Json, k: nat)
    requires Decoded(op) && op != Null
    requires SelectKind(op, 0) == Some(k)
    ensures var kind := WriteKinds[k];
      var target := Get(op.entries, kind).value;
      var r := RewriteOperation(op).value;
      if target.Arr? then r == op
      else
        target.Obj? &&
        Truthy(Get(target.entries, "filter").value) && Decoded(Get(target.entries, "filter").value) &&
        r.Obj? && Get(r.entries, kind).Some? && Get(r.entries, kind).value.Obj? &&
        Replaced(r.entries, op.entries, kind, Get(r.entries, kind).value) &&
        Replaced(Get(r.entries, kind).value.entries, target.entries, "filter", Normalize(Get(target.entries, "filter").value))
  {
    var kind := WriteKinds[k];
    var target := Get(op.entries, kind).value;
    if !target.Arr? {
      GetDecoded(op.entries, kind);
      GetDecoded(target.entries, "filter");
      var f := Get(target.entries, "filter").value;
      var inner := Obj(Set(target.entries, "filter", Normalize(f)));
      var out := Set(op.entries, kind, inner);
      SetReplaces(op.entries, kind, inner);
      SetReplaces(target.entries, "filter", Normalize(f));
      var i :| 0 <= i < |op.entries| && op.entries[i] == Entry(kind, target);
      assert out[i] == Entry(kind, inner);
      assert Keys(out)[i] == kind;
      assert Get(out, kind).Some?;
      var j :| 0 <= j < |out| && out[j] == Entry(kind, Get(out, kind).value);
      assert Keys(op.entries)[j] == Keys(out)[j] == kind;
      assert Get(out, kind).value == inner;
      forall t | 0 <= t < |target.entries| && target.entries[t].key == "filter"
        ensures target.entries[t].value == f
      {
        GetAt(target.entries, t);
      }
    }
  }

  /**
    The bulkWrite handler's rewrite: `req.body.operations || []`, then every
    operation rewritten in order. `Null` also stands for an absent field.
   */
  method ParseOperations(operations: Json) returns (r: Outcome<seq<Json>>)
    requires Decoded(operations)
    ensures r.Thrown? <==> (Truthy(operations) && !operations.Arr?) || (operations.Arr? && Null in operations.items)
    ensures r.Ok? ==>
      var ops := if operations.Arr? then operations.items else [];
      |r.value| == |ops| &&
      forall i :: 0 <= i < |ops| ==> RewriteOperation(ops[i]) == Ok(r.value[i])
  {
    var ops: seq<Json>;
    if !Truthy(operations) {
      ops := [];
    } else if operations.Arr? {
      ops := operations.items;
    } else {
      return Thrown(NotAFunction("operations.map"));
    }
    var parsed: seq<Json> := [];
    for i := 0 to |ops|
      invariant |parsed| == i
      invariant Null !in ops[..i]
      invariant forall k :: 0 <= k < i ==> RewriteOperation(ops[k]) == Ok(parsed[k])
    {
      var op := RewriteOperation(ops[i]);
      if op.Thrown? {
        assert ops[i] in ops;
        return Thrown(op.error);
      }
      assert ops[..i + 1] == ops[..i] + [ops[i]];
      parsed := parsed + [op.value];
    }
    assert ops[..|ops|] == ops;
    return Ok(parsed);
  }

  /** `{ insertOne: { document: { _id: <24 digits> } } }` has no selected kind and is left as it is. */
  lemma InsertOneUntouched()
    ensures var op := Obj([Entry("insertOne", Obj([Entry("document", Obj([Entry("_id", Str("507f1f77bcf86cd799439011"))]))]))]);
      Decoded(op) && RewriteOperation(op) == Ok(op)
  {
  }

  /** With a null `updateOne` filter and an object as `deleteOne` filter, the chain selects `deleteOne`. */
  lemma NullFilterPassedOver(filter: Json)
    requires filter.Obj?
    ensures SelectKind(Obj([Entry("updateOne", Obj([Entry("filter", Null)])), Entry("deleteOne", Obj([Entry("filter", filter)]))]), 0) == Some(2)
  {
    var target := Obj([Entry("filter", filter)]);
    var op := Obj([Entry("updateOne", Obj([Entry("filter", Null)])), Entry("deleteOne", target)]);
    GetAt(op.entries, 0);
    GetAt(op.entries, 1);
    assert Keys(op.entries) == ["updateOne", "deleteOne"];
    assert Get(op.entries, "updateMany") == None;
    GetAt(target.entries, 0);
    assert !HasFilter(op, WriteKinds[0]);
    assert !HasFilter(op, WriteKinds[1]);
    assert HasFilter(op, WriteKinds[2]);
  }

  /**
    `{ updateOne: { filter: null }, deleteOne: { filter: { _id: <24 digits> } } }`:
    the null filter of `updateOne` is falsy, so the chain goes on to `deleteOne`,
    whose filter is normalised.
   */
  lemma FalsyFilterSkipped()
    ensures var s := "507f1f77bcf86cd799439011";
      var op := Obj([Entry("updateOne", Obj([Entry("filter", Null)])),
                     Entry("deleteOne", Obj([Entry("filter", Obj([Entry("_id", Str(s))]))]))]);
      Decoded(op) && IsHex24(s) &&
      RewriteOperation(op) == Ok(Obj([Entry("updateOne", Obj([Entry("filter", Null)])),
                                      Entry("deleteOne", Obj([Entry("filter", Obj([Entry("_id", Oid(FromHex(s).value))]))]))]))
  {
    var s := "507f1f77bcf86cd799439011";
    assert IsHex24(s);
    var filter := Obj([Entry("_id", Str(s))]);
    assert Decoded(filter);
    var normalized := Obj([Entry("_id", Oid(FromHex(s).value))]);
    assert Normalize(filter) == normalized;
    var target := Obj([Entry("filter", filter)]);
    var op := Obj([Entry("updateOne", Obj([Entry("filter", Null)])), Entry("deleteOne", target)]);
    assert Decoded(op);
    NullFilterPassedOver(filter);
    GetAt(op.entries, 1);
    assert Get(target.entries, "filter") == Some(filter);
    assert Set(target.entries, "filter", normalized) == [Entry("filter", normalized)];
    assert Set(op.entries, "deleteOne", Obj([Entry("filter", normalized)])) ==
      [Entry("updateOne", Obj([Entry("filter", Null)])), Entry("deleteOne", Obj([Entry("filter", normalized)]))];
  }

  /**
    `{ updateOne: [], deleteOne: { filter: { _id: <24 digits> } } }`: `updateOne.filter`
    is the inherited array method, which is truthy, so `updateOne` is selected,
    nothing visible changes, and the filter of `deleteOne` stays a string.
   */
  lemma ArrayKindStopsChain()
    ensures var op := Obj([Entry("updateOne", Arr([])),
                           Entry("deleteOne", Obj([Entry("filter", Obj([Entry("_id", Str("507f1f77bcf86cd799439011"))]))]))]);
      Decoded(op) && RewriteOperation(op) == Ok(op)
  {
  }
}
