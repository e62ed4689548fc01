/**
  The query-filter identifier normaliser `parseObjectIds` of server.js: under an
  identifier-shaped key, a string of exactly 24 hexadecimal digits becomes an
  ObjectId; arrays and objects are rebuilt with every element and value
  normalised; everything else is kept.
 */
module Normalizer {
  import opened Wrappers
  import opened ObjectIds
  import opened JsonValues

  predicate StartsWith(s: string, prefix: string) {
    |prefix| <= |s| && s[..|prefix|] == prefix
  }

  predicate EndsWith(s: string, suffix: string) {
    |suffix| <= |s| && s[|s| - |suffix|..] == suffix
  }

  /** `key === '_id' || key.endsWith('Id') || key.endsWith('_id')`, case-sensitive. */
  predicate IsIdKey(key: string) {
    key == "_id" || EndsWith(key, "Id") || EndsWith(key, "_id")
  }

  /** A query operator such as `$in` or `$or`. */
  predicate IsOperatorKey(key: string) {
    StartsWith(key, "$")
  }

  /** A keyed string that the identifier rule converts. */
  predicate IsCandidate(key: string, value: Json) {
    IsIdKey(key) && value.Str? && IsHex24(value.text)
  }

  /** `parseObjectIds(v)`, as a value. */
  function Normalize(v: Json): Json
    requires Decoded(v)
    decreases v, 0
  {
    match v
    case Arr(items) =>
      Arr(seq(|items|, i requires 0 <= i < |items| => Normalize(items[i])))
    case Obj(es) =>
      Obj(seq(|es|, i requires 0 <= i < |es| => Entry(es[i].key, NormalizeValue(es[i].key, es[i].value))))
    case _ =>
      // null and the other falsy values, then every value that is not an object
      v
  }

  /** What the loop over the entries stores under `key` for `value`. */
  function NormalizeValue(key: string, value: Json): Json
    requires Decoded(value)
    decreases value, 1
  {
    // `new ObjectId(value)` is tried only after the 24-digit test; None stands for the caught exception
    var converted := if IsIdKey(key) && value.Str? && IsHex24(value.text) then FromHex(value.text) else None;
    if converted.Some? then Oid(converted.value)
    else if IsOperatorKey(key) && IsObjectTyped(value) then Normalize(value)
    else if IsObjectTyped(value) then Normalize(value)
    else value
  }

  /** Some entry, at any depth reachable through arrays and objects, is a candidate. */
  predicate HasCandidate(v: Json) {
    match v
    case Arr(items) => exists i :: 0 <= i < |items| && HasCandidate(items[i])
    case Obj(es) => exists i :: 0 <= i < |es| && (IsCandidate(es[i].key, es[i].value) || HasCandidate(es[i].value))
    case _ => false
  }

  /** `out` holds, in place of the candidate string `orig` under `key`, the ObjectId that the string spells. */
  predicate Spells(out: Json, key: string, orig: Json) {
    IsCandidate(key, orig) && out.Oid? && ToHexString(out.id) == FoldCase(orig.text)
  }

  /**
    `out` is `orig` with some candidate strings replaced by the ObjectIds they
    spell: same shape, same array lengths, same keys in the same order, and
    every other scalar kept.
   */
  predicate Agrees(out: Json, orig: Json) {
    match orig
    case Arr(xs) =>
      out.Arr? && |out.items| == |xs| &&
      forall i :: 0 <= i < |xs| ==> Agrees(out.items[i], xs[i])
    case Obj(es) =>
      out.Obj? && Keys(out.entries) == Keys(es) &&
      forall i :: 0 <= i < |es| ==> Spells(out.entries[i].value, es[i].key, es[i].value) || Agrees(out.entries[i].value, es[i].value)
    case _ =>
      out == orig
  }

  /**
    The rule for one entry: a candidate becomes the ObjectId its string spells
    (the catch branch is never reached); any other object or array is normalised,
    whether or not its key is an operator; any other scalar is kept.
   */
  lemma NormalizeValueRule(key: string, value: Json)
    requires Decoded(value)
    ensures IsCandidate(key, value) ==>
      NormalizeValue(key, value).Oid? && Spells(NormalizeValue(key, value), key, value)
    ensures !IsCandidate(key, value) && IsObjectTyped(value) ==> NormalizeValue(key, value) == Normalize(value)
    ensures !IsCandidate(key, value) && !IsObjectTyped(value) ==> NormalizeValue(key, value) == value
  {
    if IsCandidate(key, value) {
      ToHexStringOfFromHex(value.text);
    }
  }

  /** Null, booleans, numbers and strings come back as they are. */
  lemma NonObjectUnchanged(v: Json)
    requires Decoded(v) && !IsObjectTyped(v)
    ensures Normalize(v) == v
  {
  }

  /**
    The key of a value matters only through the identifier rule: an object
    under `userId` is treated as one under `$and` or under `category`.
   */
  lemma OperatorKeyIrrelevant(k1: string, k2: string, value: Json)
    requires Decoded(value)
    requires !IsCandidate(k1, value) && !IsCandidate(k2, value)
    ensures NormalizeValue(k1, value) == NormalizeValue(k2, value)
  {
  }

  /** An array keeps its length and order; each element is normalised on its own, and a string element is never converted. */
  lemma NormalizeArray(items: seq<Json>)
    requires Decoded(Arr(items))
    ensures Normalize(Arr(items)).Arr? && |Normalize(Arr(items)).items| == |items|
    ensures forall i :: 0 <= i < |items| ==> Normalize(Arr(items)).items[i] == Normalize(items[i])
    ensures forall i :: 0 <= i < |items| && items[i].Str? ==> Normalize(Arr(items)).items[i] == items[i]
  {
  }

  lemma {:induction false} AgreesReflexive(v: Json)
    ensures Agrees(v, v)
  {
    match v
    case Arr(xs) =>
      forall i | 0 <= i < |xs|
        ensures Agrees(xs[i], xs[i])
      {
        AgreesReflexive(xs[i]);
      }
    case Obj(es) =>
      forall i | 0 <= i < |es|
        ensures Agrees(es[i].value, es[i].value)
      {
        AgreesReflexive(es[i].value);
      }
    case _ =>
  }

  /** Soundness: the normaliser changes nothing but candidate strings, each into the ObjectId it spells. */
  lemma {:induction false} NormalizeAgrees(v: Json)
    requires Decoded(v)
    ensures Agrees(Normalize(v), v)
  {
    match v
    case Arr(xs) =>
      forall i | 0 <= i < |xs|
        ensures Agrees(Normalize(v).items[i], xs[i])
      {
        NormalizeAgrees(xs[i]);
      }
    case Obj(es) =>
      var out := Normalize(v).entries;
      assert Keys(out) == Keys(es);
      forall i | 0 <= i < |es|
        ensures Spells(out[i].value, es[i].key, es[i].value) || Agrees(out[i].value, es[i].value)
      {
        NormalizeValueRule(es[i].key, es[i].value);
        if !IsCandidate(es[i].key, es[i].value) {
          if IsObjectTyped(es[i].value) {
            NormalizeAgrees(es[i].value);
          } else {
            AgreesReflexive(es[i].value);
          }
        }
      }
    case _ =>
  }

  /** Completeness: no candidate is left anywhere in the output. */
  lemma {:induction false} NoCandidateLeft(v: Json)
    requires Decoded(v)
    ensures !HasCandidate(Normalize(v))
  {
    match v
    case Arr(xs) =>
      forall i | 0 <= i < |xs|
        ensures !HasCandidate(Normalize(v).items[i])
      {
        NoCandidateLeft(xs[i]);
      }
    case Obj(es) =>
      var out := Normalize(v).entries;
      forall i | 0 <= i < |es|
        ensures !IsCandidate(out[i].key, out[i].value) && !HasCandidate(out[i].value)
      {
        NormalizeValueRule(es[i].key, es[i].value);
        if !IsCandidate(es[i].key, es[i].value) && IsObjectTyped(es[i].value) {
          NoCandidateLeft(es[i].value);
        }
      }
    case _ =>
  }

  /** Soundness and completeness together determine the output: it is the only value with both properties. */
  lemma {:induction false} AgreesUnique(out: Json, v: Json)
    requires Decoded(v)
    requires Agrees(out, v) && !HasCandidate(out)
    ensures out == Normalize(v)
  {
    match v
    case Arr(xs) =>
      var r := Normalize(v).items;
      forall i | 0 <= i < |xs|
        ensures out.items[i] == r[i]
      {
        assert !HasCandidate(out.items[i]);
        AgreesUnique(out.items[i], xs[i]);
      }
      assert out.items == r;
    case Obj(es) =>
      var r := Normalize(v).entries;
      forall i | 0 <= i < |es|
        ensures out.entries[i] == r[i]
      {
        assert out.entries[i].key == Keys(out.entries)[i] == es[i].key;
        var key, orig, o := es[i].key, es[i].value, out.entries[i].value;
        NormalizeValueRule(key, orig);
        if IsCandidate(key, orig) {
          // keeping the string would leave a candidate in `out`
          assert Spells(o, key, orig);
          IdOfHexString(o.id, orig.text);
        } else {
          assert !HasCandidate(o);
          AgreesUnique(o, orig);
          match orig
          case Arr(_) =>
          case Obj(_) =>
          case _ =>
        }
      }
      assert out.entries == r;
    case _ =>
  }

  /** The normaliser returns its input exactly when there is no candidate in it. */
  lemma {:induction false} NormalizeIdentity(v: Json)
    requires Decoded(v)
    ensures Normalize(v) == v <==> !HasCandidate(v)
  {
    NoCandidateLeft(v);
    if !HasCandidate(v) {
      AgreesReflexive(v);
      AgreesUnique(v, v);
    }
  }

  /** `{ $or: [ { _id: "507f1f77bcf86cd799439011" }, { category: "x" } ] }`: the nested `_id` is reached through `$or` and converted. */
  lemma NestedIdConverted()
    ensures var s := "507f1f77bcf86cd799439011";
      var filter := Obj([Entry("$or", Arr([Obj([Entry("_id", Str(s))]), Obj([Entry("category", Str("x"))])]))]);
      Decoded(filter) && IsHex24(s) &&
      Normalize(filter) == Obj([Entry("$or", Arr([Obj([Entry("_id", Oid(FromHex(s).value))]), Obj([Entry("category", Str("x"))])]))])
  {
    var s := "507f1f77bcf86cd799439011";
    assert IsHex24(s);
    var inner := Obj([Entry("_id", Str(s))]);
    assert Decoded(inner);
    assert Normalize(inner) == Obj([Entry("_id", Oid(FromHex(s).value))]);
    var other := Obj([Entry("category", Str("x"))]);
    assert Normalize(other) == other;
    var list := Arr([inner, other]);
    assert Decoded(list);
    assert Decoded(Obj([Entry("$or", list)]));
    assert Normalize(list) == Arr([Normalize(inner), Normalize(other)]);
  }

  /**
    `{ _id: { $in: [ "507f1f77bcf86cd799439011", "507f1f77bcf86cd799439012" ] } }`:
    the value of `_id` is not a string, so it is normalised as an object, and the
    strings of the `$in` list sit in an array, under no key: nothing is converted.
   */
  lemma InListNotConverted()
    ensures var filter := Obj([Entry("_id", Obj([Entry("$in", Arr([Str("507f1f77bcf86cd799439011"), Str("507f1f77bcf86cd799439012")]))]))]);
      Decoded(filter) && Normalize(filter) == filter
  {
    var list := Arr([Str("507f1f77bcf86cd799439011"), Str("507f1f77bcf86cd799439012")]);
    assert !HasCandidate(list);
    var filter := Obj([Entry("_id", Obj([Entry("$in", list)]))]);
    NormalizeIdentity(filter);
  }

  /**
    The loop of server.js over `Object.entries(result)`, written as it is
    there: a shallow copy of the entries, updated one by one, with `continue`
    once a rule has stored its value.
   */
  method ParseObjectIds(obj: Json) returns (r: Json)
    requires Decoded(obj)
    ensures r == Normalize(obj)
    decreases obj
  {
    if !Truthy(obj) {
      return obj;
    }
    if !IsObjectTyped(obj) {
      return obj;
    }
    if obj.Arr? {
      var items := obj.items;
      var out: seq<Json> := [];
      for i := 0 to |items|
        invariant |out| == i
        invariant forall k :: 0 <= k < i ==> out[k] == Normalize(items[k])
      {
        var x := ParseObjectIds(items[i]);
        out := out + [x];
      }
      return Arr(out);
    }
    var entries := obj.entries;
    var result := entries;
    var i := 0;
    while i < |entries|
      invariant 0 <= i <= |entries|
      invariant |result| == |entries|
      invariant forall k :: 0 <= k < i ==> result[k] == Entry(entries[k].key, NormalizeValue(entries[k].key, entries[k].value))
      invariant forall k :: i <= k < |entries| ==> result[k] == entries[k]
    {
      var key, value := entries[i].key, entries[i].value;
      if IsIdKey(key) && value.Str? {
        if IsHex24(value.text) {
          var id := FromHex(value.text);
          if id.Some? {
            result := result[i := Entry(key, Oid(id.value))];
            i := i + 1;
            continue;
          }
          // the exception is caught and the string kept
        }
      }
      if IsOperatorKey(key) && IsObjectTyped(value) {
        var x := ParseObjectIds(value);
        result := result[i := Entry(key, x)];
        i := i + 1;
        continue;
      }
      if IsObjectTyped(value) {
        var x := ParseObjectIds(value);
        result := result[i := Entry(key, x)];
      }
      i := i + 1;
    }
    return Obj(result);
  }
}
