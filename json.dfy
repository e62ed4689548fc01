/**
  Values as the request handlers see them: a decoded JSON body, possibly with
  ObjectIds put in by the normaliser. An object is its sequence of entries in
  JavaScript property order.
 */
module JsonValues {
  import opened Wrappers
  import opened ObjectIds

  datatype Json =
    | Null
    | Bool(b: bool)
    | Num(n: real)
    | Str(text: string)
    | Arr(items: seq<Json>)
    | Obj(entries: seq<Entry>)
    | Oid(id: ObjectId)

  datatype Entry = Entry(key: string, value: Json)

  /** JavaScript truthiness: null, false, 0 and "" are falsy; arrays and objects, even empty ones, are truthy. */
  predicate Truthy(v: Json) {
    match v
    case Null => false
    case Bool(b) => b
    case Num(n) => n != 0.0
    case Str(t) => t != ""
    case _ => true
  }

  /** `typeof v === 'object' && v !== null` */
  predicate IsObjectTyped(v: Json) {
    v.Arr? || v.Obj? || v.Oid?
  }

  predicate DistinctKeys(es: seq<Entry>) {
    forall i, j :: 0 <= i < j < |es| ==> es[i].key != es[j].key
  }

  /** What `JSON.parse` can produce: no ObjectId anywhere, and no key twice in one object. */
  predicate Decoded(v: Json) {
    match v
    case Oid(_) => false
    case Arr(items) => forall i :: 0 <= i < |items| ==> Decoded(items[i])
    case Obj(es) => DistinctKeys(es) && forall i :: 0 <= i < |es| ==> Decoded(es[i].value)
    case _ => true
  }

  /** The keys of an object, in order. */
  function Keys(es: seq<Entry>): (ks: seq<string>)
    ensures |ks| == |es|
  {
    seq(|es|, i requires 0 <= i < |es| => es[i].key)
  }

  /** The own property `key` of an object: the value of the first entry with that key. */
  function Get(es: seq<Entry>, key: string): (r: Option<Json>)
    ensures r.None? <==> key !in Keys(es)
    ensures r.Some? ==> exists i :: 0 <= i < |es| && es[i] == Entry(key, r.value) && key !in Keys(es[..i])
  {
    if |es| == 0 then None
    else if es[0].key == key then
      assert Keys(es)[0] == key && Keys(es[..0]) == [];
      Some(es[0].value)
    else
      var r := Get(es[1..], key);
      assert Keys(es) == [es[0].key] + Keys(es[1..]);
      assert r.Some? ==> exists i :: 0 <= i < |es| && es[i] == Entry(key, r.value) && key !in Keys(es[..i]) by {
        if r.Some? {
          var j :| 0 <= j < |es| - 1 && es[1..][j] == Entry(key, r.value) && key !in Keys(es[1..][..j]);
          assert es[..j + 1] == [es[0]] + es[1..][..j];
          assert Keys(es[..j + 1]) == [es[0].key] + Keys(es[1..][..j]);
        }
      }
      r
  }

  /** Assigning `obj[key] = v` to an object that has the property: the entry keeps its place. */
  function Set(es: seq<Entry>, key: string, v: Json): seq<Entry> {
    seq(|es|, i requires 0 <= i < |es| => if es[i].key == key then Entry(key, v) else es[i])
  }

  /** With distinct keys, the entry holding a key is the one `Get` reads. */
  lemma GetAt(es: seq<Entry>, i: nat)
    requires DistinctKeys(es) && i < |es|
    ensures Get(es, es[i].key) == Some(es[i].value)
  {
    if i > 0 {
      assert es[1..][i - 1] == es[i];
      GetAt(es[1..], i - 1);
    }
  }

  /** With distinct keys, every entry holding `key` holds the value `Get` reads. */
  lemma GetEvery(es: seq<Entry>, key: string)
    requires DistinctKeys(es)
    ensures forall i :: 0 <= i < |es| && es[i].key == key ==> Get(es, key) == Some(es[i].value)
  {
  }

  /** `out` is `orig` with the value under `key` replaced by `v`: the same keys in the same order, every other value kept. */
  predicate Replaced(out: seq<Entry>, orig: seq<Entry>, key: string, v: Json) {
    Keys(out) == Keys(orig) &&
    forall i :: 0 <= i < |orig| ==> out[i].value == if orig[i].key == key then v else orig[i].value
  }

  lemma SetReplaces(es: seq<Entry>, key: string, v: Json)
    ensures Replaced(Set(es, key, v), es, key, v)
  {
  }
}
