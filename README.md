# Identifier normalisation for MongoDB query filters

The service in server.js passes request bodies almost unchanged to the MongoDB
driver. The one piece of logic of its own is `parseObjectIds`. JSON cannot
carry a native ObjectId, so this function walks a decoded filter. Under an
identifier-shaped key (`_id`, or any key ending in `Id` or `_id`), it replaces a
string of exactly 24 hexadecimal digits with the ObjectId that the string spells.
Two handlers decide where the function is applied:

- the aggregate handler normalises the `$match` field of every pipeline stage;
- the bulkWrite handler normalises, for every operation, the filter of the first
  of `updateOne`, `updateMany`, `deleteOne`, `deleteMany` and `replaceOne` that
  has a truthy filter.

The project has five modules:

- `Wrappers` (wrappers.dfy): `Option`.
- `ObjectIds` (object_id.dfy): an ObjectId is twelve bytes. `FromHex` is the
  driver's constructor on strings: it accepts exactly 24 hexadecimal digits, in
  either case, and gives `None` where the driver throws. `ToHexString` is the
  canonical lower-case form. The two are proved inverse up to the case of the
  digits.
- `JsonValues` (json.dfy): the value type. It has `Null`, `Bool`, `Num`, `Str`,
  `Arr`, `Obj` and `Oid`. An object is a sequence of entries in JavaScript
  property order. The module also gives JavaScript truthiness, the
  `typeof === 'object'` test, property reads and writes, and `Decoded`, which says
  what `JSON.parse` can produce: no ObjectId anywhere and no key twice in one object.
- `Normalizer` (normalizer.dfy): `Normalize` is the specification function of
  `parseObjectIds`. `ParseObjectIds` is the function as written: a shallow copy
  of the entries, updated one by one in a loop with `continue`. It is proved equal
  to `Normalize`. `Normalize` is then characterised independently of its
  definition:
  - `Agrees` (soundness): the output is the input with only candidate strings
    replaced, each by the ObjectId it spells. Shape, array lengths, keys and key
    order stay the same.
  - `HasCandidate` false on the output (completeness): no identifier-shaped key
    still holds a 24-digit string.
  - `AgreesUnique`: these two properties determine the output.
  - `NormalizeIdentity`: the input comes back unchanged exactly when it holds no
    candidate.
- `Handlers` (handlers.dfy): the `map` callbacks of the aggregate and bulkWrite
  handlers. These include the TypeErrors they throw. Reading a property of
  `null` throws, and so does calling `map` on a truthy value that is not an array.
  `ParsePipeline` and `ParseOperations` are the loops over the lists.

A few edge cases of the code are modelled as written:

- The catch branch of the conversion is modelled: `None` falls through to the
  later rules. It is proved never to be reached.
- The `$`-operator rule and the generic rule do the same thing. The lemma
  `OperatorKeyIrrelevant` proves that a key matters only through the identifier
  rule.
- In the bulkWrite handler, `op.<kind>.filter` on an array reads the inherited
  `Array.prototype.filter`, which is truthy. So that kind is selected, and the
  `else if` chain stops there. The array's elements and every other part of the
  operation are unchanged (`ArrayKindStopsChain`).

Input that this model cannot represent:

- `Null` stands both for JSON `null` and for an absent body field. The handlers
  treat the two alike, because both are falsy.
- Numbers are `real`. Only their truthiness matters here.

## Model

| member | source | states |
|---|---|---|
| `ObjectIds.FromHex` | server.js:493-495 | the ObjectId constructor yields an identifier exactly when the string is 24 hexadecimal digits, as the regular-expression gate demands |
| `ObjectIds.FromHexOfToHexString` | server.js:495 | reading back the canonical string form of an ObjectId gives the same ObjectId |
| `ObjectIds.ToHexStringOfFromHex` | server.js:495 | the ObjectId built from a 24-digit string prints as that string with its digits folded to lower case |
| `ObjectIds.IdOfHexString` | server.js:495 | an ObjectId whose canonical form equals a 24-digit string, read case-insensitively, is the one built from that string |
| `Normalizer.NonObjectUnchanged` | server.js:477-478 | null, booleans, numbers and strings are returned as they are |
| `Normalizer.NormalizeArray` | server.js:481-483 | an array keeps its length and order; each element is normalised on its own; a string element is never converted |
| `Normalizer.NormalizeValueRule` | server.js:489-513 | per entry: an identifier-shaped key with a 24-digit string gets the ObjectId that string spells and no other rule applies; any other object or array value is normalised; any other scalar is kept; the catch branch is never reached |
| `Normalizer.OperatorKeyIrrelevant` | server.js:504-513 | apart from the identifier rule, a value is treated the same under a `$` operator key as under any other key, identifier-shaped ones included |
| `Normalizer.NormalizeAgrees` | server.js:475-517 | soundness: the output has the input's shape, array lengths and keys in order, and differs only where a candidate string became the ObjectId it spells |
| `Normalizer.NoCandidateLeft` | server.js:475-517 | completeness: no identifier-shaped key at any depth still holds a 24-digit hexadecimal string |
| `Normalizer.AgreesUnique` | server.js:475-517 | soundness and completeness together determine the output: any value with both properties is the normalised one |
| `Normalizer.NormalizeIdentity` | server.js:475-517 | the input is returned unchanged if and only if it holds no candidate |
| `Normalizer.NestedIdConverted` | server.js:504-507 | in `{ $or: [ { _id: s }, { category: "x" } ] }` the nested `_id` string is converted through the operator and the array |
| `Normalizer.InListNotConverted` | server.js:481-493 | in `{ _id: { $in: [s1, s2] } }` nothing is converted: `_id` holds no string, and the list's strings are under no key |
| `Normalizer.ParseObjectIds` | server.js:475-517 | the entry-by-entry loop with its shallow copy and `continue` computes exactly `Normalize` |
| `Handlers.RewriteStage` | server.js:245-250 | a null stage throws; otherwise the stage keeps its keys and values, except that a truthy `$match` is replaced by its normalisation |
| `Handlers.ParsePipeline` | server.js:243-250 | a falsy pipeline is empty; a truthy non-array throws; otherwise the result has the pipeline's length and order, each stage rewritten, and it throws exactly when some stage is null |
| `Handlers.SelectKind` | server.js:369-379 | the selected write kind is the first in the order updateOne, updateMany, deleteOne, deleteMany, replaceOne that has a truthy filter; none is selected when no kind has one |
| `Handlers.RewriteOperation` | server.js:368-381 | rewriting an operation throws exactly when the operation is null; an operation for which no kind has a truthy filter, such as `insertOne`, comes back unchanged |
| `Handlers.RewriteOperationEffect` | server.js:369-379 | only the selected kind's filter is replaced by its normalisation; every other key of the operation and of the selected kind is kept; an array in the selected kind leaves the operation unchanged |
| `Handlers.ParseOperations` | server.js:366-381 | a falsy list is empty; a truthy non-array throws; otherwise the result has the list's length and order, each operation rewritten, and it throws exactly when some operation is null |
| `Handlers.InsertOneUntouched` | server.js:368-381 | an `insertOne` operation is unchanged, even with an `_id` string inside it |
| `Handlers.FalsyFilterSkipped` | server.js:369-376 | a kind whose filter is falsy is passed over, and the next kind's filter is normalised |
| `Handlers.ArrayKindStopsChain` | server.js:369-370 | an array under `updateOne` is selected through `Array.prototype.filter`, so a later `deleteOne` filter is not normalised |

## Left out

- HTTP routing, body parsing, static files and the response envelopes (server.js:1-472) are not modelled. The handlers' `catch` blocks, which turn a thrown TypeError into a 500 response, appear only as the `Thrown` outcome.
- The other handlers that call `parseObjectIds` on `req.body.query || {}` or on a filter (server.js:68-403) are not modelled separately. Each passes one value to `Normalize` and does nothing else of interest.
- All MongoDB driver calls, connection setup and shutdown (server.js:20-37, 519-534) are external and left out.
- The `console.warn` in the catch branch (server.js:498) and all other logging are left out.
- The bson ObjectId class is not part of this model's source. It is modelled from its documented behaviour: twelve bytes, a constructor that accepts exactly 24 hexadecimal digits, and a lower-case canonical string.
- public/script.js is left out. It is browser UI code, and its 24-digit checks repeat the server's gate.
- Handlers.ParsePipeline: the handlers assign the rewritten `$match` into the request's own stage objects and return those same objects. The model rewrites values. So the aliasing between `req.body` and the list passed to the driver is not captured.
- Handlers.RewriteOperation: when the selected kind holds an array, server.js:370 gives that array an own enumerable `filter` property holding `Array.prototype.filter`. The model's values cannot hold a function, so it returns the operation unchanged and does not represent that extra property.
- Handlers.ParseOperations: the same holds for the filters assigned into the request's operation objects.
- Normalizer.Normalize: requires `Decoded` input, which holds no ObjectId. The handlers only pass freshly decoded request JSON. Given an ObjectId, the code would copy its own properties into a plain object, and the model does not describe that. For the same reason, no idempotence is claimed.
- "The caller's input is not mutated" holds trivially: Dafny values are immutable. So it is not stated as a separate lemma.
- Key tests use Dafny characters, not UTF-16 code units. The prefix and suffix tests involve only ASCII, so the two agree.
