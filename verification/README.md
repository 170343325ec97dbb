# Redis write buffer of Sentry, modelled in Dafny

Sentry counts events per record: times seen, last seen and similar columns.
It does not update the database row on every event. Instead `RedisBuffer`
(`sentry/buffer/redis.py`) adds each increment to a counter in Redis, and a
periodic flush drains the counters and hands the totals to the base `Buffer`
class, which writes the row.

- **`incr(model, columns, filters, extra)`**
  - Sends one `INCRBY` per column, on a key built from the model, the filters and the column.
  - Stores the pickled `extra` values in one Redis hash per record, with one `HSET` per field.
  - Then notifies the base class.
- **`process(model, columns, filters, extra)`**
  - Reads and resets every named counter with `GETSET key 0`.
  - Reads the record's extra hash with `HGETALL` and then deletes it with `DEL`.
  - Merges the stored extra values over the `extra` argument. A stored value wins; empty stored values are skipped.
  - Keeps only the columns whose drained value is strictly positive. If none is left it stops; otherwise it forwards the positive columns and the merged extra values to the base class.
- **Keys**
  - A counter key is `<model meta>:<md5 hex of the canonical filter string>:<column>`.
  - An extra key is `<model meta>:extra:<md5 hex>`.
  - The canonical filter string lists the filter items sorted by field name, each as `field=value`, joined by `&`. A model instance contributes its primary key.

The project has seven modules:

| file | module | contents |
|---|---|---|
| `wrappers.dfy` | `Wrappers` | `Option` and `Result` |
| `keys.dfy` | `Keys` | key derivation (pure); determinism, injectivity, and separation of the two key spaces |
| `store.dfy` | `Store` | Redis as a class with the five commands the buffer uses; counter commands as values; the fold `Run` of a command sequence; lemmas about batches of `INCRBY` and `GETSET 0` |
| `trace.dfy` | `Trace` | zero loss: over any sequence of commands, every amount added to a counter is read exactly once by a `GETSET` to 0 or is still in the counter |
| `buffer.dfy` | `Buffer` | the `RedisBuffer` class with `Incr` and `Process`, each proved against the commands it sends and the merge and filter functions |
| `buffer_props.dfy` | `BufferProperties` | what `incr` and `process` do to counters; commutation; zero loss over the buffer's whole command traffic; the round trip of extra values |
| `scenario.dfy` | `Scenario` | three increments then one flush; the merge precedence example |

Modelling choices:

- **md5.** md5 is a parameter `digest: string -> string`. Where a proof needs its shape, the lemma assumes `IsHexDigest`: 32 lower-case hex digits.
- **Pickling.** Pickling is a pair of parameters, `encode: V -> Bytes` and `decode: Bytes -> Option<V>`. `None` stands for an unpickling error.
- **Model.** The model class is its `_meta` tag, a string.
- **Dicts.** A dict (the columns, the filters) is the sequence of its items in iteration order. This lets the independence from that order be stated and proved.
- **Counters in `Incr` and `Process`.** Their effect on the counters is the fold `Run` of the commands they send.
- **Calls to the base class.** These are appended to the `calls` log.

## Model

| member | source | states |
|---|---|---|
| Keys.Digits | sentry/buffer/redis.py:29-34 | the decimal text of a natural number is made of the digits 0-9 only, has no leading zero unless it is "0", and reads back as that number |
| Keys.Decimal | sentry/buffer/redis.py:29-34 | the decimal text of an integer is canonical (digits without a leading zero, a '-' exactly when the integer is negative, never "-0") and reads back as that integer |
| Keys.MapColumn | sentry/buffer/redis.py:29-34 | a model instance contributes the canonical decimal text of its primary key, which reads back as that key; any other value contributes its own text unchanged |
| Keys.DigitsUnique | sentry/buffer/redis.py:29-34 | two digit strings without leading zeros that read back as the same number are the same string |
| Keys.DecimalUnique | sentry/buffer/redis.py:29-34 | every canonical decimal text is exactly the text printed for the number it reads back as, so a primary key has one text |
| Keys.CanonicalFiltersSorted | sentry/buffer/redis.py:41 | the canonical filter string is `field=value` of each item joined by `&` in field order: it equals that join over any field-sorted arrangement of the dict's items |
| Keys.CounterKeyLayout | sentry/buffer/redis.py:36-42 | a counter key is the tag, ':', the digest of the record's canonical filter string, ':' and the column, each at its own position |
| Keys.ExtraKeyLayout | sentry/buffer/redis.py:44-46 | an extra key is the tag, ':extra:' and the same digest of the record's canonical filter string as its counter keys |
| Keys.LexLeqTotal | sentry/buffer/redis.py:41 | any two field names are ordered one way or the other under Python's code-point order |
| Keys.LexLeqAntisymmetric | sentry/buffer/redis.py:41 | field names ordered both ways are equal |
| Keys.LexLeqTransitive | sentry/buffer/redis.py:41 | the code-point order of field names is transitive |
| Keys.LexLeqReflexive | sentry/buffer/redis.py:41 | every field name is ordered before or equal to itself |
| Keys.Insert | sentry/buffer/redis.py:41 | inserting an item into the sorted items adds exactly that item (multiset) |
| Keys.InsertSorted | sentry/buffer/redis.py:41 | inserting an item into field-sorted items keeps them sorted |
| Keys.SortByField | sentry/buffer/redis.py:41 | sorting the filter items gives a permutation of them, sorted by field name |
| Keys.SortedArrangementUnique | sentry/buffer/redis.py:41 | two field-sorted permutations of the items of one dict are the same sequence, so the sorted order does not depend on the sort algorithm |
| Keys.FilterOrderIrrelevant | sentry/buffer/redis.py:40-46 | two iteration orders of one filter dict give the same canonical string, the same counter key for every column and the same extra key |
| Keys.CanonicalStringAmbiguous | sentry/buffer/redis.py:36-46 | the filter dicts {a: "1&b=2"} and {a: "1", b: "2"} differ, yet give the same canonical string, the same counter key for every column and the same extra key |
| Keys.InstanceFilterIsItsPk | sentry/buffer/redis.py:29-34 | a filter on a model instance and a filter on its primary key's decimal text give the same counter and extra keys |
| Keys.CounterKeyColumnInjective | sentry/buffer/redis.py:36-42 | for one record, two columns share a counter key if and only if they are the same column |
| Keys.CounterKeyParts | sentry/buffer/redis.py:40-42 | `tag:digest:column` with a colon-free tag and a fixed-length digest determines its three parts, and conversely |
| Keys.CounterKeyInjective | sentry/buffer/redis.py:36-42 | with colon-free tags and hex digests, two counter keys are equal if and only if the tags, the filter digests and the columns are |
| Keys.ExtraKeyInjective | sentry/buffer/redis.py:44-46 | with colon-free tags, two extra keys are equal if and only if the tags and the filter digests are |
| Keys.RecordKeysAgree | sentry/buffer/redis.py:36-46 | two records share a column's counter key if and only if they share the extra key |
| Keys.KeySpacesDisjoint | sentry/buffer/redis.py:40-46 | with colon-free tags and hex digests, no counter key is an extra key |
| Store.HSetAll | sentry/buffer/redis.py:56-57 | after a batch of HSETs, each set field holds its value, other fields of the hash are kept, and other hashes are unchanged |
| Store.HSetStep | sentry/buffer/redis.py:56-57 | one more HSET on the hash extends the batch by that field |
| Store.HSetAllCompose | sentry/buffer/redis.py:54-57 | two batches of HSETs on one hash are one batch in which the later value of a field wins |
| Store.IncrementsAt | sentry/buffer/redis.py:50-51 | after only INCRBYs, a key holds its old count plus the sum of its amounts if the batch named it, and its old value otherwise |
| Store.IncrBatch | sentry/buffer/redis.py:50-51 | INCRBYs on distinct keys add each amount to its own key and leave every other key as it was |
| Store.ResetsAt | sentry/buffer/redis.py:63-64 | after only GETSETs to 0, a named key holds 0 and any other key is as it was |
| Store.BeforeAt | sentry/buffer/redis.py:64 | the reply to a command is what its key held after the commands before it |
| Store.ResetBatch | sentry/buffer/redis.py:63-64 | GETSETs to 0 on distinct keys reply with each key's value from before the batch, leave each at 0, and leave other keys untouched |
| Store.AddedPermutation | sentry/buffer/redis.py:49-51 | reordering commands does not change the total amount added to a key |
| Store.IncrementsCommute | sentry/buffer/redis.py:49-51 | any reordering of a batch of INCRBYs leaves the same counters |
| Store.KeyValueStore.constructor | sentry/buffer/redis.py:17-27 | an empty Redis server, used as a starting state: no counters and no hashes |
| Store.KeyValueStore.IncrBy | sentry/buffer/redis.py:51 | the counter gains the amount (an absent one counts as 0); hashes are untouched |
| Store.KeyValueStore.GetSet | sentry/buffer/redis.py:64 | replies with the previous value (None if absent) and stores the new one |
| Store.KeyValueStore.HSet | sentry/buffer/redis.py:57 | sets one field of one hash, creating the hash if needed; counters are untouched |
| Store.KeyValueStore.HGetAll | sentry/buffer/redis.py:67 | replies with all fields of the hash, or none when it is absent |
| Store.KeyValueStore.Delete | sentry/buffer/redis.py:68 | removes the key, whether it holds a counter or a hash |
| Trace.ZeroLoss | sentry/buffer/redis.py:48-68 | over any command sequence where a counter key sees only INCRBY and GETSET to 0: its start value plus all amounts added equals the sum of what the GETSETs read plus its final value |
| Trace.FlushCapturesSinceLastFlush | sentry/buffer/redis.py:63-64 | the first of two flushes reads the start value; the second reads exactly the increments between them |
| Trace.NoFlushNoRead | sentry/buffer/redis.py:63-64 | with no GETSET on a key, nothing is read from it |
| Buffer.IncrCommands | sentry/buffer/redis.py:50-51 | incr sends one INCRBY per column, in column order, on that column's counter key of the record with that column's amount |
| Buffer.DrainCommands | sentry/buffer/redis.py:63-64 | process sends one GETSET to 0 per column name, in order, on that column's counter key of the record |
| Buffer.Collect | sentry/buffer/redis.py:61-64 | the collected results have exactly the flushed column names as keys |
| Buffer.EncodeAll | sentry/buffer/redis.py:56-57 | one pickled value per extra field, no more and no fewer; each field holds the pickle of its own value |
| Buffer.PositiveResults | sentry/buffer/redis.py:81-82 | a column is kept if and only if its drained value, an absent one counting as 0, is strictly positive; a kept value is that positive integer |
| Buffer.MergeExtra | sentry/buffer/redis.py:73-79 | no stored values: the argument passes through. Fails if and only if a non-empty stored value does not unpickle. On success the result has exactly the argument's fields plus the non-empty stored ones; each stored field holds its unpickled value and every other field keeps the argument's value |
| Buffer.RedisBuffer.constructor | sentry/buffer/redis.py:17-27 | the buffer holds the given connection, digest and pickling functions, and has made no calls yet |
| Buffer.RedisBuffer.Incr | sentry/buffer/redis.py:48-58 | counters become the result of the INCRBYs of every column. When extra is non-empty, its hash gains every pickled field; otherwise hashes are unchanged. Then exactly one notification is appended to the calls |
| Buffer.RedisBuffer.IncrCounters | sentry/buffer/redis.py:50-51 | the counters become the result of one INCRBY per column, in order; hashes are untouched |
| Buffer.RedisBuffer.StoreExtra | sentry/buffer/redis.py:54-57 | the extra hash gains every pickled field; counters are untouched |
| Buffer.RedisBuffer.Process | sentry/buffer/redis.py:60-85 | counters become the result of a GETSET to 0 per column followed by the DEL, and the extra hash is gone. Then exactly one of: the merge fails and nothing is forwarded; no positive column is left and nothing is forwarded; or one call forwards the positive results with the merged extra values |
| Buffer.RedisBuffer.DrainCounters | sentry/buffer/redis.py:61-64 | each GETSET replies with what its counter held before it, collected by column; the counters become the result of the GETSETs |
| Buffer.RedisBuffer.MergeStored | sentry/buffer/redis.py:73-79 | computes MergeExtra of the stored hash and the argument |
| BufferProperties.IncrKeysDistinct | sentry/buffer/redis.py:50-51 | the columns of a dict give distinct counter keys |
| BufferProperties.IncrAddsAmounts | sentry/buffer/redis.py:48-51 | after incr, each column's counter holds its old count plus the column's amount |
| BufferProperties.IncrKeepsOthers | sentry/buffer/redis.py:48-51 | incr leaves every counter not named by its columns as it was |
| BufferProperties.IncrCallsCommute | sentry/buffer/redis.py:48-51 | two incr calls, for any records and columns, leave the same counters in either order |
| BufferProperties.CollectAt | sentry/buffer/redis.py:61-64 | with distinct names, each column's result is its own GETSET's reply |
| BufferProperties.DrainCaptures | sentry/buffer/redis.py:60-64 | process captures each named counter's value from before the call and leaves it at 0; other counters are untouched |
| BufferProperties.ProcessForwardsPositiveCounts | sentry/buffer/redis.py:60-85 | the results process computes contain a column if and only if it was named and its counter held a positive amount before the call, with that amount as its value; when the stored extra values unpickle, these are the results it forwards |
| BufferProperties.DelKeepsCounters | sentry/buffer/redis.py:66-68 | deleting a record's extra hash never changes a counter |
| BufferProperties.ProcessZeroesCounters | sentry/buffer/redis.py:60-68 | after process, every named counter holds 0 |
| BufferProperties.ProcessKeepsOtherCounters | sentry/buffer/redis.py:60-68 | process leaves as it was the counter of every other column, and of every record whose tag or canonical filter digest differs |
| BufferProperties.IncrIssues | sentry/buffer/redis.py:48-51 | every command incr sends is an INCRBY on a counter key |
| BufferProperties.ProcessIssues | sentry/buffer/redis.py:60-68 | every command process sends is a GETSET to 0 on a counter key or a DEL of an extra key |
| BufferProperties.NothingLostNothingReadTwice | sentry/buffer/redis.py:48-68 | for the commands of any number of incr and process calls, run in any order: a counter's start value plus everything added equals what the flushes read plus what it finally holds |
| BufferProperties.EncodeAllUnion | sentry/buffer/redis.py:56-57 | pickling two batches of extra values is pickling their union |
| BufferProperties.ExtraRoundTrip | sentry/buffer/redis.py:54-79 | if unpickling undoes pickling, pickles are never empty and the fields the record's hash already held unpickle: process returns the values passed to it, overlaid by the hash's earlier values, overlaid by the values incr stored, each unchanged |
| BufferProperties.LatestExtraWins | sentry/buffer/redis.py:54-79 | under the same hypotheses, after two incr calls with extra values on one record, process returns the later value of each field both calls set, over the hash's earlier values and the values passed to process |
| BufferProperties.MergeDecodable | sentry/buffer/redis.py:73-79 | a non-empty hash whose filled fields all unpickle merges into their unpickled values laid over the argument |
| BufferProperties.UnpickledOverwrite | sentry/buffer/redis.py:54-57 | pickling fields into a hash whose filled fields unpickle keeps it unpicklable, and unpickles to its old values overwritten by the new ones |
| Scenario.OneColumnIncr | sentry/buffer/redis.py:50-51 | a one-column incr adds its amount to that column's counter |
| Scenario.OneColumnDrain | sentry/buffer/redis.py:63-64 | a one-column process captures that counter's value |
| Scenario.ThreeIncrements | sentry/buffer/redis.py:48-58 | three incr calls of 1 on a fresh counter leave it at 3 |
| Scenario.OneColumnProcessResets | sentry/buffer/redis.py:60-68 | after a one-column process, the counter holds 0 |
| Scenario.ThreeIncrementsThenProcess | sentry/buffer/redis.py:48-85 | three incr calls of 1, then process: three notifications, then exactly one forwarded call with the column at 3 and no extra values; the counter is back at 0 |
| Scenario.MergePrecedence | sentry/buffer/redis.py:73-79 | passed {a, b} and stored {b, c}: the result has a from the argument, and b and c from the store |

## Left out

- Building the cluster (lines 17-27): the router and the list of hosts are left out. The connection is a single `KeyValueStore`, and partitioning keys over hosts does not change what a command does to its key.
- Batching with `conn.map()`: the model runs each call's commands one after another, and the replies are available afterwards. Redis may interleave the commands of concurrent calls. `Trace.ZeroLoss` and `BufferProperties.NothingLostNothingReadTwice` therefore quantify over every command sequence, not just one call's batch. Failure of the connection mid-batch is not modelled.
- md5 is a parameter. Its 32-hex-digit output is a hypothesis of the lemmas that need it, not a proved fact.
- Store.KeyValueStore.constructor: an empty server is only a starting state for reasoning. The source connects to Redis hosts that keep their keys, and every other member works from whatever counters and hashes the store already holds.
- Keys.CounterKey, Keys.ExtraKey: md5 cannot fail here. In the source the canonical filter string is `unicode` whenever some filter value is not a model instance, and `md5()` raises `UnicodeEncodeError` when it holds a non-ASCII character; the model's `digest` accepts every string.
- Buffer.RedisBuffer.StoreExtra: pickling cannot fail here. In the source `pickle.dumps` raises on an unpicklable value inside the `conn.map()` block; the model's `encode` is total.
- Distinct records can share keys. The canonical filter string escapes neither `&` nor `=`, so a field or value that contains one can make two different filter dicts render alike (`Keys.CanonicalStringAmbiguous`). `process` on one of them then drains and resets the other's counters too. The key lemmas are therefore stated in terms of the filter digest, not of the filter dict.
- pickle is a pair of parameters. That unpickling undoes pickling is a hypothesis of `BufferProperties.ExtraRoundTrip`, `BufferProperties.LatestExtraWins` and `Scenario.MergePrecedence`.
- The conversion of a non-model filter value to text (`unicode`) is not modelled, nor the errors it can raise. A `Scalar` carries the text already converted.
- `model._meta` is its printed form, a string tag.
- The base class `Buffer` (its `incr` and `process`) is not part of this model. Calls to it are recorded in `calls`.
- Buffer.RedisBuffer.Process: it does not model the update in place of the caller's `extra` dict when the store held values. The merged values are what the forwarded call carries, and the caller's own dict is not modelled.
- Redis replies are integers here, not the strings that `int()` parses. Only `INCRBY` and `GETSET 0` ever write a counter key, so the parse cannot fail.
- Redis type errors (an `INCRBY` on a hash) are not modelled. `Keys.KeySpacesDisjoint` shows that counter and extra keys never collide for colon-free tags and hexadecimal digests.
- Store.KeyValueStore.IncrBy: does not model Redis's 64-bit signed range, where `INCRBY` fails on overflow, because counters are unbounded integers here.
- Python's `sorted` is modelled by an insertion sort. `Keys.SortedArrangementUnique` shows that any sort gives the same sequence, because field names are unique.
- An unpicklable stored value makes `process` raise after the counters were already reset, so those amounts are lost. The model follows the code: `Process` returns `ExtraUndecodable` and forwards nothing.
- A column whose net count is zero or negative is dropped by the positive filter, and its counter is still reset. This is the source's behaviour and is modelled as such (`Buffer.PositiveResults`).
