# dyna-veggie DynamoDB client, modelled in Dafny

This project models the decision logic of `DynamoDBClient`, the client that
dyna-veggie uses to keep Celery task results in a DynamoDB table. Each record
has the shape `{id, result}`. The model covers these parts:

- the retry policy wrapped around every remote call: which exceptions count as
  throttling, and the capped exponential wait between attempts;
- `get`: a read without strong consistency, repeated every 0.1 s while the item
  is missing, for a budget of 1 s;
- `_partition_chunks` and `mget`: the key list is cut into chunks of 100, with
  one batch read per chunk;
- `_batch_get_item`: it asks again for exactly the unprocessed keys until none
  are left, and gathers `id -> result` into one dict;
- the items and requests that `set`, `delete` and `incr` send.

The boto3 table is replaced by an abstract store. Writes act on a `Table`
object whose state is a map from id to stored attribute (module `Store`).
Reads take scripted responses: `get` takes a function from read number to
outcome, and each batch read takes a sequence of pages. This lets replication
lag and unprocessed keys be expressed. Time is counted in integer tenths of a
second: the budget is 10 and the gap is 1.

Modules, one file each: `Retry` (retry.dfy), `Records` (records.dfy), `Store`
(store.dfy), `Chunks` (chunks.dfy), `Batch` (batch.dfy), `Client` (client.dfy).

The model follows the code in these places, even where a reader might expect
otherwise:

- Throttling is recognised by finding the text
  `ProvisionedThroughputExceededException` in the exception's message. It is
  not recognised by a structured error code.
- Errors that are not throttling are passed on unchanged. The comment at
  dyna_veggie/dynamodb_client.py:24 says they are raised wrapped in
  `RetryError`, but `_setting` leaves `retrying`'s `wrap_exception` at its
  default of False, and then `retrying` re-raises the original exception.
- When `get` runs out of budget it returns `None`. It does not raise a distinct
  not-found error.
- The wait after failed attempt `n` is `min(100 * 2^n, 500)` ms, with attempts
  numbered from 1. There is no limit on the number of attempts.
- `incr` on a key with no numeric `result` is not created at 1. The code leaves
  this to the store, and the store model refuses the update with a validation
  error, as DynamoDB does. The counter is seeded with `set(key, 0)` by the
  result backend.
- `mget` returns the ids, not the values (see Findings).
- After the last miss, `get` still sleeps one more gap before it gives up. The
  total pause is 1.1 s, over 11 reads.

## Model

| member | source | states |
|---|---|---|
| Retry.Contains | dyna_veggie/dynamodb_client.py:15 | Python's `pat in s` on strings is true exactly when `pat` occurs in `s` at some index |
| Retry.RetryIfThrottled | dyna_veggie/dynamodb_client.py:10-20 | retry exactly when the exception has a message, is a `ClientError`, and the message contains `ProvisionedThroughputExceededException` |
| Retry.OnlyClientErrorsRetried | dyna_veggie/dynamodb_client.py:14-20 | an exception that is not a `ClientError`, or has no `message`, is never retried |
| Retry.ThrottlingMessageRetried | dyna_veggie/dynamodb_client.py:15-16 | a `ClientError` whose message contains the throttling code anywhere is retried |
| Retry.Delay | dyna_veggie/dynamodb_client.py:23-29 | the wait after failed attempt n is `min(100·2^n, 500)` ms; its contract states that every wait lies between 100 and 500 ms |
| Retry.DelayMonotone | dyna_veggie/dynamodb_client.py:23-29 | the wait never shrinks as the attempt number grows |
| Retry.DelayCapped | dyna_veggie/dynamodb_client.py:23-29 | from the third failed attempt on, the wait stays at the 500 ms cap |
| Retry.DelaySchedule | dyna_veggie/dynamodb_client.py:23-29 | the first waits are 200, 400 and 500 ms |
| Retry.WaitsTotalBound | dyna_veggie/dynamodb_client.py:23-29 | k retries never wait longer than 500·k ms in total |
| Retry.Settled | dyna_veggie/dynamodb_client.py:48-51 | the index of the first attempt the policy does not retry: every earlier one was throttled |
| Retry.CallWithRetry | dyna_veggie/dynamodb_client.py:48-51 | throttled attempts are retried after the exponential waits, in order; the first other outcome is passed on unchanged; there is no attempt limit |
| Retry.FatalErrorNotRetried | dyna_veggie/dynamodb_client.py:24-28 | an error that is not throttling surfaces on the first attempt, with no wait, as the same exception: it is not wrapped in `RetryError`, whatever the comment on line 24 says |
| Retry.EventualSuccess | dyna_veggie/dynamodb_client.py:23-29 | after k throttled attempts the answer comes back, after at most 500·k ms of waiting |
| Records.SetItem | dyna_veggie/dynamodb_client.py:142-160 | the item has id `key`; its result is tagged `Binary` exactly for strings and bytearrays; unwrapped, it is exactly the value given |
| Records.SetItemInjective | dyna_veggie/dynamodb_client.py:142-160 | two `set` calls that write the same item had the same key and value |
| Records.GetRequest | dyna_veggie/dynamodb_client.py:90-95 | definition, no contract: the read of `get` names `{'id': key}` and is not strongly consistent; `Client.DynamoDBClient.Get` states that every read it makes is this request |
| Records.IncrRequest | dyna_veggie/dynamodb_client.py:172-183 | definition, no contract: the update `set #r = #r + :val` with `#r = result`, `:val = 1` and `UPDATED_NEW`; `Store.IncrAddsOne` and `Store.IncrNeedsNumber` state what the store makes of it |
| Records.KeyConditions | dyna_veggie/dynamodb_client.py:107 | the first batch request names each key of the chunk as `{'id': key}`, in order |
| Store.Put | dyna_veggie/dynamodb_client.py:58-61 | definition, no contract: `put_item` stores the item under its id, replacing any record there; `Store.SetThenRead` and `Store.SetLeavesOthers` state its effect |
| Store.Remove | dyna_veggie/dynamodb_client.py:63-66 | definition, no contract: `delete_item` drops the id's record, if any; `Store.DeleteIdempotent` states its effect |
| Store.Lookup | dyna_veggie/dynamodb_client.py:48-51 | definition, no contract: `get_item` on the table's current state yields the id's record or nothing; the scripted reads of `get` may lag it, and `Client.SetThenGet` ties one read to it |
| Store.Update | dyna_veggie/dynamodb_client.py:68-71 | definition, no contract: the store's `update_item` for the one expression the client sends; `Store.IncrAddsOne`, `Store.IncrNeedsNumber` and `Store.CounterAfterSeed` state its effect |
| Store.SetThenRead | dyna_veggie/dynamodb_client.py:142-160 | after `set`, a read of the key sees a record that unwraps to exactly the value set |
| Store.SetLeavesOthers | dyna_veggie/dynamodb_client.py:142-160 | `set` changes no other key |
| Store.DeleteIdempotent | dyna_veggie/dynamodb_client.py:162-168 | deleting with `Key={'id': key}` twice equals deleting once; afterwards the key reads as absent |
| Store.IncrAddsOne | dyna_veggie/dynamodb_client.py:170-185 | the `set #r = #r + :val` update with `:val = 1` adds exactly 1 to a numeric result and answers with the new value |
| Store.IncrNeedsNumber | dyna_veggie/dynamodb_client.py:170-185 | on a key with no numeric result the update is refused, with an error that is not retried |
| Store.CounterAfterSeed | dyna_veggie/dynamodb_client.py:170-185 | a counter seeded by `set(key, 0)` and incremented n times in sequence holds n, and no other key changes |
| Store.Table.PutItem | dyna_veggie/dynamodb_client.py:58-61 | a put overwrites the id's record |
| Store.Table.DeleteItem | dyna_veggie/dynamodb_client.py:63-66 | a delete removes the id, present or not |
| Store.Table.UpdateItem | dyna_veggie/dynamodb_client.py:68-71 | an update either applies and answers with the updated attributes, or raises and leaves the table unchanged |
| Chunks.ChunksFrom | dyna_veggie/dynamodb_client.py:131-132 | every slice from offset x on holds between 1 and `size` items |
| Chunks.Partition | dyna_veggie/dynamodb_client.py:129-132 | every chunk holds between 1 and `size` items, and there are no chunks exactly when the list is empty |
| Chunks.PartitionConcat | dyna_veggie/dynamodb_client.py:129-132 | concatenating the chunks gives the list back |
| Chunks.PartitionShape | dyna_veggie/dynamodb_client.py:129-132 | every chunk but the last has exactly `size` elements |
| Chunks.PartitionCount | dyna_veggie/dynamodb_client.py:129-132 | there are ceil(len/size) chunks, and none for an empty list |
| Chunks.PartitionChunkAt | dyna_veggie/dynamodb_client.py:129-132 | chunk i is the slice `items[i*size : i*size + size]`, cut at the end of the list |
| Batch.LastPage | dyna_veggie/dynamodb_client.py:111-126 | the loop ends at the first answer that raises or has no unprocessed keys |
| Batch.Requests | dyna_veggie/dynamodb_client.py:107-124 | the first request names every key; request n+1 names exactly the keys answer n left unprocessed; every request is strongly consistent on the client's table |
| Batch.BatchOutcome | dyna_veggie/dynamodb_client.py:105-127 | definition, no contract: the first exception among the answers up to the last page, or the dict their records give in order; `Batch.BatchKeys`, `Batch.BatchCovers` and `Batch.BatchLastWins` state what it holds |
| Batch.Absorb | dyna_veggie/dynamodb_client.py:120-121 | definition, no contract: `result[r['id']] = r['result']` for each record in order; `Batch.AbsorbKeys`, `Batch.AbsorbLastWins`, `Batch.AbsorbUntouched` and `Batch.AbsorbFrom` state its effect |
| Batch.AbsorbNextPage | dyna_veggie/dynamodb_client.py:120-121 | gathering one more answered page applies its records, in order, to the dict built from the earlier pages |
| Batch.AbsorbKeys | dyna_veggie/dynamodb_client.py:120-121 | the dict holds exactly its old keys plus the ids of the records |
| Batch.AbsorbLastWins | dyna_veggie/dynamodb_client.py:120-121 | the last record with a given id decides that id's entry |
| Batch.AbsorbUntouched | dyna_veggie/dynamodb_client.py:120-121 | an id that no record names keeps its entry |
| Batch.AbsorbFrom | dyna_veggie/dynamodb_client.py:120-121 | every entry is either an old entry or the result of a record with that id |
| Batch.BatchKeys | dyna_veggie/dynamodb_client.py:105-127 | completeness: the dict has an entry for exactly the ids that appear in the pages, up to the last page |
| Batch.CoveredUpTo | dyna_veggie/dynamodb_client.py:109-124 | when every page answers the keys it was asked for, then after page p the ids gathered so far and the keys still unprocessed lie within the requested keys, and together they cover every requested key the store holds |
| Batch.BatchCovers | dyna_veggie/dynamodb_client.py:105-127 | pagination completeness: when every page answers the keys it was asked for, the dict has an entry for exactly the requested keys the store holds |
| Batch.RequestsWithinKeys | dyna_veggie/dynamodb_client.py:107-124 | when the pages answer their requests and no unprocessed list names a key twice, every request of the loop names at least one key and no more keys than the first request |
| Batch.BatchLastWins | dyna_veggie/dynamodb_client.py:111-127 | a later page overwrites an earlier one: an id maps to its last record in the last page holding it |
| Client.StoreRecords | dyna_veggie/dynamodb_client.py:120-121 | the loop over one page's records leaves the dict that applying them in order gives |
| Client.KeysOf | dyna_veggie/dynamodb_client.py:139 | `list.extend(dict)` appends each key of the dict exactly once, in an unspecified order |
| Client.DynamoDBClient.constructor | dyna_veggie/dynamodb_client.py:35-46 | the client keeps its table and table name; the consistency wait is 1 s |
| Client.DynamoDBClient.Get | dyna_veggie/dynamodb_client.py:73-103 | 1 to 11 reads, all `{'id': key}` and not strongly consistent; every read but the last missed; the answer is the last read's `result` or exception, or None when all 11 missed; one gap is slept per miss |
| Client.DynamoDBClient.BatchGetItem | dyna_veggie/dynamodb_client.py:105-127 | the first request asks for every key; each later one for exactly the previous answer's unprocessed keys; all are strongly consistent on the client's table; the loop stops at the first final answer; the result is the first exception or the accumulated dict |
| Client.DynamoDBClient.MGet | dyna_veggie/dynamodb_client.py:134-140 | one batch read per chunk of 100, in chunk order, each starting with exactly its chunk's keys; when a chunk raises, it is the last chunk read, every earlier chunk returned, and its exception is the result; otherwise the result is each chunk's ids, concatenated in chunk order |
| Client.DynamoDBClient.MGetResults | dyna_veggie/dynamodb_client.py:134-140 | corrected `mget`: the chunk dicts merged in chunk order, or the first exception |
| Client.DynamoDBClient.Set | dyna_veggie/dynamodb_client.py:142-160 | the table gains the `set` item for the key, or is unchanged when the call raised |
| Client.DynamoDBClient.Delete | dyna_veggie/dynamodb_client.py:162-168 | the key's record is removed, or the table is unchanged when the call raised |
| Client.DynamoDBClient.Incr | dyna_veggie/dynamodb_client.py:170-185 | the store applies the increment request, and `incr` returns the value after the update: n+1 for a numeric n |
| Client.Poll | dyna_veggie/dynamodb_client.py:84-103 | definition, no contract: the `get` loop as a recursion over the read number, reading while `n·gap` is within the budget; `Client.PollFindsFirstHit` and `Client.PollGivesUp` state what it answers |
| Client.PollFindsFirstHit | dyna_veggie/dynamodb_client.py:89-99 | polling answers with the first read within the budget that does not miss |
| Client.PollGivesUp | dyna_veggie/dynamodb_client.py:89-103 | when every read within the budget misses, polling answers None |
| Client.GetAfterLag | dyna_veggie/dynamodb_client.py:84-99 | if the first m reads miss (m ≤ 10) and the next sees the record, `get` returns that record's result |
| Client.GetNeverFound | dyna_veggie/dynamodb_client.py:84-103 | if all 11 reads miss, `get` returns None |
| Client.SetThenGet | dyna_veggie/dynamodb_client.py:142-160 | round trip: once a read sees the table written by `set(key, v)`, `get(key)` returns an attribute that unwraps to exactly v |
| Client.MGetChunksWithinLimit | dyna_veggie/dynamodb_client.py:136-137 | the first batch request of each chunk names 1 to 100 keys |
| Client.MGetRequestsWithinLimit | dyna_veggie/dynamodb_client.py:105-124 | every batch request `mget` sends for a chunk, the first and each re-request of unprocessed keys, names 1 to 100 keys, when the pages answer their requests and no unprocessed list names a key twice |
| Client.ChunkDictKeys | dyna_veggie/dynamodb_client.py:105-127 | when every page answers the keys it was asked for, a chunk's dict has an entry for exactly the chunk's keys that the store holds |
| Client.MGetReturnsEveryKey | dyna_veggie/dynamodb_client.py:134-140 | when every page answers the keys it was asked for, every requested key is stored, and no chunk repeats a key, the list `mget` returns is a permutation of the requested keys |
| Client.MGetListsIdsNotResults | dyna_veggie/dynamodb_client.py:139 | as written, a table whose record `a` holds 7 makes `mget(['a'])` return `['a']`, not 7 |
| Client.Merged | dyna_veggie/dynamodb_client.py:134-140 | definition, no contract: the chunk dicts merged in chunk order, a later chunk winning; `Client.MGetResultsAreStored` states what it holds |
| Client.MGetResultsAreStored | dyna_veggie/dynamodb_client.py:134-140 | corrected `mget`: when every page answers the keys it was asked for and holds what the table holds, the result maps exactly the requested keys the table holds, each to the table's stored result |

## Left out

- Creating the boto3 session, resource and table (dyna_veggie/dynamodb_client.py:35-45) is foreign code. The table is the abstract `Store.Table`, and the region, credentials and port are not modelled.
- The `retrying` decorator is library code that is not part of this model. `Retry.CallWithRetry` models its behaviour under the settings shown: retry on the classifier, exponential wait, no stop condition. It runs over a finite script and answers None when the script ends while the store still throttles.
- Client.DynamoDBClient.Get: the retry policy is not composed into each client call. Get and BatchGetItem take the outcome each call has once the policy is done, and Set, Delete and Incr take the exception it ended in, if any.
- Real `sleep` and floating-point time are left out. Time is integer tenths of a second, which gives the same 11 reads as the float sum in the source.
- Client.DynamoDBClient.BatchGetItem requires that the scripted answers end the loop, because the source loop has no bound of its own. A store that never stops returning unprocessed keys is not modelled.
- Client.DynamoDBClient.BatchGetItem: answers are modelled only for the client's own table. `Responses[table]` and `UnprocessedKeys[table]['Keys']` are taken as present, so the `KeyError` of a malformed answer is not modelled. An `UnprocessedKeys` entry with an empty key list counts as no unprocessed keys.
- Client.DynamoDBClient.Get: an `Item` is a record or absent. An empty dict item and a record without `result` (a `KeyError`) are not modelled, because every record the client writes has both attributes.
- Client.DynamoDBClient.Incr: the `KeyError` branch for a response without `result` cannot occur with the store model, which always answers `UPDATED_NEW` with the attribute.
- The atomicity of `incr` under concurrent callers is a guarantee of the store, not of this code. Only increments in sequence are modelled.
- `Binary` is an opaque tag, and how it is encoded on the wire is not modelled.
- Records.SetItem: Python 2 `str` and `unicode` are one `PyString`. boto3's `Binary` accepts only `str` and `bytearray` on Python 2, so `set(key, u'...')` raises `TypeError` there. The model does not capture that error: it stores every string. The round trips of `Store.SetThenRead` and `Client.SetThenGet` therefore stand for `str` and `bytearray` values, not for `unicode`.
- `Decimal` values are integers. `PyValue` covers strings, bytearrays, integers and None only: a float (which boto3's serializer refuses with `TypeError`), a bool, a list or a dict handed to `set` is not modelled.
- Client.DynamoDBClient.Set: `set` and `delete` return the SDK's response dict (dyna_veggie/dynamodb_client.py:148, 155, 164). `Set` and `Delete` return only success or the exception, because the content of that dict comes from the SDK, which is not part of this model.
- dyna_veggie/result_backend.py delegates to the client, and its URL parsing is foreign code, so it is not part of this model. Neither is backend.py, an older revision that does not import and whose `get` loop is unbounded, nor setup.py.

## Findings

| source | as written | input that shows it | evidently intended | confidence | as-written member | corrected member |
|---|---|---|---|---|---|---|
| dyna_veggie/dynamodb_client.py:139 | `result.extend(self._batch_get_item(chunk))` extends a list with a dict, which appends the dict's keys, so `mget` returns the ids it found, in arbitrary order | a table where id `a` holds 7: `mget(['a'])` returns `['a']` | return the stored results, as `get` does, gathered into one `id -> result` dict | medium, not executed | Client.MGetListsIdsNotResults | Client.MGetResultsAreStored |
