/** `DynamoDBClient`: the get/mget/set/delete/incr facade over one table.
    Time is counted in tenths of a second. Every remote call goes through
    the retry policy of module Retry; the client sees what the policy
    finally yields, so reads take the scripted outcomes of successive calls
    and writes take the exception, if any, that the call ended in. */
module Client {
  import opened Retry
  import opened Records
  import opened Store
  import opened Chunks
  import opened Batch

  /** Pause between two reads of `get`, in tenths of a second (0.1 s). */
  const GAP := 1

  /** A read of `get` that found no item. */
  predicate Miss(o: Outcome<Option<Record>>)
  {
    o.Returned? && o.value.None?
  }

  /** What `get` makes of a read that did not miss. */
  function Answer(o: Outcome<Option<Record>>): Outcome<Option<AttrValue>>
    requires !Miss(o)
  {
    if o.Raised? then Raised(o.error) else Returned(Some(o.value.value.result))
  }

  /** The polling of `get` from read number `n` on, given a budget in tenths
      of a second: the answer of the first read that does not miss, or
      None once the budget is spent. */
  function Poll(responses: nat -> Outcome<Option<Record>>, budget: nat, n: nat): Outcome<Option<AttrValue>>
    decreases budget + GAP - n * GAP
  {
    if n * GAP > budget then Returned(None)
    else if Miss(responses(n)) then Poll(responses, budget, n + 1)
    else Answer(responses(n))
  }

  /** `ks` lists the keys of `s`, each once, in some order. */
  predicate Lists(ks: seq<Key>, s: set<Key>)
  {
    multiset(ks) == multiset(s)
  }

  /** Every chunk's batch read came back with a dict. */
  predicate AllAnswered(scripts: seq<seq<Outcome<BatchResponse>>>)
  {
    forall i :: 0 <= i < |scripts| ==> Terminates(scripts[i]) && BatchOutcome(scripts[i]).Returned?
  }

  /** The chunk dicts merged in chunk order, a later chunk winning. */
  function Merged(scripts: seq<seq<Outcome<BatchResponse>>>): map<Key, AttrValue>
    requires AllAnswered(scripts)
  {
    if scripts == [] then map[]
    else
      var init := scripts[..|scripts| - 1];
      assert forall i :: 0 <= i < |init| ==> init[i] == scripts[i];
      Merged(init) + BatchOutcome(scripts[|scripts| - 1]).value
  }

  /** One more answered chunk extends the merge by its dict. */
  lemma MergedStep(scripts: seq<seq<Outcome<BatchResponse>>>, i: nat)
    requires i < |scripts| && AllAnswered(scripts[..i])
    requires Terminates(scripts[i]) && BatchOutcome(scripts[i]).Returned?
    ensures AllAnswered(scripts[..i + 1])
    ensures Merged(scripts[..i + 1]) == Merged(scripts[..i]) + BatchOutcome(scripts[i]).value
  {
    assert scripts[..i + 1][..i] == scripts[..i];
  }

  /** `list.extend(d)` for a dict `d` appends its keys, in the dict's
      iteration order, which Python 2 leaves unspecified. */
  method KeysOf(m: map<Key, AttrValue>) returns (ks: seq<Key>)
    ensures Lists(ks, m.Keys)
  {
    ks := [];
    var rest := m.Keys;
    while rest != {}
      invariant rest <= m.Keys
      invariant multiset(ks) == multiset(m.Keys - rest)
      decreases rest
    {
      var k :| k in rest;
      assert m.Keys - (rest - {k}) == (m.Keys - rest) + {k};
      assert multiset((m.Keys - rest) + {k}) == multiset(m.Keys - rest) + multiset{k};
      ks := ks + [k];
      rest := rest - {k};
    }
  }

  /** The first final answer is the last page. */
  lemma FinalIsLast(script: seq<Outcome<BatchResponse>>, page: nat)
    requires Terminates(script) && page <= LastPage(script) && Final(script[page])
    ensures page == LastPage(script)
  {
  }

  /** The loop `for r in ...: result[r['id']] = r['result']` over one page. */
  method StoreRecords(acc: map<Key, AttrValue>, records: seq<Record>) returns (m: map<Key, AttrValue>)
    ensures m == Absorb(acc, records)
  {
    m := acc;
    for j := 0 to |records|
      invariant m == Absorb(acc, records[..j])
    {
      assert records[..j + 1][..j] == records[..j];
      m := m[records[j].id := records[j].result];
    }
    assert records[..|records|] == records;
  }

  class DynamoDBClient {
    const table: Table
    const tableName: string
    /** How long `get` keeps polling for an absent item: one second. */
    const consistencyWaitTime: nat := 10

    constructor (table: Table, tableName: string)
      ensures this.table == table && this.tableName == tableName
    {
      this.table := table;
      this.tableName := tableName;
    }

    /** `get`: read without strong consistency until the item shows up,
        pausing GAP after every miss, for as long as the wait so far is
        within `consistencyWaitTime`. `responses(n)` is what read number `n`
        yields; `slept` is the total pause. */
    method Get(key: Key, responses: nat -> Outcome<Option<Record>>)
      returns (r: Outcome<Option<AttrValue>>, sent: seq<GetItemRequest>, slept: nat)
      ensures 1 <= |sent| <= consistencyWaitTime / GAP + 1
      ensures forall i :: 0 <= i < |sent| ==> sent[i] == GetRequest(key)
      ensures forall i :: 0 <= i < |sent| - 1 ==> Miss(responses(i))
      ensures Miss(responses(|sent| - 1)) ==> |sent| == consistencyWaitTime / GAP + 1 && r == Returned(None)
      ensures !Miss(responses(|sent| - 1)) ==> r == Answer(responses(|sent| - 1))
      ensures slept == GAP * (if Miss(responses(|sent| - 1)) then |sent| else |sent| - 1)
      ensures r == Poll(responses, consistencyWaitTime, 0)
    {
      var notPresented := true;
      var waitTime := 0;
      var maxWaitTime := consistencyWaitTime;
      var gap := GAP;
      sent := [];
      slept := 0;
      while notPresented && waitTime <= maxWaitTime
        invariant notPresented
        invariant waitTime == |sent| * GAP == slept
        invariant waitTime <= maxWaitTime + GAP
        invariant forall i :: 0 <= i < |sent| ==> sent[i] == GetRequest(key) && Miss(responses(i))
        invariant Poll(responses, maxWaitTime, |sent|) == Poll(responses, maxWaitTime, 0)
        decreases maxWaitTime + GAP - waitTime
      {
        var request := GetRequest(key);
        sent := sent + [request];
        var response := responses(|sent| - 1);
        if response.Raised? {
          return Raised(response.error), sent, slept;
        }
        var item := response.value;
        if item.Some? {
          notPresented := false;
          return Returned(Some(item.value.result)), sent, slept;
        } else {
          slept := slept + gap;
          waitTime := waitTime + gap;
        }
      }
      r := Returned(None);
    }

    /** `_batch_get_item`: ask for every key of the chunk, then for exactly
        the keys the previous answer left unprocessed, until an answer
        leaves none; `script[n]` is what request number `n` yields. The
        loop ends only when the store does, hence the precondition. */
    method BatchGetItem(keys: seq<Key>, script: seq<Outcome<BatchResponse>>)
      returns (r: Outcome<map<Key, AttrValue>>, sent: seq<BatchGetRequest>)
      requires Terminates(script)
      ensures r == BatchOutcome(script)
      ensures |sent| == LastPage(script) + 1
      ensures sent[0].keys == KeyConditions(keys)
      ensures forall i :: 0 < i < |sent| ==> sent[i].keys == Unprocessed(script[i - 1])
      ensures forall i :: 0 <= i < |sent| ==> sent[i].tableName == tableName && sent[i].consistentRead
    {
      var result: map<Key, AttrValue> := map[];
      var remainingKeys := KeyConditions(keys);
      var page := 0;
      ghost var last := LastPage(script);
      sent := [];
      while true
        invariant page <= last
        invariant sent == Requests(tableName, KeyConditions(keys), script, page)
        invariant remainingKeys == if page == 0 then KeyConditions(keys) else script[page - 1].value.unprocessedKeys
        invariant result == Absorb(map[], PageRecords(script[..page]))
        decreases last - page
      {
        sent := sent + [BatchGetRequest(tableName, remainingKeys, true)];
        var response := script[page];
        if response.Raised? {
          FinalIsLast(script, page);
          return Raised(response.error), sent;
        }
        result := StoreRecords(result, response.value.items);
        AbsorbNextPage(script, page);
        if response.value.unprocessedKeys != [] {
          remainingKeys := response.value.unprocessedKeys;
          page := page + 1;
        } else {
          FinalIsLast(script, page);
          break;
        }
      }
      r := Returned(result);
    }

    /** `mget`: one batch read per chunk of at most BATCH_LIMIT keys, in
        chunk order, appending the ids each returns; the first exception
        aborts the whole call. `scripts[i]` answers chunk `i`.
        `pieces[i]` is what chunk `i` appended. */
    method MGet(keys: seq<Key>, scripts: seq<seq<Outcome<BatchResponse>>>)
      returns (r: Outcome<seq<Key>>, started: seq<seq<KeyCondition>>, ghost pieces: seq<seq<Key>>)
      requires |scripts| == |Partition(keys, BATCH_LIMIT)|
      requires forall i :: 0 <= i < |scripts| ==> Terminates(scripts[i])
      ensures r.Returned? <==> forall i :: 0 <= i < |scripts| ==> BatchOutcome(scripts[i]).Returned?
      ensures r.Raised? ==> exists i :: 0 <= i < |scripts| && BatchOutcome(scripts[i]) == Raised(r.error)
                                && forall j :: 0 <= j < i ==> BatchOutcome(scripts[j]).Returned?
      ensures r.Returned? ==> && |pieces| == |scripts| && r.value == Flatten(pieces)
                              && forall i :: 0 <= i < |scripts| ==> Lists(pieces[i], BatchOutcome(scripts[i]).value.Keys)
      ensures |started| <= |scripts|
      ensures r.Returned? ==> |started| == |scripts|
      ensures r.Raised? ==> && 0 < |started| && BatchOutcome(scripts[|started| - 1]) == Raised(r.error)
                            && forall j :: 0 <= j < |started| - 1 ==> BatchOutcome(scripts[j]).Returned?
      ensures forall i :: 0 <= i < |started| ==> started[i] == KeyConditions(Partition(keys, BATCH_LIMIT)[i])
    {
      var result: seq<Key> := [];
      var chunks := Partition(keys, BATCH_LIMIT);
      started := [];
      pieces := [];
      for i := 0 to |chunks|
        invariant |started| == |pieces| == i
        invariant result == Flatten(pieces)
        invariant forall j :: 0 <= j < i ==> BatchOutcome(scripts[j]).Returned?
        invariant forall j :: 0 <= j < i ==> Lists(pieces[j], BatchOutcome(scripts[j]).value.Keys)
        invariant forall j :: 0 <= j < i ==> started[j] == KeyConditions(chunks[j])
      {
        ghost var begun, listed := started, pieces;
        var batch, sent := BatchGetItem(chunks[i], scripts[i]);
        started := started + [sent[0].keys];
        forall j | 0 <= j <= i ensures started[j] == KeyConditions(chunks[j]) {
          if j < i { assert started[j] == begun[j]; }
        }
        if batch.Raised? {
          return Raised(batch.error), started, pieces;
        }
        var ids := KeysOf(batch.value);
        FlattenAppend(pieces, ids);
        result := result + ids;
        pieces := pieces + [ids];
        forall j | 0 <= j <= i
          ensures BatchOutcome(scripts[j]).Returned? && Lists(pieces[j], BatchOutcome(scripts[j]).value.Keys)
        {
          if j < i { assert pieces[j] == listed[j]; }
        }
      }
      r := Returned(result);
    }

    /** `mget` as evidently intended: the results stored under the keys,
        gathered chunk by chunk into one dict `id -> result`, instead of
        the list of ids that `list.extend` makes of each chunk's dict. */
    method MGetResults(keys: seq<Key>, scripts: seq<seq<Outcome<BatchResponse>>>)
      returns (r: Outcome<map<Key, AttrValue>>)
      requires |scripts| == |Partition(keys, BATCH_LIMIT)|
      requires forall i :: 0 <= i < |scripts| ==> Terminates(scripts[i])
      ensures r.Returned? <==> AllAnswered(scripts)
      ensures r.Raised? ==> exists i :: 0 <= i < |scripts| && BatchOutcome(scripts[i]) == Raised(r.error)
                                && forall j :: 0 <= j < i ==> BatchOutcome(scripts[j]).Returned?
      ensures r.Returned? ==> r.value == Merged(scripts)
    {
      var result: map<Key, AttrValue> := map[];
      var chunks := Partition(keys, BATCH_LIMIT);
      for i := 0 to |chunks|
        invariant AllAnswered(scripts[..i])
        invariant result == Merged(scripts[..i])
      {
        var batch, _ := BatchGetItem(chunks[i], scripts[i]);
        if batch.Raised? {
          assert forall j :: 0 <= j < i ==> scripts[..i][j] == scripts[j];
          assert BatchOutcome(scripts[i]) == Raised(batch.error);
          return Raised(batch.error);
        }
        MergedStep(scripts, i);
        result := result + batch.value;
      }
      assert scripts[..|chunks|] == scripts;
      r := Returned(result);
    }

    /** `set`: write `{id, result}`, overwriting; `fault` is the exception
        the call ended in, if it did not succeed. */
    method Set(key: Key, value: PyValue, fault: Option<Exception>) returns (r: Outcome<()>)
      modifies table
      ensures fault.None? ==> r == Returned(()) && table.items == Put(old(table.items), SetItem(key, value))
      ensures fault.Some? ==> r == Raised(fault.value) && table.items == old(table.items)
    {
      if fault.Some? {
        return Raised(fault.value);
      }
      table.PutItem(SetItem(key, value));
      r := Returned(());
    }

    /** `delete`: remove the record of `key`, absent or not. */
    method Delete(key: Key, fault: Option<Exception>) returns (r: Outcome<()>)
      modifies table
      ensures fault.None? ==> r == Returned(()) && table.items == Remove(old(table.items), KeyCondition(key))
      ensures fault.Some? ==> r == Raised(fault.value) && table.items == old(table.items)
    {
      if fault.Some? {
        return Raised(fault.value);
      }
      table.DeleteItem(KeyCondition(key));
      r := Returned(());
    }

    /** `incr`: the store adds 1 to `result` and the client returns
        `response['Attributes']['result']`, the value after the update. */
    method Incr(key: Key, fault: Option<Exception>) returns (r: Outcome<AttrValue>)
      modifies table
      ensures fault.Some? ==> r == Raised(fault.value) && table.items == old(table.items)
      ensures fault.None? ==>
                var u := Update(old(table.items), IncrRequest(key));
                if u.Raised? then r == Raised(u.error) && table.items == old(table.items)
                else table.items == u.value.items && key in table.items && r == Returned(table.items[key])
      ensures fault.None? && key in old(table.items) && IsNumber(old(table.items)[key]) ==>
                r == Returned(Plain(PyNumber(old(table.items)[key].value.n + 1)))
    {
      if fault.Some? {
        return Raised(fault.value);
      }
      ghost var before := table.items;
      var response := table.UpdateItem(IncrRequest(key));
      if response.Raised? {
        return Raised(response.error);
      }
      var attributes := response.value;
      if RESULT !in attributes {
        assert false;
        return Raised(Exception(OtherError("KeyError"), Some(RESULT)));
      }
      r := Returned(attributes[RESULT]);
      if key in before && IsNumber(before[key]) {
        IncrAddsOne(before, key, before[key].value.n);
      }
    }
  }

  lemma {:induction false} FlattenAppend(pieces: seq<seq<Key>>, last: seq<Key>)
    ensures Flatten(pieces + [last]) == Flatten(pieces) + last
    decreases |pieces|
  {
    if pieces == [] {
      assert [last][1..] == [];
    } else {
      assert (pieces + [last])[1..] == pieces[1..] + [last];
      FlattenAppend(pieces[1..], last);
    }
  }

  /** Polling from read `n` on answers with the first read that does not
      miss, provided it comes within the budget. */
  lemma {:induction false} PollFindsFirstHit(responses: nat -> Outcome<Option<Record>>, budget: nat, n: nat, m: nat)
    requires n <= m && m * GAP <= budget
    requires forall i :: n <= i < m ==> Miss(responses(i))
    requires !Miss(responses(m))
    ensures Poll(responses, budget, n) == Answer(responses(m))
    decreases m - n
  {
    if n < m {
      PollFindsFirstHit(responses, budget, n + 1, m);
    }
  }

  /** Polling from read `n` on gives None when every read within the
      budget misses. */
  lemma {:induction false} PollGivesUp(responses: nat -> Outcome<Option<Record>>, budget: nat, n: nat)
    requires forall i :: n <= i && i * GAP <= budget ==> Miss(responses(i))
    ensures Poll(responses, budget, n) == Returned(None)
    decreases budget + GAP - n * GAP
  {
    if n * GAP <= budget {
      PollGivesUp(responses, budget, n + 1);
    }
  }

  /** Replication lag: when the first `m` reads (m within the one-second
      budget) miss and the next one sees the item, `get` answers with its
      result. */
  lemma {:induction false} GetAfterLag(responses: nat -> Outcome<Option<Record>>, m: nat, rec: Record)
    requires m <= 10
    requires forall i :: 0 <= i < m ==> Miss(responses(i))
    requires responses(m) == Returned(Some(rec))
    ensures Poll(responses, 10, 0) == Returned(Some(rec.result))
  {
    PollFindsFirstHit(responses, 10, 0, m);
  }

  /** An item that never shows up within the budget makes `get` answer None. */
  lemma {:induction false} GetNeverFound(responses: nat -> Outcome<Option<Record>>)
    requires forall i :: 0 <= i <= 10 ==> Miss(responses(i))
    ensures Poll(responses, 10, 0) == Returned(None)
  {
    PollGivesUp(responses, 10, 0);
  }

  /** Round trip: once a read sees the table written by `set(key, value)`,
      `get(key)` answers with an attribute that unwraps to exactly `value`. */
  lemma {:induction false} SetThenGet(items: Items, key: Key, value: PyValue, m: nat,
                                      responses: nat -> Outcome<Option<Record>>)
    requires m <= 10
    requires forall i :: 0 <= i < m ==> Miss(responses(i))
    requires responses(m) == Returned(Lookup(Put(items, SetItem(key, value)), KeyCondition(key)))
    ensures var r := Poll(responses, 10, 0);
            r.Returned? && r.value.Some? && Unwrap(r.value.value) == value
  {
    SetThenRead(items, key, value);
    PollFindsFirstHit(responses, 10, 0, 0 + m);
  }

  /** Every batch request of `mget` stays within the store's limit. */
  lemma {:induction false} MGetChunksWithinLimit(keys: seq<Key>, i: nat)
    requires i < |Partition(keys, BATCH_LIMIT)|
    ensures 0 < |KeyConditions(Partition(keys, BATCH_LIMIT)[i])| <= BATCH_LIMIT
  {
  }

  /** Every batch request `mget` sends for a chunk, the first and every
      re-request of unprocessed keys, names 1 to 100 keys, when the pages
      answer their requests and no unprocessed list names a key twice. */
  lemma {:induction false} MGetRequestsWithinLimit(tableName: string, keys: seq<Key>, c: nat,
                                                   script: seq<Outcome<BatchResponse>>, stored: set<Key>)
    requires c < |Partition(keys, BATCH_LIMIT)|
    requires Terminates(script) && Answers(KeyConditions(Partition(keys, BATCH_LIMIT)[c]), script, stored)
    requires forall i :: 0 <= i < LastPage(script) ==> NoRepeats(Unprocessed(script[i]))
    ensures var rs := Requests(tableName, KeyConditions(Partition(keys, BATCH_LIMIT)[c]), script, LastPage(script) + 1);
            forall i :: 0 <= i < |rs| ==> 0 < |rs[i].keys| <= BATCH_LIMIT
  {
    var first := KeyConditions(Partition(keys, BATCH_LIMIT)[c]);
    RequestsWithinKeys(tableName, first, script, stored);
  }

  ghost predicate Distinct(s: seq<Key>)
  {
    forall i, j :: 0 <= i < j < |s| ==> s[i] != s[j]
  }

  lemma {:induction false} DistinctMultiplicity(a: seq<Key>, x: Key)
    requires Distinct(a)
    ensures multiset(a)[x] == if x in a then 1 else 0
    decreases |a|
  {
    if a != [] {
      assert a == [a[0]] + a[1..];
      assert Distinct(a[1..]) by {
        forall i, j | 0 <= i < j < |a[1..]| ensures a[1..][i] != a[1..][j] {
          assert a[1..][i] == a[i + 1] && a[1..][j] == a[j + 1];
        }
      }
      assert a[0] !in a[1..] by {
        forall j | 0 <= j < |a[1..]| ensures a[1..][j] != a[0] { assert a[1..][j] == a[j + 1]; }
      }
      DistinctMultiplicity(a[1..], x);
    }
  }

  /** A list without repetitions lists exactly the set of its elements. */
  lemma {:induction false} DistinctLists(a: seq<Key>, s: set<Key>)
    requires Distinct(a)
    requires forall x :: x in a <==> x in s
    ensures Lists(a, s)
  {
    forall x ensures multiset(a)[x] == multiset(s)[x] {
      DistinctMultiplicity(a, x);
    }
  }

  lemma {:induction false} FlattenMultiset(xs: seq<seq<Key>>, ys: seq<seq<Key>>)
    requires |xs| == |ys|
    requires forall i :: 0 <= i < |xs| ==> multiset(xs[i]) == multiset(ys[i])
    ensures multiset(Flatten(xs)) == multiset(Flatten(ys))
    decreases |xs|
  {
    if xs != [] {
      FlattenMultiset(xs[1..], ys[1..]);
    }
  }

  /** The ids a batch read's key list names are the chunk's keys. */
  lemma {:induction false} KeyConditionIds(chunk: seq<Key>)
    ensures forall k :: k in KeyIds(KeyConditions(chunk)) <==> k in chunk
  {
    var ks := KeyConditions(chunk);
    forall k ensures k in KeyIds(ks) <==> k in chunk {
      if k in chunk {
        var i :| 0 <= i < |chunk| && chunk[i] == k;
        assert ks[i] in ks;
      }
      if k in KeyIds(ks) {
        var c :| c in ks && c.id == k;
        var i :| 0 <= i < |ks| && ks[i] == c;
        assert chunk[i] == k;
      }
    }
  }

  /** A chunk's dict holds exactly the chunk's keys that the store holds,
      when every page answers its request. */
  lemma {:induction false} ChunkDictKeys(chunk: seq<Key>, script: seq<Outcome<BatchResponse>>, stored: set<Key>)
    requires Terminates(script) && BatchOutcome(script).Returned?
    requires Answers(KeyConditions(chunk), script, stored)
    ensures forall k :: k in BatchOutcome(script).value <==> k in chunk && k in stored
  {
    BatchCovers(KeyConditions(chunk), script, stored);
    KeyConditionIds(chunk);
  }

  /** Pagination completeness of `mget`: when every requested key is
      stored and every page answers its request, the ids `mget` returns
      are the requested keys, each as often as it was requested. */
  lemma {:induction false} MGetReturnsEveryKey(keys: seq<Key>, scripts: seq<seq<Outcome<BatchResponse>>>,
                                               pieces: seq<seq<Key>>, stored: set<Key>)
    requires |scripts| == |pieces| == |Partition(keys, BATCH_LIMIT)|
    requires forall i :: 0 <= i < |scripts| ==> Distinct(Partition(keys, BATCH_LIMIT)[i])
    requires forall k :: k in keys ==> k in stored
    requires forall i :: 0 <= i < |scripts| ==>
               && Terminates(scripts[i]) && BatchOutcome(scripts[i]).Returned?
               && Answers(KeyConditions(Partition(keys, BATCH_LIMIT)[i]), scripts[i], stored)
    requires forall i :: 0 <= i < |scripts| ==> Lists(pieces[i], BatchOutcome(scripts[i]).value.Keys)
    ensures multiset(Flatten(pieces)) == multiset(keys)
  {
    var chunks := Partition(keys, BATCH_LIMIT);
    PartitionConcat(keys, BATCH_LIMIT);
    forall i | 0 <= i < |chunks| ensures multiset(pieces[i]) == multiset(chunks[i]) {
      ChunkDictKeys(chunks[i], scripts[i], stored);
      forall k | k in chunks[i] ensures k in stored {
        InFlatten(chunks, k);
      }
      DistinctLists(chunks[i], BatchOutcome(scripts[i]).value.Keys);
    }
    FlattenMultiset(pieces, chunks);
  }

  /** `mget` as written hands back ids: a one-key table whose record holds
      7 yields the list ["a"], whatever order the dict is walked in. */
  lemma MGetListsIdsNotResults()
    ensures var script := [Returned(BatchResponse([Record("a", Plain(PyNumber(7)))], []))];
            && Terminates(script)
            && BatchOutcome(script) == Returned(map["a" := Plain(PyNumber(7))])
            && forall ks :: Lists(ks, BatchOutcome(script).value.Keys) ==> Flatten([ks]) == ["a"]
  {
    var rec := Record("a", Plain(PyNumber(7)));
    var script := [Returned(BatchResponse([rec], []))];
    assert Final(script[0]);
    assert LastPage(script) == 0;
    assert script[..1] == script;
    assert PageRecords(script) == PageRecords(script[..0]) + [rec];
    assert Absorb(map[], [rec]) == Absorb(map[], [rec][..0])[rec.id := rec.result];
    assert BatchOutcome(script).value.Keys == {"a"};
    forall ks | Lists(ks, {"a"}) ensures Flatten([ks]) == ["a"] {
      SingletonListing(ks, "a");
      assert [ks][1..] == [];
    }
  }

  lemma {:induction false} SingletonListing(ks: seq<Key>, x: Key)
    requires Lists(ks, {x})
    ensures ks == [x]
  {
    assert multiset({x}) == multiset{x};
    assert |ks| == |multiset(ks)| == 1;
    assert ks[0] in multiset(ks);
  }

  lemma {:induction false} MergedKeys(scripts: seq<seq<Outcome<BatchResponse>>>, k: Key)
    requires AllAnswered(scripts)
    ensures k in Merged(scripts) <==> exists i :: 0 <= i < |scripts| && k in BatchOutcome(scripts[i]).value
    decreases |scripts|
  {
    if scripts != [] {
      var n := |scripts| - 1;
      var init := scripts[..n];
      assert forall i :: 0 <= i < n ==> init[i] == scripts[i];
      assert AllAnswered(init);
      var lastValue := BatchOutcome(scripts[n]).value;
      assert Merged(scripts) == Merged(init) + lastValue;
      MergedKeys(init, k);
      if k in Merged(init) {
        var i :| 0 <= i < n && k in BatchOutcome(init[i]).value;
        assert k in BatchOutcome(scripts[i]).value;
      } else if k !in lastValue {
        forall i | 0 <= i < |scripts| ensures k !in BatchOutcome(scripts[i]).value {
          if i < n { assert init[i] == scripts[i]; }
        }
      }
    }
  }

  /** The chunk whose dict gave the merged entry of `k`. */
  lemma {:induction false} MergedFrom(scripts: seq<seq<Outcome<BatchResponse>>>, k: Key) returns (c: nat)
    requires AllAnswered(scripts) && k in Merged(scripts)
    ensures c < |scripts| && k in BatchOutcome(scripts[c]).value
    ensures Merged(scripts)[k] == BatchOutcome(scripts[c]).value[k]
    decreases |scripts|
  {
    var init := scripts[..|scripts| - 1];
    c := |scripts| - 1;
    if k !in BatchOutcome(scripts[c]).value {
      c := MergedFrom(init, k);
      assert init[c] == scripts[c];
    }
  }

  /** The page record that gave a batch read's entry for `k`. */
  lemma {:induction false} BatchValueFromPage(script: seq<Outcome<BatchResponse>>, k: Key) returns (r: Record)
    requires Terminates(script) && BatchOutcome(script).Returned? && k in BatchOutcome(script).value
    ensures r in PageRecords(script[..LastPage(script) + 1]) && r.id == k
    ensures BatchOutcome(script).value[k] == r.result
  {
    AbsorbFrom(map[], PageRecords(script[..LastPage(script) + 1]), k);
    r :| r in PageRecords(script[..LastPage(script) + 1]) && r.id == k
         && BatchOutcome(script).value[k] == r.result;
  }

  lemma {:induction false} InFlatten(chunks: seq<seq<Key>>, k: Key)
    ensures k in Flatten(chunks) <==> exists c :: 0 <= c < |chunks| && k in chunks[c]
    decreases |chunks|
  {
    if chunks != [] {
      InFlatten(chunks[1..], k);
      if exists c :: 0 <= c < |chunks| && k in chunks[c] {
        var c :| 0 <= c < |chunks| && k in chunks[c];
        if c > 0 { assert chunks[1..][c - 1] == chunks[c]; }
      }
      if exists c :: 0 <= c < |chunks[1..]| && k in chunks[1..][c] {
        var c :| 0 <= c < |chunks[1..]| && k in chunks[1..][c];
        assert chunks[c + 1] == chunks[1..][c];
      }
    }
  }

  /** The batch pages agree with the table: every record a chunk's read
      returned holds the table's result for its id. */
  ghost predicate PagesAgree(scripts: seq<seq<Outcome<BatchResponse>>>, items: Items)
  {
    forall c, r :: 0 <= c < |scripts| && Terminates(scripts[c])
                   && r in PageRecords(scripts[c][..LastPage(scripts[c]) + 1])
                   ==> r.id in items && r.result == items[r.id]
  }

  /** The merged dict has an entry for exactly the requested keys the
      table holds. */
  lemma {:induction false} MergedKeyRequested(keys: seq<Key>, scripts: seq<seq<Outcome<BatchResponse>>>,
                                              items: Items, k: Key)
    requires |scripts| == |Partition(keys, BATCH_LIMIT)|
    requires AllAnswered(scripts)
    requires forall c :: 0 <= c < |scripts| ==> Answers(KeyConditions(Partition(keys, BATCH_LIMIT)[c]), scripts[c], items.Keys)
    ensures k in Merged(scripts) <==> k in keys && k in items
  {
    var chunks := Partition(keys, BATCH_LIMIT);
    PartitionConcat(keys, BATCH_LIMIT);
    MergedKeys(scripts, k);
    InFlatten(chunks, k);
    forall c | 0 <= c < |scripts|
      ensures k in BatchOutcome(scripts[c]).value <==> k in chunks[c] && k in items
    {
      ChunkDictKeys(chunks[c], scripts[c], items.Keys);
    }
  }

  /** An entry of the merged dict holds what the table holds. */
  lemma {:induction false} MergedValueStored(scripts: seq<seq<Outcome<BatchResponse>>>, items: Items, k: Key)
    requires AllAnswered(scripts) && PagesAgree(scripts, items)
    requires k in Merged(scripts)
    ensures k in items && Merged(scripts)[k] == items[k]
  {
    var c := MergedFrom(scripts, k);
    var r := BatchValueFromPage(scripts[c], k);
    assert r.id in items && r.result == items[r.id];
  }

  /** The intended `mget`: when every page answers its request and holds
      what the table holds, the result maps exactly the requested keys the
      table holds, each to the result the table holds for it. */
  lemma {:induction false} MGetResultsAreStored(keys: seq<Key>, scripts: seq<seq<Outcome<BatchResponse>>>, items: Items)
    requires |scripts| == |Partition(keys, BATCH_LIMIT)|
    requires AllAnswered(scripts)
    requires forall c :: 0 <= c < |scripts| ==> Answers(KeyConditions(Partition(keys, BATCH_LIMIT)[c]), scripts[c], items.Keys)
    requires PagesAgree(scripts, items)
    ensures forall k :: k in Merged(scripts) <==> k in keys && k in items
    ensures forall k :: k in Merged(scripts) ==> k in items && Merged(scripts)[k] == items[k]
  {
    forall k ensures k in Merged(scripts) <==> k in keys && k in items {
      MergedKeyRequested(keys, scripts, items, k);
    }
    forall k | k in Merged(scripts) ensures k in items && Merged(scripts)[k] == items[k] {
      MergedValueStored(scripts, items, k);
    }
  }
}
