/** The pagination of `_batch_get_item`: the store may answer a batch
    read with only part of the records plus the keys it left
    unprocessed; the client asks again for exactly those keys until none
    are left, gathering `id -> result` into one dict. */
module Batch {
  import opened Retry
  import opened Records

  /** One page of a batch answer for the client's table:
      `Responses[table]` and `UnprocessedKeys[table]['Keys']`, the latter
      empty when the answer has no unprocessed keys. */
  datatype BatchResponse = BatchResponse(items: seq<Record>, unprocessedKeys: seq<KeyCondition>)

  /** The answer that ends the loop: an exception, or a page with nothing left. */
  predicate Final(o: Outcome<BatchResponse>)
  {
    o.Raised? || o.value.unprocessedKeys == []
  }

  /** The scripted answers end the loop at some point. */
  predicate Terminates(script: seq<Outcome<BatchResponse>>)
  {
    exists k :: 0 <= k < |script| && Final(script[k])
  }

  /** Index of the answer that ends the loop. */
  function LastPage(script: seq<Outcome<BatchResponse>>): (k: nat)
    requires Terminates(script)
    ensures k < |script| && Final(script[k])
    ensures forall j :: 0 <= j < k ==> !Final(script[j])
  {
    if Final(script[0]) then 0
    else
      var k :| 0 <= k < |script| && Final(script[k]);
      assert Final(script[1..][k - 1]);
      1 + LastPage(script[1..])
  }

  /** The keys an answer left unprocessed; an exception leaves none to ask for. */
  function Unprocessed(o: Outcome<BatchResponse>): seq<KeyCondition>
  {
    if o.Returned? then o.value.unprocessedKeys else []
  }

  /** The keys request number `n` asks for: the whole key list first,
      then the keys the previous answer left unprocessed. */
  function Asked(keys: seq<KeyCondition>, script: seq<Outcome<BatchResponse>>, n: nat): seq<KeyCondition>
    requires n <= |script|
  {
    if n == 0 then keys else Unprocessed(script[n - 1])
  }

  /** The first `n` requests `_batch_get_item` sends for the key list
      `keys`: all of it at first, then the keys each answer left
      unprocessed, always strongly consistent and on `tableName`. */
  function Requests(tableName: string, keys: seq<KeyCondition>, script: seq<Outcome<BatchResponse>>, n: nat)
    : (rs: seq<BatchGetRequest>)
    requires n <= |script|
    ensures |rs| == n
    ensures n > 0 ==> rs[0].keys == keys
    ensures forall i :: 0 < i < n ==> rs[i].keys == Unprocessed(script[i - 1])
    ensures forall i :: 0 <= i < n ==> rs[i].tableName == tableName && rs[i].consistentRead
  {
    if n == 0 then []
    else
      Requests(tableName, keys, script, n - 1) + [BatchGetRequest(tableName, Asked(keys, script, n - 1), true)]
  }

  /** The dict after `result[r['id']] = r['result']` for each record in turn. */
  function Absorb(acc: map<Key, AttrValue>, records: seq<Record>): map<Key, AttrValue>
  {
    if records == [] then acc
    else
      var last := records[|records| - 1];
      Absorb(acc, records[..|records| - 1])[last.id := last.result]
  }

  /** The records of the answered pages, page after page. */
  function PageRecords(pages: seq<Outcome<BatchResponse>>): seq<Record>
  {
    if pages == [] then []
    else
      var last := pages[|pages| - 1];
      PageRecords(pages[..|pages| - 1]) + (if last.Returned? then last.value.items else [])
  }

  function Ids(records: seq<Record>): set<Key>
  {
    set r | r in records :: r.id
  }

  function KeyIds(keys: seq<KeyCondition>): set<Key>
  {
    set k | k in keys :: k.id
  }

  /** How the store answers a batch read of `asked` when it holds the ids
      `stored`: the records it returns were asked for and are stored, the
      keys it leaves unprocessed were asked for, and every asked key it
      holds is either returned or left unprocessed. An asked key it does
      not hold is simply missing from the answer. */
  predicate PageAnswers(asked: seq<KeyCondition>, page: BatchResponse, stored: set<Key>)
  {
    && Ids(page.items) <= KeyIds(asked) * stored
    && KeyIds(page.unprocessedKeys) <= KeyIds(asked)
    && KeyIds(asked) * stored <= Ids(page.items) + KeyIds(page.unprocessedKeys)
  }

  /** Every page up to the last that came back answers its request as above. */
  ghost predicate Answers(keys: seq<KeyCondition>, script: seq<Outcome<BatchResponse>>, stored: set<Key>)
    requires Terminates(script)
  {
    forall i {:trigger Asked(keys, script, i)} :: 0 <= i <= LastPage(script) && script[i].Returned?
                ==> PageAnswers(Asked(keys, script, i), script[i].value, stored)
  }

  /** No key is named twice, as in every key list the store sends back. */
  predicate NoRepeats(keys: seq<KeyCondition>)
  {
    forall a, b :: 0 <= a < b < |keys| ==> keys[a].id != keys[b].id
  }

  /** A key list names at most as many ids as it has entries, and exactly
      as many when no key is named twice. */
  lemma {:induction false} KeyIdsSize(keys: seq<KeyCondition>)
    ensures |KeyIds(keys)| <= |keys|
    ensures NoRepeats(keys) ==> |KeyIds(keys)| == |keys|
    decreases |keys|
  {
    if keys != [] {
      var init := keys[..|keys| - 1];
      var last := keys[|keys| - 1];
      KeyIdsSize(init);
      assert keys == init + [last];
      assert KeyIds(keys) == KeyIds(init) + {last.id};
      if NoRepeats(keys) {
        assert NoRepeats(init) by {
          forall a, b | 0 <= a < b < |init| ensures init[a].id != init[b].id {
            assert init[a] == keys[a] && init[b] == keys[b];
          }
        }
        assert last.id !in KeyIds(init) by {
          forall k | k in init ensures k.id != last.id {
            var a :| 0 <= a < |init| && init[a] == k;
            assert keys[a] == k;
          }
        }
      }
    }
  }

  lemma {:induction false} SubsetSize(small: set<Key>, large: set<Key>)
    requires small <= large
    ensures |small| <= |large|
    decreases |large|
  {
    if small != {} {
      var x :| x in small;
      SubsetSize(small - {x}, large - {x});
    }
  }

  /** The keys a page leaves unprocessed were asked for in its request. */
  lemma {:induction false} UnprocessedAsked(keys: seq<KeyCondition>, script: seq<Outcome<BatchResponse>>,
                                            stored: set<Key>, p: nat)
    requires Terminates(script) && Answers(keys, script, stored)
    requires p <= LastPage(script) && script[p].Returned?
    ensures KeyIds(script[p].value.unprocessedKeys) <= KeyIds(Asked(keys, script, p))
  {
    assert PageAnswers(Asked(keys, script, p), script[p].value, stored);
  }

  /** A key list without repeats whose ids all occur in `asked` is no
      longer than `asked`. */
  lemma {:induction false} ShorterList(left: seq<KeyCondition>, asked: seq<KeyCondition>)
    requires NoRepeats(left) && KeyIds(left) <= KeyIds(asked)
    ensures |left| <= |asked|
  {
    KeyIdsSize(left);
    KeyIdsSize(asked);
    SubsetSize(KeyIds(left), KeyIds(asked));
  }

  /** When every page answers its request and no unprocessed list names a
      key twice, no request of the loop names more keys than the first. */
  lemma {:induction false} AskedWithin(keys: seq<KeyCondition>, script: seq<Outcome<BatchResponse>>,
                                       stored: set<Key>, n: nat)
    requires Terminates(script) && Answers(keys, script, stored)
    requires forall i :: 0 <= i < LastPage(script) ==> NoRepeats(Unprocessed(script[i]))
    requires n <= LastPage(script)
    ensures |Asked(keys, script, n)| <= |keys|
    decreases n
  {
    if n > 0 {
      AskedWithin(keys, script, stored, n - 1);
      var asked := Asked(keys, script, n - 1);
      assert !Final(script[n - 1]);
      var left := script[n - 1].value.unprocessedKeys;
      UnprocessedAsked(keys, script, stored, n - 1);
      ShorterList(left, asked);
      assert Asked(keys, script, n) == left;
    }
  }

  /** Every request the loop sends for a non-empty key list names at least
      one key and no more keys than the list, provided the pages answer
      their requests and no unprocessed list names a key twice. */
  lemma {:induction false} RequestsWithinKeys(tableName: string, keys: seq<KeyCondition>,
                                              script: seq<Outcome<BatchResponse>>, stored: set<Key>)
    requires keys != []
    requires Terminates(script) && Answers(keys, script, stored)
    requires forall i :: 0 <= i < LastPage(script) ==> NoRepeats(Unprocessed(script[i]))
    ensures var rs := Requests(tableName, keys, script, LastPage(script) + 1);
            forall i :: 0 <= i < |rs| ==> 0 < |rs[i].keys| <= |keys|
  {
    var rs := Requests(tableName, keys, script, LastPage(script) + 1);
    forall i | 0 <= i < |rs| ensures 0 < |rs[i].keys| <= |keys| {
      AskedWithin(keys, script, stored, i);
      if i > 0 {
        assert !Final(script[i - 1]);
        assert rs[i].keys == Asked(keys, script, i);
      }
    }
  }

  /** What `_batch_get_item` yields for a scripted sequence of answers:
      the first exception, or the dict of every page up to the last. */
  function BatchOutcome(script: seq<Outcome<BatchResponse>>): Outcome<map<Key, AttrValue>>
    requires Terminates(script)
  {
    var k := LastPage(script);
    if script[k].Raised? then Raised(script[k].error)
    else Returned(Absorb(map[], PageRecords(script[..k + 1])))
  }

  lemma {:induction false} AbsorbAppend(acc: map<Key, AttrValue>, s: seq<Record>, t: seq<Record>)
    ensures Absorb(acc, s + t) == Absorb(Absorb(acc, s), t)
    decreases |t|
  {
    if t == [] {
      assert s + t == s;
    } else {
      var u := t[..|t| - 1];
      assert (s + t)[..|s + t| - 1] == s + u;
      AbsorbAppend(acc, s, u);
    }
  }

  /** Gathering one more answered page adds its records to the dict. */
  lemma {:induction false} AbsorbNextPage(script: seq<Outcome<BatchResponse>>, page: nat)
    requires page < |script| && script[page].Returned?
    ensures Absorb(map[], PageRecords(script[..page + 1]))
         == Absorb(Absorb(map[], PageRecords(script[..page])), script[page].value.items)
  {
    assert script[..page + 1][..page] == script[..page];
    assert PageRecords(script[..page + 1]) == PageRecords(script[..page]) + script[page].value.items;
    AbsorbAppend(map[], PageRecords(script[..page]), script[page].value.items);
  }

  /** The dict holds exactly the keys it held plus the ids of the records. */
  lemma {:induction false} AbsorbKeys(acc: map<Key, AttrValue>, records: seq<Record>)
    ensures Absorb(acc, records).Keys == acc.Keys + Ids(records)
    decreases |records|
  {
    if records != [] {
      var init := records[..|records| - 1];
      AbsorbKeys(acc, init);
      assert records == init + [records[|records| - 1]];
      assert Ids(records) == Ids(init) + {records[|records| - 1].id};
    }
  }

  /** A key no record names keeps its old entry. */
  lemma {:induction false} AbsorbUntouched(acc: map<Key, AttrValue>, records: seq<Record>, k: Key)
    requires k in acc && k !in Ids(records)
    ensures k in Absorb(acc, records) && Absorb(acc, records)[k] == acc[k]
    decreases |records|
  {
    if records != [] {
      var init := records[..|records| - 1];
      assert records == init + [records[|records| - 1]];
      assert Ids(init) <= Ids(records);
      AbsorbUntouched(acc, init, k);
    }
  }

  /** The last record with a given id decides its entry. */
  lemma {:induction false} AbsorbLastWins(acc: map<Key, AttrValue>, records: seq<Record>, j: nat)
    requires j < |records|
    requires forall j' :: j < j' < |records| ==> records[j'].id != records[j].id
    ensures records[j].id in Absorb(acc, records)
    ensures Absorb(acc, records)[records[j].id] == records[j].result
    decreases |records|
  {
    if j < |records| - 1 {
      var init := records[..|records| - 1];
      AbsorbLastWins(acc, init, j);
    }
  }

  lemma {:induction false} PageRecordsAppend(pages: seq<Outcome<BatchResponse>>, more: seq<Outcome<BatchResponse>>)
    ensures PageRecords(pages + more) == PageRecords(pages) + PageRecords(more)
    decreases |more|
  {
    if more == [] {
      assert pages + more == pages;
    } else {
      var init := more[..|more| - 1];
      assert (pages + more)[..|pages + more| - 1] == pages + init;
      PageRecordsAppend(pages, init);
    }
  }

  lemma {:induction false} PageRecordsIds(pages: seq<Outcome<BatchResponse>>, k: Key)
    ensures k in Ids(PageRecords(pages))
        <==> exists i, j :: 0 <= i < |pages| && pages[i].Returned?
                            && 0 <= j < |pages[i].value.items| && pages[i].value.items[j].id == k
    decreases |pages|
  {
    if pages != [] {
      var init := pages[..|pages| - 1];
      var last := pages[|pages| - 1];
      var lastItems := if last.Returned? then last.value.items else [];
      PageRecordsIds(init, k);
      assert PageRecords(pages) == PageRecords(init) + lastItems;
      if k in Ids(PageRecords(pages)) {
        var r :| r in PageRecords(pages) && r.id == k;
        if r in PageRecords(init) {
          assert k in Ids(PageRecords(init));
          var i, j :| 0 <= i < |init| && init[i].Returned?
                      && 0 <= j < |init[i].value.items| && init[i].value.items[j].id == k;
          assert pages[i] == init[i];
        } else {
          var j :| 0 <= j < |lastItems| && lastItems[j] == r;
          assert pages[|pages| - 1].value.items[j].id == k;
        }
      }
      if exists i, j :: 0 <= i < |pages| && pages[i].Returned?
                        && 0 <= j < |pages[i].value.items| && pages[i].value.items[j].id == k {
        var i, j :| 0 <= i < |pages| && pages[i].Returned?
                    && 0 <= j < |pages[i].value.items| && pages[i].value.items[j].id == k;
        if i < |pages| - 1 {
          assert init[i] == pages[i];
          assert k in Ids(PageRecords(init));
          var r :| r in PageRecords(init) && r.id == k;
          assert r in PageRecords(pages);
        } else {
          assert lastItems[j] in PageRecords(pages);
        }
      }
    }
  }

  /** Completeness: a successful batch read returns an entry for exactly
      the ids that appear in its pages, up to and including the last. */
  lemma {:induction false} BatchKeys(script: seq<Outcome<BatchResponse>>, id: Key)
    requires Terminates(script) && BatchOutcome(script).Returned?
    ensures id in BatchOutcome(script).value
        <==> exists i, j :: 0 <= i <= LastPage(script) && script[i].Returned?
                            && 0 <= j < |script[i].value.items| && script[i].value.items[j].id == id
  {
    var pages := script[..LastPage(script) + 1];
    AbsorbKeys(map[], PageRecords(pages));
    PageRecordsIds(pages, id);
    if exists i, j :: 0 <= i <= LastPage(script) && script[i].Returned?
                      && 0 <= j < |script[i].value.items| && script[i].value.items[j].id == id {
      var i, j :| 0 <= i <= LastPage(script) && script[i].Returned?
                  && 0 <= j < |script[i].value.items| && script[i].value.items[j].id == id;
      assert pages[i] == script[i];
    }
  }

  /** The records of the pages around an answered page `i`. */
  lemma {:induction false} PageRecordsSplit(pages: seq<Outcome<BatchResponse>>, i: nat)
    requires i < |pages| && pages[i].Returned?
    ensures PageRecords(pages)
         == PageRecords(pages[..i]) + pages[i].value.items + PageRecords(pages[i + 1..])
  {
    var before, page, after := pages[..i], pages[i], pages[i + 1..];
    assert pages == before + [page] + after;
    PageRecordsAppend(before + [page], after);
    PageRecordsAppend(before, [page]);
    assert PageRecords([page]) == PageRecords([page][..0]) + page.value.items;
  }

  lemma {:induction false} IdsAppend(a: seq<Record>, b: seq<Record>)
    ensures Ids(a + b) == Ids(a) + Ids(b)
  {
    forall k | k in Ids(a + b) ensures k in Ids(a) + Ids(b) {
      var r :| r in a + b && r.id == k;
    }
    forall k | k in Ids(a) + Ids(b) ensures k in Ids(a + b) {
      if k in Ids(a) {
        var r :| r in a && r.id == k;
        assert r in a + b;
      } else {
        var r :| r in b && r.id == k;
        assert r in a + b;
      }
    }
  }

  /** What page `p` contributes: its answer to its request, and its records
      added to those of the earlier pages. */
  lemma {:induction false} PageStep(keys: seq<KeyCondition>, script: seq<Outcome<BatchResponse>>,
                                    stored: set<Key>, p: nat)
    requires Terminates(script) && Answers(keys, script, stored)
    requires p <= LastPage(script) && script[p].Returned?
    requires p > 0 ==> script[p - 1].Returned?
    ensures PageAnswers(if p == 0 then keys else script[p - 1].value.unprocessedKeys, script[p].value, stored)
    ensures Ids(PageRecords(script[..p + 1])) == Ids(PageRecords(script[..p])) + Ids(script[p].value.items)
    ensures p == 0 ==> Ids(PageRecords(script[..p])) == {}
  {
    assert PageAnswers(Asked(keys, script, p), script[p].value, stored);
    assert script[..p + 1][..p] == script[..p];
    IdsAppend(PageRecords(script[..p]), script[p].value.items);
    if p == 0 {
      assert script[..0] == [];
    }
  }

  /** After page `p`, the ids gathered so far and the keys still to ask for
      lie within the requested keys, and between them they cover every
      requested key the store holds. */
  lemma {:induction false} CoveredUpTo(keys: seq<KeyCondition>, script: seq<Outcome<BatchResponse>>,
                                       stored: set<Key>, p: nat)
    requires Terminates(script) && Answers(keys, script, stored)
    requires p <= LastPage(script) && forall i :: 0 <= i <= p ==> script[i].Returned?
    ensures Ids(PageRecords(script[..p + 1])) <= KeyIds(keys) * stored
    ensures KeyIds(script[p].value.unprocessedKeys) <= KeyIds(keys)
    ensures KeyIds(keys) * stored <= Ids(PageRecords(script[..p + 1])) + KeyIds(script[p].value.unprocessedKeys)
    decreases p
  {
    var page := script[p].value;
    PageStep(keys, script, stored, p);
    if p == 0 {
      CoverStep(KeyIds(keys), stored, {}, KeyIds(keys), Ids(page.items), KeyIds(page.unprocessedKeys));
    } else {
      CoveredUpTo(keys, script, stored, p - 1);
      CoverStep(KeyIds(keys), stored, Ids(PageRecords(script[..p])), KeyIds(script[p - 1].value.unprocessedKeys),
                Ids(page.items), KeyIds(page.unprocessedKeys));
    }
  }

  /** One page of the induction above, on the sets alone. */
  lemma CoverStep(requested: set<Key>, stored: set<Key>, got: set<Key>, asked: set<Key>,
                  found: set<Key>, left: set<Key>)
    requires got <= requested * stored && asked <= requested && requested * stored <= got + asked
    requires found <= asked * stored && left <= asked && asked * stored <= found + left
    ensures got + found <= requested * stored && left <= requested
    ensures requested * stored <= got + found + left
  {
    forall x | x in requested * stored ensures x in got + found + left {
      if x !in got {
        assert x in asked * stored;
      }
    }
  }

  /** Pagination completeness: once the loop ends without an exception,
      the dict has an entry for exactly the requested keys the store holds. */
  lemma {:induction false} BatchCovers(keys: seq<KeyCondition>, script: seq<Outcome<BatchResponse>>, stored: set<Key>)
    requires Terminates(script) && BatchOutcome(script).Returned?
    requires Answers(keys, script, stored)
    ensures BatchOutcome(script).value.Keys == KeyIds(keys) * stored
  {
    var last := LastPage(script);
    forall i | 0 <= i <= last ensures script[i].Returned? {
      if i < last { assert !Final(script[i]); }
    }
    CoveredUpTo(keys, script, stored, last);
    var records := PageRecords(script[..last + 1]);
    assert script[last].value.unprocessedKeys == [];
    assert Ids(records) == KeyIds(keys) * stored;
    AbsorbKeys(map[], records);
    assert BatchOutcome(script).value == Absorb(map[], records);
  }

  /** Later pages overwrite earlier ones: the entry of an id is the result
      of its last record in the last page that holds it. */
  lemma {:induction false} BatchLastWins(script: seq<Outcome<BatchResponse>>, i: nat, j: nat)
    requires Terminates(script) && BatchOutcome(script).Returned?
    requires i <= LastPage(script) && script[i].Returned? && j < |script[i].value.items|
    requires forall j' :: j < j' < |script[i].value.items|
               ==> script[i].value.items[j'].id != script[i].value.items[j].id
    requires forall i', j' :: i < i' <= LastPage(script) && script[i'].Returned? && 0 <= j' < |script[i'].value.items|
               ==> script[i'].value.items[j'].id != script[i].value.items[j].id
    ensures var rec := script[i].value.items[j];
            rec.id in BatchOutcome(script).value && BatchOutcome(script).value[rec.id] == rec.result
  {
    var pages := script[..LastPage(script) + 1];
    var items := script[i].value.items;
    var rec := items[j];
    var after := pages[i + 1..];
    assert pages[i] == script[i];
    PageRecordsSplit(pages, i);
    var head := PageRecords(pages[..i]) + items;
    assert PageRecords(pages) == head + PageRecords(after);
    var p := |PageRecords(pages[..i])| + j;
    assert head[p] == rec;
    forall q | p < q < |head| ensures head[q].id != rec.id {
      assert head[q] == items[q - |PageRecords(pages[..i])|];
    }
    AbsorbLastWins(map[], head, p);
    AbsorbAppend(map[], head, PageRecords(after));
    PageRecordsIds(after, rec.id);
    assert rec.id !in Ids(PageRecords(after));
    AbsorbUntouched(Absorb(map[], head), PageRecords(after), rec.id);
  }

  /** Every entry of the dict is the result of a record that names it, or
      the entry it already had. */
  lemma {:induction false} AbsorbFrom(acc: map<Key, AttrValue>, records: seq<Record>, k: Key)
    requires k in Absorb(acc, records)
    ensures (k in acc && Absorb(acc, records)[k] == acc[k])
            || exists r :: r in records && r.id == k && Absorb(acc, records)[k] == r.result
    decreases |records|
  {
    if records != [] {
      var init := records[..|records| - 1];
      var last := records[|records| - 1];
      if k != last.id {
        AbsorbFrom(acc, init, k);
        if !(k in acc && Absorb(acc, init)[k] == acc[k]) {
          var r :| r in init && r.id == k && Absorb(acc, init)[k] == r.result;
          assert r in records;
        }
      }
    }
  }
}
