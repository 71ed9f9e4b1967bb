/** The remote table the client talks to, reduced to what the client
    relies on: a map from id to the stored `result`, written by put,
    delete and the one update form the client sends. The service's own
    behaviour (replication lag, unprocessed batch keys, throttling) is
    not here: the client's reads take those as scripted responses. */
module Store {
  import opened Retry
  import opened Records

  type Items = map<Key, AttrValue>

  /** What the service answers to an update it cannot apply: the attribute
      is missing or is not a number. */
  const VALIDATION_ERROR := Exception(ClientError, Some("ValidationException"))

  datatype UpdateResult = UpdateResult(items: Items, attributes: map<string, AttrValue>)

  /** A put overwrites whatever the id held. */
  function Put(items: Items, item: Record): Items
  {
    items[item.id := item.result]
  }

  /** A delete of an absent id is not an error. */
  function Remove(items: Items, key: KeyCondition): Items
  {
    items - {key.id}
  }

  /** The `Item` of a single-key read that sees the current table. */
  function Lookup(items: Items, key: KeyCondition): Option<Record>
  {
    if key.id in items then Some(Record(key.id, items[key.id])) else None
  }

  /** The number held by an attribute, if it holds one. */
  predicate IsNumber(a: AttrValue)
  {
    a.Plain? && a.value.PyNumber?
  }

  /** Applies an update of the form `set #r = #r + :val` to the `result`
      attribute; anything else, or a record with no numeric `result`,
      is refused with a validation error. */
  function Update(items: Items, req: UpdateItemRequest): Outcome<UpdateResult>
  {
    var id := req.key.id;
    if && req.updateExpression == INCREMENT_EXPRESSION
       && "#r" in req.attributeNames && req.attributeNames["#r"] == RESULT
       && ":val" in req.attributeValues && IsNumber(req.attributeValues[":val"])
       && id in items && IsNumber(items[id])
    then
      var updated := Plain(PyNumber(items[id].value.n + req.attributeValues[":val"].value.n));
      var attributes := if req.returnValues == "UPDATED_NEW" then map[RESULT := updated] else map[];
      Returned(UpdateResult(items[id := updated], attributes))
    else
      Raised(VALIDATION_ERROR)
  }

  /** Round trip: after `set`, a read of the same key sees a record whose
      value is exactly what was set, text and bytes included. */
  lemma {:induction false} SetThenRead(items: Items, key: Key, value: PyValue)
    ensures var found := Lookup(Put(items, SetItem(key, value)), KeyCondition(key));
            found.Some? && found.value.id == key && Unwrap(found.value.result) == value
  {
  }

  /** `set` changes no other key. */
  lemma {:induction false} SetLeavesOthers(items: Items, key: Key, value: PyValue, other: Key)
    requires other != key
    ensures Lookup(Put(items, SetItem(key, value)), KeyCondition(other)) == Lookup(items, KeyCondition(other))
  {
  }

  /** Deleting twice is deleting once, and afterwards the key reads as absent. */
  lemma {:induction false} DeleteIdempotent(items: Items, key: Key)
    ensures Remove(Remove(items, KeyCondition(key)), KeyCondition(key)) == Remove(items, KeyCondition(key))
    ensures Lookup(Remove(items, KeyCondition(key)), KeyCondition(key)) == None
  {
  }

  /** The update `incr` sends adds exactly 1 to a numeric `result`, changes
      nothing else, and answers with the new value. */
  lemma {:induction false} IncrAddsOne(items: Items, key: Key, n: int)
    requires key in items && items[key] == Plain(PyNumber(n))
    ensures Update(items, IncrRequest(key))
         == Returned(UpdateResult(items[key := Plain(PyNumber(n + 1))], map[RESULT := Plain(PyNumber(n + 1))]))
  {
  }

  /** The update `incr` sends is refused, and not as throttling, when the
      key has no numeric `result`. */
  lemma {:induction false} IncrNeedsNumber(items: Items, key: Key)
    requires key !in items || !IsNumber(items[key])
    ensures Update(items, IncrRequest(key)) == Raised(VALIDATION_ERROR)
    ensures !RetryIfThrottled(VALIDATION_ERROR)
  {
    assert !Contains("ValidationException", THROTTLING_CODE);
  }

  /** The table after `count` successive increments of `key`. */
  function IncrementTimes(items: Items, key: Key, count: nat): Outcome<Items>
  {
    if count == 0 then Returned(items)
    else match IncrementTimes(items, key, count - 1)
      case Raised(e) => Raised(e)
      case Returned(before) =>
        match Update(before, IncrRequest(key))
        case Raised(e) => Raised(e)
        case Returned(u) => Returned(u.items)
  }

  /** A counter seeded with `set(key, 0)` and incremented `count` times
      one after another holds `count`, and no other key changes. */
  lemma {:induction false} CounterAfterSeed(items: Items, key: Key, count: nat)
    ensures var seeded := Put(items, SetItem(key, PyNumber(0)));
            var after := IncrementTimes(seeded, key, count);
            after.Returned? && after.value == seeded[key := Plain(PyNumber(count))]
  {
    var seeded := Put(items, SetItem(key, PyNumber(0)));
    if count > 0 {
      CounterAfterSeed(items, key, count - 1);
      var before := seeded[key := Plain(PyNumber(count - 1))];
      IncrAddsOne(before, key, count - 1);
      assert before[key := Plain(PyNumber(count))] == seeded[key := Plain(PyNumber(count))];
    } else {
      assert seeded[key := Plain(PyNumber(0))] == seeded;
    }
  }

  /** The table object the client holds; the service applies each request
      to it as one step. */
  class Table {
    var items: Items

    constructor (initial: Items)
      ensures items == initial
    {
      items := initial;
    }

    method PutItem(item: Record)
      modifies this
      ensures items == Put(old(items), item)
    {
      items := items[item.id := item.result];
    }

    method DeleteItem(key: KeyCondition)
      modifies this
      ensures items == Remove(old(items), key)
    {
      items := items - {key.id};
    }

    method UpdateItem(req: UpdateItemRequest) returns (attributes: Outcome<map<string, AttrValue>>)
      modifies this
      ensures var u := Update(old(items), req);
              if u.Raised? then attributes == Raised(u.error) && items == old(items)
              else attributes == Returned(u.value.attributes) && items == u.value.items
    {
      var u := Update(items, req);
      if u.Raised? {
        attributes := Raised(u.error);
      } else {
        attributes := Returned(u.value.attributes);
        items := u.value.items;
      }
    }
  }
}
