/** The values the client stores, the one record shape of the table,
    and the requests that `set`, `delete`, `incr`, `get` and the batch
    read send to the store. */
module Records {

  type Key = string

  /** The values handed to `set` that this model covers. */
  datatype PyValue =
    | PyString(text: string)        // str or unicode, both `basestring`
    | PyByteArray(bytes: seq<bv8>)
    | PyNumber(n: int)              // int, long or an integral Decimal
    | PyNone

  /** An attribute value as sent to the store: wrapped in the SDK's
      `Binary` tag, or passed through as it is. */
  datatype AttrValue = Binary(payload: PyValue) | Plain(value: PyValue)

  /** The single record shape `{id, result}`. */
  datatype Record = Record(id: Key, result: AttrValue)

  /** The `Key={'id': key}` argument of get, delete and update calls. */
  datatype KeyCondition = KeyCondition(id: Key)

  datatype GetItemRequest = GetItemRequest(key: KeyCondition, consistentRead: bool)

  datatype BatchGetRequest = BatchGetRequest(tableName: string, keys: seq<KeyCondition>, consistentRead: bool)

  datatype UpdateItemRequest = UpdateItemRequest(
    key: KeyCondition,
    updateExpression: string,
    attributeNames: map<string, string>,
    attributeValues: map<string, AttrValue>,
    returnValues: string)

  /** The attribute that holds a record's value. */
  const RESULT := "result"

  const INCREMENT_EXPRESSION := "set #r = #r + :val"

  /** What the caller stored, with the `Binary` tag taken off. */
  function Unwrap(a: AttrValue): PyValue
  {
    match a
    case Binary(p) => p
    case Plain(v) => v
  }

  /** `set` wraps text and raw bytes in `Binary`; everything else goes
      through unchanged. */
  predicate StoredAsBinary(value: PyValue)
  {
    value.PyString? || value.PyByteArray?
  }

  /** The item `set` writes. */
  function SetItem(key: Key, value: PyValue): (item: Record)
    ensures item.id == key
    ensures item.result.Binary? <==> value.PyString? || value.PyByteArray?
    ensures Unwrap(item.result) == value
  {
    if StoredAsBinary(value) then Record(key, Binary(value)) else Record(key, Plain(value))
  }

  /** `set` never loses or alters the caller's value: two writes that
      store the same attribute came from the same key and value. */
  lemma {:induction false} SetItemInjective(k1: Key, v1: PyValue, k2: Key, v2: PyValue)
    requires SetItem(k1, v1) == SetItem(k2, v2)
    ensures k1 == k2 && v1 == v2
  {
    assert Unwrap(SetItem(k1, v1).result) == v1;
    assert Unwrap(SetItem(k2, v2).result) == v2;
  }

  /** The request `incr` sends: add exactly 1 to `result` and return the
      updated attribute. */
  function IncrRequest(key: Key): UpdateItemRequest
  {
    UpdateItemRequest(
      KeyCondition(key),
      INCREMENT_EXPRESSION,
      map["#r" := RESULT],
      map[":val" := Plain(PyNumber(1))],
      "UPDATED_NEW")
  }

  /** The eventually consistent single-key read of `get`. */
  function GetRequest(key: Key): GetItemRequest
  {
    GetItemRequest(KeyCondition(key), false)
  }

  /** The key list of a batch read: `[{'id': key} for key in keys]`. */
  function KeyConditions(keys: seq<Key>): (ks: seq<KeyCondition>)
    ensures |ks| == |keys|
    ensures forall i :: 0 <= i < |keys| ==> ks[i].id == keys[i]
  {
    seq(|keys|, i requires 0 <= i < |keys| => KeyCondition(keys[i]))
  }
}
