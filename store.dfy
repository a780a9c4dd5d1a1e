/** The keyspace a module reaches through key handles: named values of the
    built-in types and the optional time to live of each key, with the
    list, string and expire operations of the key API as functions on it. */
module Store {
  import opened ModuleApi
  import opened ModuleString

  datatype Value =
    | StringValue(bytes: Bytes)
    | ListValue(items: seq<Bytes>)
    | HashValue(fields: map<Bytes, Bytes>)
    | SetValue(members: set<Bytes>)
    | ZsetValue(scores: map<Bytes, real>)

  /** `ttls` holds the milliseconds to live of the keys that have an expire. */
  datatype Keyspace = Keyspace(values: map<Bytes, Value>, ttls: map<Bytes, int>) {
    /** Only existing keys expire, the host never stores an empty list, and
        the "no expire" sentinel is never a stored time to live. */
    ghost predicate Valid() {
      && ttls.Keys <= values.Keys
      && (forall k :: k in values && values[k].ListValue? ==> values[k].items != [])
      && (forall k :: k in ttls ==> ttls[k] != NO_EXPIRE)
    }
  }

  /** The type code a key handle reports for a key. */
  function KeyType(ks: Keyspace, k: Bytes): (t: int)
    ensures t in KeyTypes
    ensures t == KEYTYPE_EMPTY <==> k !in ks.values
    ensures t == KEYTYPE_STRING <==> k in ks.values && ks.values[k].StringValue?
    ensures t == KEYTYPE_LIST <==> k in ks.values && ks.values[k].ListValue?
    ensures t == KEYTYPE_HASH <==> k in ks.values && ks.values[k].HashValue?
    ensures t == KEYTYPE_SET <==> k in ks.values && ks.values[k].SetValue?
    ensures t == KEYTYPE_ZSET <==> k in ks.values && ks.values[k].ZsetValue?
  {
    if k !in ks.values then KEYTYPE_EMPTY
    else match ks.values[k]
      case StringValue(_) => KEYTYPE_STRING
      case ListValue(_) => KEYTYPE_LIST
      case HashValue(_) => KEYTYPE_HASH
      case SetValue(_) => KEYTYPE_SET
      case ZsetValue(_) => KEYTYPE_ZSET
  }

  /** The length of the value: bytes of a string, elements of an aggregate, 0 when empty. */
  function ValueLength(ks: Keyspace, k: Bytes): nat
  {
    if k !in ks.values then 0
    else match ks.values[k]
      case StringValue(b) => |b|
      case ListValue(items) => |items|
      case HashValue(fields) => |fields|
      case SetValue(members) => |members|
      case ZsetValue(scores) => |scores|
  }

  /** The key holds a list or nothing, so list operations apply to it. */
  predicate IsListOrEmpty(ks: Keyspace, k: Bytes) {
    k !in ks.values || ks.values[k].ListValue?
  }

  /** The elements of the list at k; a missing key reads as the empty list. */
  function ListOf(ks: Keyspace, k: Bytes): seq<Bytes>
  {
    if k in ks.values && ks.values[k].ListValue? then ks.values[k].items else []
  }

  /** Stores `items` as the list at k; storing no items deletes the key and its expire. */
  function WithList(ks: Keyspace, k: Bytes, items: seq<Bytes>): (r: Keyspace)
    ensures ListOf(r, k) == items
    ensures IsListOrEmpty(r, k)
  {
    if items == [] then Keyspace(ks.values - {k}, ks.ttls - {k})
    else ks.(values := ks.values[k := ListValue(items)])
  }

  /** ListPop: removes and returns an end element; nothing when the key holds no list. */
  function ListPop(ks: Keyspace, k: Bytes, where: int): (Keyspace, Option<Bytes>)
  {
    var items := ListOf(ks, k);
    if items == [] then (ks, None)
    else if where == LIST_HEAD then (WithList(ks, k, items[1..]), Some(items[0]))
    else (WithList(ks, k, items[..|items| - 1]), Some(items[|items| - 1]))
  }

  /** ListPush: adds an element at one end, creating the list on an empty key;
      a key of another type is left alone (the host answers ERR). */
  function ListPush(ks: Keyspace, k: Bytes, where: int, e: Bytes): Keyspace
  {
    if !IsListOrEmpty(ks, k) then ks
    else if where == LIST_HEAD then WithList(ks, k, [e] + ListOf(ks, k))
    else WithList(ks, k, ListOf(ks, k) + [e])
  }

  /** Popping the end an element was pushed at gives that element back and
      leaves the list as it was. */
  lemma PopUndoesPush(ks: Keyspace, k: Bytes, where: int, e: Bytes)
    requires IsListOrEmpty(ks, k)
    ensures var popped := ListPop(ListPush(ks, k, where, e), k, where);
      popped.1 == Some(e) && ListOf(popped.0, k) == ListOf(ks, k)
  {
    var items := ListOf(ks, k);
    if where == LIST_HEAD {
      assert ([e] + items)[1..] == items;
    } else {
      assert (items + [e])[..|items|] == items;
    }
  }

  /** Replaces the string at k, keeping its expire. */
  function WithString(ks: Keyspace, k: Bytes, b: Bytes): (r: Keyspace)
    ensures ks.Valid() && k in ks.values ==> r.Valid()
  {
    ks.(values := ks.values[k := StringValue(b)])
  }

  /** GetExpire: the milliseconds to live, or NO_EXPIRE. */
  function ExpireOf(ks: Keyspace, k: Bytes): (ms: int)
    ensures ks.Valid() ==> (ms == NO_EXPIRE <==> k !in ks.ttls)
  {
    if k in ks.ttls then ks.ttls[k] else NO_EXPIRE
  }

  /** SetExpire on an existing key: NO_EXPIRE removes the expire, any other value sets it. */
  function WithExpire(ks: Keyspace, k: Bytes, ms: int): (r: Keyspace)
    requires k in ks.values
    ensures ExpireOf(r, k) == ms
    ensures r.values == ks.values && r.ttls - {k} == ks.ttls - {k}
    ensures ks.Valid() ==> r.Valid()
  {
    if ms == NO_EXPIRE then ks.(ttls := ks.ttls - {k}) else ks.(ttls := ks.ttls[k := ms])
  }

  /** A second SetExpire on a key overrides the first, whatever the first was. */
  lemma WithExpireTwice(ks: Keyspace, k: Bytes, x: int, y: int)
    requires k in ks.values
    ensures WithExpire(WithExpire(ks, k, x), k, y) == WithExpire(ks, k, y)
  {
    var r, s := WithExpire(WithExpire(ks, k, x), k, y), WithExpire(ks, k, y);
    assert r.ttls == s.ttls by {
      assert r.ttls.Keys == s.ttls.Keys;
    }
  }

  lemma WithListValid(ks: Keyspace, k: Bytes, items: seq<Bytes>)
    requires ks.Valid()
    ensures WithList(ks, k, items).Valid()
  {
  }

  /** Popping and pushing keep the keyspace's invariant. */
  lemma ListOpsValid(ks: Keyspace, k: Bytes, where: int, e: Bytes)
    requires ks.Valid()
    ensures ListPop(ks, k, where).0.Valid()
    ensures ListPush(ks, k, where, e).Valid()
  {
    var items := ListOf(ks, k);
    if items != [] {
      WithListValid(ks, k, items[1..]);
      WithListValid(ks, k, items[..|items| - 1]);
    }
    WithListValid(ks, k, [e] + items);
    WithListValid(ks, k, items + [e]);
  }

  /** A list store changes nothing but its own key. */
  lemma WithListFrame(ks: Keyspace, k: Bytes, items: seq<Bytes>)
    ensures var r := WithList(ks, k, items);
      r.values - {k} == ks.values - {k} && r.ttls - {k} == ks.ttls - {k}
  {
  }

  /** A store to one key is invisible at every other key. */
  lemma WithListOther(ks: Keyspace, j: Bytes, a: seq<Bytes>, k: Bytes)
    requires j != k
    ensures ListOf(WithList(ks, j, a), k) == ListOf(ks, k)
    ensures IsListOrEmpty(WithList(ks, j, a), k) == IsListOrEmpty(ks, k)
    ensures ValueLength(WithList(ks, j, a), k) == ValueLength(ks, k)
    ensures (k in WithList(ks, j, a).ttls) == (k in ks.ttls)
  {
    var r := WithList(ks, j, a);
    assert k in r.values <==> k in r.values - {j};
    assert k in ks.values <==> k in ks.values - {j};
    if k in ks.values {
      assert r.values[k] == (r.values - {j})[k];
    }
    assert k in r.ttls <==> k in r.ttls - {j};
  }

  /** The length a key handle reports for a list or empty key is the list's length. */
  lemma ListLength(ks: Keyspace, k: Bytes)
    requires IsListOrEmpty(ks, k)
    ensures ValueLength(ks, k) == |ListOf(ks, k)|
  {
  }
}
