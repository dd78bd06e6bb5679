/** The redis key space as a value, and the commands the gateway sends as functions on it. */
module Keyspace {
  import opened Json
  import opened Reservations

  /** What a redis string or hash field holds. */
  datatype Value =
    | Text(text: string)              // plain text: a user name
    | Doc(json: Json)                 // a JSON document
    | Saved(version: Version, reservation: Reservation)   // a versioned reservation

  datatype Entry = Bytes(value: Value) | Hash(fields: map<string, Value>)

  /** One key space for everything. Redis drops a hash with its last field. */
  type Store = s: map<string, Entry> | forall k :: k in s ==> s[k] != Hash(map[]) witness map[]

  datatype Reply = Nil | Got(value: Value) | WrongKind | Down

  datatype Error =
    | InvalidDomain
    | NotManaged
    | NotAllowed
    | SubdomainUsed
    | Missing
    | Malformed
    | KindMismatch
    | RedisDown

  /** A key that hash commands accept. */
  predicate HashKey(s: Store, key: string)
  {
    key in s ==> s[key].Hash?
  }

  function Fields(s: Store, key: string): map<string, Value>
  {
    if key in s && s[key].Hash? then s[key].fields else map[]
  }

  function PutFields(s: Store, key: string, fields: map<string, Value>): Store
  {
    if fields == map[] then s - {key} else s[key := Hash(fields)]
  }

  // ------------------------------------------------------------ commands

  function HGet(s: Store, key: string, field: string): Reply
  {
    if !HashKey(s, key) then WrongKind
    else if field in Fields(s, key) then Got(Fields(s, key)[field])
    else Nil
  }

  /** A hash command on a key of another kind is an error and changes nothing. */
  function HSet(s: Store, key: string, field: string, value: Value): (s': Store)
    ensures HashKey(s', key) <==> HashKey(s, key)
    ensures HashKey(s, key) ==> Fields(s', key) == Fields(s, key)[field := value]
  {
    assert field in Fields(s, key)[field := value];
    if HashKey(s, key) then PutFields(s, key, Fields(s, key)[field := value]) else s
  }

  function HDel(s: Store, key: string, field: string): (s': Store)
    ensures HashKey(s', key) <==> HashKey(s, key)
    ensures Fields(s', key) == Fields(s, key) - {field}
  {
    if HashKey(s, key) then PutFields(s, key, Fields(s, key) - {field}) else s
  }

  function Get(s: Store, key: string): Reply
  {
    if key !in s then Nil
    else match s[key]
      case Bytes(v) => Got(v)
      case Hash(_) => WrongKind
  }

  function Set(s: Store, key: string, value: Value): Store
  {
    s[key := Bytes(value)]
  }

  function Del(s: Store, key: string): Store
  {
    s - {key}
  }

  /** Two stores with the same entry, or none, under a key. */
  predicate SameAt(s: Store, t: Store, key: string)
  {
    if key in s then key in t && t[key] == s[key] else key !in t
  }

  /** `t` differs from `s` at most in one field of one hash. */
  ghost predicate OneField(s: Store, t: Store, key: string, field: string)
  {
    && (forall k :: k != key ==> SameAt(s, t, k))
    && (forall f :: f != field ==> HGet(t, key, f) == HGet(s, key, f))
  }

  lemma FieldWrite(s: Store, key: string, field: string, value: Value)
    requires HashKey(s, key)
    ensures OneField(s, HSet(s, key, field, value), key, field)
    ensures HGet(HSet(s, key, field, value), key, field) == Got(value)
    ensures OneField(s, HDel(s, key, field), key, field)
    ensures HGet(HDel(s, key, field), key, field) == Nil
  {}

  /** Setting a field that was not there and deleting it again restores the store. */
  lemma SetThenDelete(s: Store, key: string, field: string, value: Value)
    requires field !in Fields(s, key)
    ensures HDel(HSet(s, key, field, value), key, field) == s
  {
    assert Fields(s, key)[field := value] - {field} == Fields(s, key);
    assert HashKey(s, key) && key in s ==> s[key] == Hash(Fields(s, key));
  }

  /** Deleting a field after setting it is deleting it. */
  lemma SetThenDeleteIsDelete(s: Store, key: string, field: string, value: Value)
    ensures HDel(HSet(s, key, field, value), key, field) == HDel(s, key, field)
  {
    assert Fields(s, key)[field := value] - {field} == Fields(s, key) - {field};
  }

  /** Deleting a field again changes nothing. */
  lemma DeleteTwice(s: Store, key: string, field: string)
    ensures HDel(HDel(s, key, field), key, field) == HDel(s, key, field)
  {
    var t := HDel(s, key, field);
    assert Fields(t, key) - {field} == Fields(t, key);
    assert HashKey(t, key) && key in t ==> t[key] == Hash(Fields(t, key));
  }
}
