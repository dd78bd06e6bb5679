/**
 * The redis server as the gateway sees it: commands that change the key space one at a time,
 * any of which may fail without effect.
 */
module Redis {
  import opened Json
  import opened Strings
  import opened Keyspace

  class Server {
    var store: Store
    ghost var trace: seq<Store>   // the store after every command so far
    ghost var faults: nat         // how many commands the server failed

    constructor ()
      ensures store == map[] && trace == [] && faults == 0
    {
      store := map[];
      trace := [];
      faults := 0;
    }

    /** The server may fail any command; a command that fails has no effect. */
    method Reach() returns (up: bool)
      modifies `faults
      ensures faults == old(faults) + if up then 0 else 1
    {
      up := *;
      if !up {
        faults := faults + 1;
      }
    }

    method HGet(key: string, field: string) returns (reply: Reply)
      modifies `trace, `faults
      ensures trace == old(trace) + [store]
      ensures Answered(reply, Keyspace.HGet(store, key, field), old(faults), faults)
    {
      var up := Reach();
      reply := if up then Keyspace.HGet(store, key, field) else Down;
      trace := trace + [store];
    }

    method Get(key: string) returns (reply: Reply)
      modifies `trace, `faults
      ensures trace == old(trace) + [store]
      ensures Answered(reply, Keyspace.Get(store, key), old(faults), faults)
    {
      var up := Reach();
      reply := if up then Keyspace.Get(store, key) else Down;
      trace := trace + [store];
    }

    method HSet(key: string, field: string, value: Value) returns (err: Option<Error>)
      modifies this
      ensures trace == old(trace) + [store]
      ensures Executed(err, HashKey(old(store), key), old(faults), faults)
      ensures err.None? ==> store == Keyspace.HSet(old(store), key, field, value)
      ensures err.Some? ==> store == old(store)
    {
      var up := Reach();
      err := if !up then Some(RedisDown) else if HashKey(store, key) then None else Some(KindMismatch);
      if err.None? {
        store := Keyspace.HSet(store, key, field, value);
      }
      trace := trace + [store];
    }

    method HDel(key: string, field: string) returns (err: Option<Error>)
      modifies this
      ensures trace == old(trace) + [store]
      ensures Executed(err, HashKey(old(store), key), old(faults), faults)
      ensures err.None? ==> store == Keyspace.HDel(old(store), key, field)
      ensures err.Some? ==> store == old(store)
    {
      var up := Reach();
      err := if !up then Some(RedisDown) else if HashKey(store, key) then None else Some(KindMismatch);
      if err.None? {
        store := Keyspace.HDel(store, key, field);
      }
      trace := trace + [store];
    }

    method Set(key: string, value: Value) returns (err: Option<Error>)
      modifies this
      ensures trace == old(trace) + [store]
      ensures Executed(err, true, old(faults), faults)
      ensures err.None? ==> store == Keyspace.Set(old(store), key, value)
      ensures err.Some? ==> store == old(store)
    {
      var up := Reach();
      err := if up then None else Some(RedisDown);
      if up {
        store := Keyspace.Set(store, key, value);
      }
      trace := trace + [store];
    }

    method Del(key: string) returns (err: Option<Error>)
      modifies this
      ensures trace == old(trace) + [store]
      ensures Executed(err, true, old(faults), faults)
      ensures err.None? ==> store == Keyspace.Del(old(store), key)
      ensures err.Some? ==> store == old(store)
    {
      var up := Reach();
      err := if up then None else Some(RedisDown);
      if up {
        store := Keyspace.Del(store, key);
      }
      trace := trace + [store];
    }

    /** HKEYS: the fields of a hash, each once, in no particular order. */
    method HKeys(key: string) returns (err: Option<Error>, fields: seq<string>)
      modifies `trace, `faults
      ensures trace == old(trace) + [store]
      ensures Executed(err, HashKey(store, key), old(faults), faults)
      ensures err.None? ==> Lists(fields, Fields(store, key).Keys)
    {
      var up := Reach();
      err := if !up then Some(RedisDown) else if HashKey(store, key) then None else Some(KindMismatch);
      fields := InSomeOrder(Fields(store, key).Keys);
      trace := trace + [store];
    }

    /** KEYS with the pattern of every key that ends in a dot. */
    method KeysEndingInDot() returns (err: Option<Error>, keys: seq<string>)
      modifies `trace, `faults
      ensures trace == old(trace) + [store]
      ensures Executed(err, true, old(faults), faults)
      ensures err.None? ==> Lists(keys, set k | k in store && EndsWithDot(k))
    {
      var up := Reach();
      err := if up then None else Some(RedisDown);
      keys := InSomeOrder(set k | k in store && EndsWithDot(k));
      trace := trace + [store];
    }

    /** TYPE: whether the key holds a hash. */
    method IsHash(key: string) returns (err: Option<Error>, hash: bool)
      modifies `trace, `faults
      ensures trace == old(trace) + [store]
      ensures Executed(err, true, old(faults), faults)
      ensures hash <==> key in store && store[key].Hash?
    {
      var up := Reach();
      err := if up then None else Some(RedisDown);
      hash := key in store && store[key].Hash?;
      trace := trace + [store];
    }
  }

  /** A read either got the server's reply, or nothing and one more fault. */
  ghost predicate Answered(reply: Reply, expected: Reply, before: nat, after: nat)
  {
    if reply.Down? then after == before + 1 else after == before && reply == expected
  }

  /** A command either ran (or met a key of the wrong kind), or failed with one more fault. */
  ghost predicate Executed(err: Option<Error>, fits: bool, before: nat, after: nat)
  {
    if err == Some(RedisDown) then after == before + 1
    else after == before && err == if fits then None else Some(KindMismatch)
  }

  /** A sequence that lists every element of a set once. */
  ghost predicate Lists(l: seq<string>, s: set<string>)
  {
    && (forall x :: x in l <==> x in s)
    && (forall i, j :: 0 <= i < j < |l| ==> l[i] != l[j])
  }

  method InSomeOrder(s: set<string>) returns (l: seq<string>)
    ensures Lists(l, s)
  {
    var rest := s;
    l := [];
    while rest != {}
      invariant rest <= s
      invariant Lists(l, s - rest)
      decreases |rest|
    {
      var x :| x in rest;
      l := l + [x];
      rest := rest - {x};
    }
  }
}
