/** The reservation cache as it works: loops over the ids redis lists, in any order. */
module CacheManager {
  import opened Json
  import opened Reservations
  import opened Keyspace
  import opened Counters
  import opened ReservationCache
  import Redis

  class Cache {
    const redis: Redis.Server

    constructor (redis: Redis.Server)
      ensures this.redis == redis
    {
      this.redis := redis;
    }

    method Add(r: Reservation) returns (err: Option<Error>)
      modifies redis
      ensures err.None? ==> redis.store == AfterPut(old(redis.store), r)
      ensures err.Some? ==> redis.store == old(redis.store)
      ensures redis.faults == old(redis.faults) ==>
                err == if HashKey(old(redis.store), Layout.RESERVATIONS) then None else Some(KindMismatch)
      ensures Passed(old(redis.trace), redis.trace, old(redis.store), Put(r))
    {
      err := redis.HSet(Layout.RESERVATIONS, r.id, Saved(SCHEMA, r));
    }

    method Remove(id: string) returns (err: Option<Error>)
      modifies redis
      ensures redis.trace == old(redis.trace) + [redis.store]
      ensures Redis.Executed(err, HashKey(old(redis.store), Layout.RESERVATIONS), old(redis.faults), redis.faults)
      ensures redis.store == if err.None? then AfterDrop(old(redis.store), id) else old(redis.store)
    {
      err := redis.HDel(Layout.RESERVATIONS, id);
    }

    method Get(id: string) returns (r: Result<Reservation, Error>)
      modifies redis`trace, redis`faults
      ensures redis.trace == old(redis.trace) + [redis.store]
      ensures if r == Err(RedisDown) then redis.faults == old(redis.faults) + 1
              else redis.faults == old(redis.faults) && r == Lookup(redis.store, id)
    {
      var reply := redis.HGet(Layout.RESERVATIONS, id);
      match reply {
        case Down => return Err(RedisDown);
        case WrongKind => return Err(KindMismatch);
        case Nil => return Err(Missing);
        case Got(data) =>
          var loaded := Load(data);
          if loaded.None? {
            return Err(Malformed);
          }
          return Ok(loaded.value);
      }
    }

    /** Counts every cached reservation; without faults it fails only on an unreadable one. */
    method Sync(statser: Counters) returns (err: Option<Error>)
      modifies statser, redis`trace, redis`faults
      ensures err.None? ==> Synced(old(statser.Tallied()), statser.Tallied(), redis.store)
      ensures redis.faults == old(redis.faults) && Readable(redis.store) ==> err.None?
    {
      var ids;
      err, ids := redis.HKeys(Layout.RESERVATIONS);
      if err.Some? {
        return err;
      }
      hide CountedUpTo, CountListed, Synced;
      CountedNone(statser.Tallied(), redis.store);
      for i := 0 to |ids|
        invariant old(redis.faults) <= redis.faults
        invariant CountedUpTo(old(statser.Tallied()), statser.Tallied(), redis.store, ids[..i])
      {
        assert ids[i] in ids;
        ReadableLooksUp(redis.store, ids[i]);
        var r := Get(ids[i]);
        if r.Err? {
          return Some(r.error);
        }
        ghost var now := statser.Tallied();
        statser.Increment(r.value);
        CountOneMore(old(statser.Tallied()), now, statser.Tallied(), redis.store, ids, i, r.value.kind);
      }
      CountedAll(old(statser.Tallied()), statser.Tallied(), redis.store, ids);
      return None;
    }

    /** Removes the reservations of the given kinds, and only those. */
    method ClearByType(kinds: seq<Kind>) returns (err: Option<Error>)
      modifies redis
      ensures err.None? ==> redis.store == AfterClear(old(redis.store), kinds)
      ensures redis.faults == old(redis.faults) && Readable(old(redis.store)) ==> err.None?
      ensures Visits(old(redis.store), Clear(kinds), redis.store)
      ensures Passed(old(redis.trace), redis.trace, old(redis.store), Clear(kinds))
    {
      ghost var s := redis.store;
      var ids;
      err, ids := redis.HKeys(Layout.RESERVATIONS);
      if err.Some? {
        return err;
      }
      for i := 0 to |ids|
        invariant old(redis.faults) <= redis.faults
        invariant ClearedUpTo(s, redis.store, kinds, ids, i)
        invariant Passed(old(redis.trace), redis.trace, s, Clear(kinds))
      {
        NextIsCached(s, redis.store, kinds, ids, i);
        ghost var read := redis.trace;
        var r := Get(ids[i]);
        OneMorePassed(old(redis.trace), read, s, Clear(kinds), redis.store);
        if r.Err? {
          return Some(r.error);
        }
        ghost var t := redis.store;
        err := RemoveIfOfKinds(ids[i], r.value.kind, kinds, s);
        if err.Some? {
          return err;
        }
        ClearOneMore(s, t, redis.store, kinds, ids, i);
      }
      ClearedAll(s, redis.store, kinds, ids);
      return None;
    }

    /** The inner loop: one removal for every type in the list that matches. */
    method RemoveIfOfKinds(id: string, kind: Kind, kinds: seq<Kind>, ghost s: Store) returns (err: Option<Error>)
      requires HashKey(s, Layout.RESERVATIONS) && PartlyCleared(s, redis.store, kinds)
      requires id in Cached(redis.store) && IsOfKind(Cached(redis.store)[id], kind)
      modifies redis
      ensures PartlyCleared(s, redis.store, kinds)
      ensures old(redis.faults) <= redis.faults
      ensures redis.faults == old(redis.faults) ==> err.None?
      ensures err.None? ==> redis.store == if kind in kinds then AfterDrop(old(redis.store), id) else old(redis.store)
      ensures Passed(old(redis.trace), redis.trace, s, Clear(kinds))
    {
      ghost var t := redis.store;
      for j := 0 to |kinds|
        invariant redis.faults == old(redis.faults)
        invariant redis.store == if kind in kinds[..j] then AfterDrop(t, id) else t
        invariant PartlyCleared(s, redis.store, kinds) && HashKey(redis.store, Layout.RESERVATIONS)
        invariant Passed(old(redis.trace), redis.trace, s, Clear(kinds))
      {
        assert kinds[..j + 1] == kinds[..j] + [kinds[j]];
        if kind == kinds[j] {
          DropIsClearing(s, t, kinds, id, j);
          ghost var sent := redis.trace;
          err := Remove(id);
          OneMorePassed(old(redis.trace), sent, s, Clear(kinds), redis.store);
          if err.Some? {
            return err;
          }
        }
      }
      assert kinds[..|kinds|] == kinds;
      return None;
    }

    /** The cached reservations that have expired, in the order redis lists them. */
    method GetExpired(expired: Reservation -> bool) returns (err: Option<Error>, rs: seq<Reservation>)
      modifies redis`trace, redis`faults
      ensures err.None? ==> ListsExpired(rs, redis.store, expired)
      ensures redis.faults == old(redis.faults) && Readable(redis.store) ==> err.None?
    {
      var ids;
      err, ids := redis.HKeys(Layout.RESERVATIONS);
      if err.Some? {
        return err, [];
      }
      rs := [];
      for i := 0 to |ids|
        invariant old(redis.faults) <= redis.faults
        invariant rs == ExpiredAmong(redis.store, ids[..i], expired)
      {
        assert ids[i] in ids && ids[..i + 1][..i] == ids[..i];
        ReadableLooksUp(redis.store, ids[i]);
        var r := Get(ids[i]);
        if r.Err? {
          return Some(r.error), [];
        }
        if expired(r.value) {
          rs := rs + [r.value];
        }
      }
      assert ids[..|ids|] == ids;
      return None, rs;
    }
  }

  // ------------------------------------------------------------ the ids visited so far

  /** The ids before the `i`-th have been visited: none of them is left with a kind to clear. */
  ghost predicate ClearedUpTo(s: Store, t: Store, kinds: seq<Kind>, ids: seq<string>, i: nat)
  {
    && i <= |ids|
    && HashKey(s, Layout.RESERVATIONS)
    && Redis.Lists(ids, Cached(s).Keys)
    && PartlyCleared(s, t, kinds)
    && (forall j :: 0 <= j < i && ids[j] in Cached(t) ==> !OfKinds(Cached(t)[ids[j]], kinds))
    && (forall j :: i <= j < |ids| ==> ids[j] in Cached(t))
  }

  lemma NextIsCached(s: Store, t: Store, kinds: seq<Kind>, ids: seq<string>, i: nat)
    requires ClearedUpTo(s, t, kinds, ids, i) && i < |ids|
    ensures ids[i] in Cached(t) && HashKey(t, Layout.RESERVATIONS)
    ensures Readable(s) ==> Load(Cached(t)[ids[i]]).Some?
  {}

  lemma ClearOneMore(s: Store, t: Store, u: Store, kinds: seq<Kind>, ids: seq<string>, i: nat)
    requires i < |ids| && ClearedUpTo(s, t, kinds, ids, i) && PartlyCleared(s, u, kinds)
    requires Load(Cached(t)[ids[i]]).Some?
    requires u == if Load(Cached(t)[ids[i]]).value.kind in kinds then AfterDrop(t, ids[i]) else t
    ensures ClearedUpTo(s, u, kinds, ids, i + 1)
  {
    hide OfKinds, Load, PartlyCleared, HDel;
    NotOfKinds(Cached(t)[ids[i]], kinds);
    assert forall id :: id in Cached(u) ==> id in Cached(t) && Cached(u)[id] == Cached(t)[id];
    assert forall j :: i + 1 <= j < |ids| ==> ids[j] != ids[i];
  }

  lemma NotOfKinds(v: Value, kinds: seq<Kind>)
    requires Load(v).Some?
    ensures OfKinds(v, kinds) <==> Load(v).value.kind in kinds
  {
    if Load(v).value.kind in kinds {
      var i :| 0 <= i < |kinds| && kinds[i] == Load(v).value.kind;
      assert IsOfKind(v, kinds[i]);
    }
  }

  lemma ReadableLooksUp(s: Store, id: string)
    ensures Readable(s) && id in Cached(s) ==> Lookup(s, id).Ok?
  {}

  lemma DropIsClearing(s: Store, t: Store, kinds: seq<Kind>, id: string, j: nat)
    requires PartlyCleared(s, t, kinds) && id in Cached(t)
    requires j < |kinds| && IsOfKind(Cached(t)[id], kinds[j])
    ensures PartlyCleared(s, AfterDrop(t, id), kinds)
    ensures AfterDrop(AfterDrop(t, id), id) == AfterDrop(t, id)
  {
    DeleteTwice(t, Layout.RESERVATIONS, id);
    forall k | k != Layout.RESERVATIONS ensures SameAt(s, AfterDrop(t, id), k) {
      assert SameAt(s, t, k);
    }
    assert OfKinds(Cached(s)[id], kinds);
  }

  lemma ClearedAll(s: Store, t: Store, kinds: seq<Kind>, ids: seq<string>)
    requires ClearedUpTo(s, t, kinds, ids, |ids|)
    ensures t == AfterClear(s, kinds)
  {
    forall id | id in Cached(t) ensures !OfKinds(Cached(t)[id], kinds) {
      assert id in ids;
    }
    FullyCleared(s, t, kinds);
  }

  /** The expired reservations of the cache, one for each id that has one, in some order of the ids. */
  ghost predicate ListsExpired(rs: seq<Reservation>, s: Store, expired: Reservation -> bool)
  {
    exists ids :: Redis.Lists(ids, Cached(s).Keys) && rs == ExpiredAmong(s, ids, expired)
  }

  /** The ids under which one expired reservation is cached. */
  ghost function Holding(s: Store, ids: set<string>, expired: Reservation -> bool, r: Reservation): set<string>
  {
    set id | id in ids && Lookup(s, id) == Ok(r) && expired(r)
  }

  ghost function Ids(ids: seq<string>): set<string>
  {
    set id | id in ids
  }

  lemma IdsSnoc(ids: seq<string>)
    requires ids != [] && forall i, j :: 0 <= i < j < |ids| ==> ids[i] != ids[j]
    ensures var front, last := ids[..|ids| - 1], ids[|ids| - 1];
            Ids(ids) == Ids(front) + {last} && last !in Ids(front)
  {
    assert ids == ids[..|ids| - 1] + [ids[|ids| - 1]];
  }

  /** Such a list has every expired reservation as often as it is cached. */
  lemma ExpiredListed(rs: seq<Reservation>, s: Store, expired: Reservation -> bool)
    requires ListsExpired(rs, s, expired)
    ensures forall r :: multiset(rs)[r] == |Holding(s, Cached(s).Keys, expired, r)|
  {
    var ids :| Redis.Lists(ids, Cached(s).Keys) && rs == ExpiredAmong(s, ids, expired);
    assert Cached(s).Keys == Ids(ids);
    forall r ensures multiset(rs)[r] == |Holding(s, Cached(s).Keys, expired, r)| {
      ExpiredCount(s, ids, expired, r);
    }
  }

  /** It lists a cached reservation exactly when that has expired, as it was cached but for its source. */
  lemma ExpiredExactly(
    rs: seq<Reservation>, s: Store, expired: Reservation -> bool, id: string, was: Reservation)
    requires ListsExpired(rs, s, expired)
    requires HashKey(s, Layout.RESERVATIONS) && id in Cached(s) && Cached(s)[id] == Saved(Version(1, 0, 0), was)
    ensures var r := was.(source := "tfgateway_cache");
            r in rs <==> expired(r)
  {
    var r := was.(source := "tfgateway_cache");
    LookupExactly(s, id);
    ExpiredListed(rs, s, expired);
    var held := Holding(s, Cached(s).Keys, expired, r);
    assert Lookup(s, id) == Ok(r);
    if expired(r) {
      assert id in held;
      assert |held| == |held - {id}| + 1;
    }
    assert multiset(rs)[r] == |held|;
  }

  lemma {:induction false} ExpiredCount(s: Store, ids: seq<string>, expired: Reservation -> bool, r: Reservation)
    requires forall i, j :: 0 <= i < j < |ids| ==> ids[i] != ids[j]
    ensures multiset(ExpiredAmong(s, ids, expired))[r] == |Holding(s, Ids(ids), expired, r)|
  {
    if ids != [] {
      hide Holding, Lookup, Ids;
      var front, last := ids[..|ids| - 1], ids[|ids| - 1];
      ExpiredCount(s, front, expired, r);
      IdsSnoc(ids);
      HoldingOneMore(s, Ids(front), last, expired, r);
      if Lookup(s, last).Ok? {
        CountSnoc(ExpiredAmong(s, front, expired), Lookup(s, last).value, r);
      }
    }
  }

  lemma CountSnoc(rs: seq<Reservation>, last: Reservation, r: Reservation)
    ensures multiset(rs + [last])[r] == multiset(rs)[r] + if last == r then 1 else 0
  {}

  lemma HoldingOneMore(s: Store, ids: set<string>, last: string, expired: Reservation -> bool, r: Reservation)
    requires last !in ids
    ensures |Holding(s, ids + {last}, expired, r)|
            == |Holding(s, ids, expired, r)| + if Lookup(s, last) == Ok(r) && expired(r) then 1 else 0
  {
    hide Lookup;
    var found, all := Holding(s, ids, expired, r), Holding(s, ids + {last}, expired, r);
    assert all == if Lookup(s, last) == Ok(r) && expired(r) then found + {last} else found;
  }
}
