/** The reservation cache of `cache/cache.go`: one redis hash from id to reservation. */
module ReservationCache {
  import opened Json
  import opened Reservations
  import opened Keyspace
  import opened Counters
  import opened Layout
  import Redis

  const SCHEMA := Version(1, 0, 0)
  const SOURCE := "tfgateway_cache"

  datatype CacheOp =
    | Put(reservation: Reservation)
    | Drop(id: string)
    | Clear(kinds: seq<Kind>)

  // ------------------------------------------------------------ reading

  /** A cached value as the cache returns it: of a known schema, and marked as cached. */
  function Load(v: Value): Option<Reservation>
  {
    if v.Saved? && v.version.AtMost(SCHEMA) then Some(v.reservation.(source := SOURCE)) else None
  }

  function Lookup(s: Store, id: string): Result<Reservation, Error>
  {
    match HGet(s, RESERVATIONS, id)
    case Nil => Err(Missing)
    case Got(v) => (match Load(v) case Some(r) => Ok(r) case None => Err(Malformed))
    case _ => Err(KindMismatch)
  }

  function Cached(s: Store): map<string, Value>
  {
    Fields(s, RESERVATIONS)
  }

  /** Every cached value is of a known schema. */
  predicate Readable(s: Store)
  {
    HashKey(s, RESERVATIONS) && forall id :: id in Cached(s) ==> Load(Cached(s)[id]).Some?
  }

  predicate IsOfKind(v: Value, kind: Kind)
  {
    Load(v).Some? && Load(v).value.kind == kind
  }

  /** An id under which a reservation of a kind is cached. */
  predicate Names(s: Store, id: string, kind: Kind)
  {
    id in Cached(s) && IsOfKind(Cached(s)[id], kind)
  }

  /** The ids under which reservations of a kind are cached. */
  function IdsOf(s: Store, kind: Kind): set<string>
  {
    set id | id in Cached(s) && Names(s, id, kind)
  }

  /** How many cached reservations are of a kind. */
  function Count(s: Store, kind: Kind): nat
  {
    |IdsOf(s, kind)|
  }

  // ------------------------------------------------------------ writing

  function AfterPut(s: Store, r: Reservation): Store
  {
    HSet(s, RESERVATIONS, r.id, Saved(SCHEMA, r))
  }

  function AfterDrop(s: Store, id: string): Store
  {
    HDel(s, RESERVATIONS, id)
  }

  predicate OfKinds(v: Value, kinds: seq<Kind>)
  {
    exists i :: 0 <= i < |kinds| && IsOfKind(v, kinds[i])
  }

  function AfterClear(s: Store, kinds: seq<Kind>): Store
  {
    PutFields(s, RESERVATIONS, map id | id in Cached(s) && !OfKinds(Cached(s)[id], kinds) :: Cached(s)[id])
  }

  /** Some reservations of the given kinds are gone, and nothing else has changed. */
  ghost predicate PartlyCleared(s: Store, t: Store, kinds: seq<Kind>)
  {
    && (forall k :: k != RESERVATIONS ==> SameAt(s, t, k))
    && (HashKey(s, RESERVATIONS) <==> HashKey(t, RESERVATIONS))
    && (forall id :: id in Cached(t) ==> id in Cached(s) && Cached(t)[id] == Cached(s)[id])
    && (forall id :: id in Cached(s) && id !in Cached(t) ==> OfKinds(Cached(s)[id], kinds))
  }

  /** Every store an operation can leave, whichever command fails. */
  ghost predicate Visits(s: Store, op: CacheOp, t: Store)
  {
    match op
    case Put(r) => t == s || t == AfterPut(s, r)
    case Drop(id) => t == s || t == AfterDrop(s, id)
    case Clear(kinds) => t == s || (HashKey(s, RESERVATIONS) && PartlyCleared(s, t, kinds))
  }

  ghost predicate Passed(before: seq<Store>, after: seq<Store>, s: Store, op: CacheOp)
  {
    && before <= after
    && forall i :: |before| <= i < |after| ==> Visits(s, op, after[i])
  }

  lemma OneMorePassed(before: seq<Store>, after: seq<Store>, s: Store, op: CacheOp, t: Store)
    requires Passed(before, after, s, op) && Visits(s, op, t)
    ensures Passed(before, after + [t], s, op)
  {}

  // ------------------------------------------------------------ laws

  /**
   * What is found under an id: nothing unless it is cached with a version of 1.0.0 or before, and
   * then the reservation that was cached, field by field, but for its source.
   */
  lemma LookupExactly(s: Store, id: string)
    requires HashKey(s, RESERVATIONS)
    ensures Lookup(s, id) == Err(Missing) <==> id !in Cached(s)
    ensures Lookup(s, id).Ok? <==>
            && id in Cached(s) && Cached(s)[id].Saved?
            && var v := Cached(s)[id].version;
               v.major == 0 || (v.major == 1 && v.minor == 0 && v.patch == 0)
    ensures Lookup(s, id).Ok? ==>
            var r, was := Lookup(s, id).value, Cached(s)[id].reservation;
            && r.source == "tfgateway_cache"
            && r.id == was.id && r.user == was.user && r.kind == was.kind
            && r.created == was.created && r.duration == was.duration
  {}

  /** A reservation that was put is found again as it was, but for its source; the others are found as before. */
  lemma PutThenLookup(s: Store, r: Reservation)
    requires HashKey(s, RESERVATIONS)
    ensures HGet(AfterPut(s, r), "tfgateway_reservations", r.id) == Got(Saved(Version(1, 0, 0), r))
    ensures Lookup(AfterPut(s, r), r.id) == Ok(r.(source := "tfgateway_cache"))
    ensures forall id :: id != r.id ==> Lookup(AfterPut(s, r), id) == Lookup(s, id)
  {
    LookupExactly(AfterPut(s, r), r.id);
    hide Load;
  }

  /** A reservation that was dropped is not found; the others are found as before. */
  lemma DropThenLookup(s: Store, id: string)
    requires HashKey(s, RESERVATIONS)
    ensures Lookup(AfterDrop(s, id), id) == Err(Missing)
    ensures forall other :: other != id ==> Lookup(AfterDrop(s, id), other) == Lookup(s, other)
  {
    hide Load;
  }

  lemma FullyCleared(s: Store, t: Store, kinds: seq<Kind>)
    requires HashKey(s, RESERVATIONS) && PartlyCleared(s, t, kinds)
    requires forall id :: id in Cached(t) ==> !OfKinds(Cached(t)[id], kinds)
    ensures t == AfterClear(s, kinds)
  {
    hide OfKinds, Load;
    var u := AfterClear(s, kinds);
    assert Cached(u) == Cached(t);
    forall k ensures SameAt(u, t, k) {
      assert k != RESERVATIONS ==> SameAt(s, t, k);
      assert RESERVATIONS in t ==> t[RESERVATIONS] == Hash(Cached(t));
    }
    SameEverywhere(u, t);
  }

  lemma SameEverywhere(s: Store, t: Store)
    requires forall k :: SameAt(s, t, k)
    ensures s == t
  {
    assert forall k :: k in s <==> k in t by {
      forall k ensures k in s <==> k in t { assert SameAt(s, t, k); }
    }
    forall k | k in s ensures s[k] == t[k] { assert SameAt(s, t, k); }
  }

  /** Clearing leaves the count of every kind not cleared, and none of a cleared one. */
  lemma ClearCounts(s: Store, kinds: seq<Kind>, kind: Kind)
    requires HashKey(s, RESERVATIONS)
    ensures Count(AfterClear(s, kinds), kind) == if kind in kinds then 0 else Count(s, kind)
  {
    hide Load;
    var t := AfterClear(s, kinds);
    var before, after := IdsOf(s, kind), IdsOf(t, kind);
    if kind in kinds {
      var i :| 0 <= i < |kinds| && kinds[i] == kind;
      assert forall id :: id in before ==> IsOfKind(Cached(s)[id], kinds[i]);
      assert after == {};
    } else {
      forall id | id in before ensures !OfKinds(Cached(s)[id], kinds) {
        forall i | 0 <= i < |kinds| ensures !IsOfKind(Cached(s)[id], kinds[i]) {
          assert kinds[i] in kinds;
        }
      }
      assert after == before;
    }
  }

  /** Caching a reservation with a new id counts one more of its kind. */
  lemma PutCounts(s: Store, r: Reservation, kind: Kind)
    requires HashKey(s, RESERVATIONS) && r.id !in Cached(s)
    ensures Count(AfterPut(s, r), kind) == Count(s, kind) + if kind == r.kind then 1 else 0
  {
    var t := AfterPut(s, r);
    assert Cached(t) == Cached(s)[r.id := Saved(SCHEMA, r)];
    assert IsOfKind(Saved(SCHEMA, r), kind) <==> kind == r.kind;
    hide Cached, IsOfKind, AfterPut;
    forall id ensures id in IdsOf(t, kind) <==> id in IdsOf(s, kind) || (id == r.id && kind == r.kind) {
      assert Names(t, id, kind) <==> Names(s, id, kind) || (id == r.id && kind == r.kind);
    }
    hide IdsOf;
    SetGrows(IdsOf(s, kind), IdsOf(t, kind), r.id, kind == r.kind);
  }

  lemma SetGrows(a: set<string>, b: set<string>, x: string, added: bool)
    requires forall y :: y in b <==> y in a || (y == x && added)
    requires x !in a
    ensures |b| == |a| + if added then 1 else 0
  {
    assert b == if added then a + {x} else a;
  }

  lemma DropCounts(s: Store, id: string, kind: Kind)
    requires HashKey(s, RESERVATIONS) && id in Cached(s)
    ensures Count(AfterDrop(s, id), kind) == Count(s, kind) - if IsOfKind(Cached(s)[id], kind) then 1 else 0
  {
    var t := AfterDrop(s, id);
    assert Cached(t) == Cached(s) - {id};
    hide Cached, IsOfKind, AfterDrop;
    forall x ensures x in IdsOf(t, kind) <==> x in IdsOf(s, kind) && x != id {
      assert Names(t, x, kind) <==> Names(s, x, kind) && x != id;
    }
    assert id in IdsOf(s, kind) <==> Names(s, id, kind);
    assert forall x :: x in IdsOf(s, kind) <==> x in IdsOf(t, kind) || (x == id && IsOfKind(Cached(s)[id], kind));
    SetGrows(IdsOf(t, kind), IdsOf(s, kind), id, IsOfKind(Cached(s)[id], kind));
  }

  // ------------------------------------------------------------ counters agree with the cache

  /** Every counter is the number of cached reservations of its kind. */
  ghost predicate Agree(t: Tally, s: Store)
  {
    forall k :: Counted(k) ==> t.Of(k) == Count(s, k) % WORD
  }

  /** Clearing kinds that are not counted, like the 4to6 gateways at start, keeps the agreement. */
  lemma ClearKeepsAgreement(t: Tally, s: Store, kinds: seq<Kind>)
    requires Agree(t, s) && HashKey(s, RESERVATIONS)
    requires forall k :: Counted(k) ==> k !in kinds
    ensures Agree(t, AfterClear(s, kinds))
  {
    forall k | Counted(k) ensures t.Of(k) == Count(AfterClear(s, kinds), k) % WORD {
      ClearCounts(s, kinds, k);
    }
  }

  lemma AddMod(a: int, n: int)
    ensures (a % WORD + n) % WORD == (a + n) % WORD
  {
    var q := a / WORD;
    assert a == WORD * q + a % WORD;
    var r := (a % WORD + n) / WORD;
    assert a + n == WORD * (q + r) + (a % WORD + n) % WORD;
  }

  /** Caching a new reservation and counting it keeps the agreement. */
  lemma PutKeepsAgreement(t: Tally, u: Tally, s: Store, r: Reservation)
    requires Agree(t, s) && HashKey(s, RESERVATIONS) && r.id !in Cached(s)
    requires Moved(t, u, r.kind, 1)
    ensures Agree(u, AfterPut(s, r))
  {
    forall k | Counted(k) ensures u.Of(k) == Count(AfterPut(s, r), k) % WORD {
      PutCounts(s, r, k);
      AddMod(Count(s, k), 1);
    }
  }

  /** Dropping a cached reservation and counting it off keeps the agreement. */
  lemma DropKeepsAgreement(t: Tally, u: Tally, s: Store, r: Reservation)
    requires Agree(t, s) && Lookup(s, r.id) == Ok(r)
    requires Moved(t, u, r.kind, -1)
    ensures Agree(u, AfterDrop(s, r.id))
  {
    forall k | Counted(k) ensures u.Of(k) == Count(AfterDrop(s, r.id), k) % WORD {
      DropCounts(s, r.id, k);
      AddMod(Count(s, k), -1);
    }
  }

  /** Where the counters agree with the cache, the reported workloads are its counts in 16 bits. */
  lemma ReportedWorkloads(t: Tally, s: Store)
    requires Agree(t, s)
    ensures Narrow(t).proxy == Count(s, Proxy) % HALFWORD
    ensures Narrow(t).reverseProxy == Count(s, ReverseProxy) % HALFWORD
    ensures Narrow(t).subdomain == Count(s, SubDomain) % HALFWORD
    ensures Narrow(t).delegateDomain == Count(s, DomainDelegate) % HALFWORD
  {
    hide Count;
    assert t.Of(Proxy) == Count(s, Proxy) % WORD && t.Of(ReverseProxy) == Count(s, ReverseProxy) % WORD;
    assert t.Of(SubDomain) == Count(s, SubDomain) % WORD && t.Of(DomainDelegate) == Count(s, DomainDelegate) % WORD;
    LowBits(Count(s, Proxy));
    LowBits(Count(s, ReverseProxy));
    LowBits(Count(s, SubDomain));
    LowBits(Count(s, DomainDelegate));
  }

  // ------------------------------------------------------------ the ids visited so far

  /** The ids listed that name reservations of a kind. */
  ghost function ListedIds(s: Store, ids: seq<string>, kind: Kind): set<string>
  {
    set id | id in ids && Names(s, id, kind)
  }

  ghost function CountListed(s: Store, ids: seq<string>, kind: Kind): nat
  {
    |ListedIds(s, ids, kind)|
  }

  lemma ListOneMore(s: Store, ids: seq<string>, i: nat, kind: Kind)
    requires i < |ids| && ids[i] in Cached(s)
    requires forall a, b :: 0 <= a < b < |ids| ==> ids[a] != ids[b]
    ensures CountListed(s, ids[..i + 1], kind)
            == CountListed(s, ids[..i], kind) + if IsOfKind(Cached(s)[ids[i]], kind) then 1 else 0
  {
    var x := ids[i];
    assert ids[..i + 1] == ids[..i] + [x] && x !in ids[..i];
    assert Names(s, x, kind) <==> IsOfKind(Cached(s)[x], kind);
    hide Names, Cached, IsOfKind;
    SetGrows(ListedIds(s, ids[..i], kind), ListedIds(s, ids[..i + 1], kind), x, Names(s, x, kind));
  }

  lemma ListedAll(s: Store, ids: seq<string>, kind: Kind)
    requires Redis.Lists(ids, Cached(s).Keys)
    ensures CountListed(s, ids[..|ids|], kind) == Count(s, kind)
  {
    assert ListedIds(s, ids[..|ids|], kind) == IdsOf(s, kind);
  }

  /** The counters after the ids listed have been counted. */
  ghost predicate CountedUpTo(start: Tally, now: Tally, s: Store, ids: seq<string>)
  {
    forall k :: Counted(k) ==> now.Of(k) == (start.Of(k) + CountListed(s, ids, k)) % WORD
  }

  lemma CountOneMore(start: Tally, now: Tally, next: Tally, s: Store, ids: seq<string>, i: nat, kind: Kind)
    requires i < |ids| && ids[i] in Cached(s) && IsOfKind(Cached(s)[ids[i]], kind)
    requires forall a, b :: 0 <= a < b < |ids| ==> ids[a] != ids[b]
    requires CountedUpTo(start, now, s, ids[..i]) && Moved(now, next, kind, 1)
    ensures CountedUpTo(start, next, s, ids[..i + 1])
  {
    hide CountListed;
    forall k | Counted(k) ensures next.Of(k) == (start.Of(k) + CountListed(s, ids[..i + 1], k)) % WORD {
      ListOneMore(s, ids, i, k);
      AddMod(start.Of(k) + CountListed(s, ids[..i], k), 1);
      assert IsOfKind(Cached(s)[ids[i]], k) <==> k == kind;
    }
  }

  lemma CountedNone(start: Tally, s: Store)
    ensures CountedUpTo(start, start, s, [])
  {
    forall k | Counted(k) ensures start.Of(k) == (start.Of(k) + CountListed(s, [], k)) % WORD {
      assert ListedIds(s, [], k) == {};
    }
  }

  lemma CountedAll(start: Tally, now: Tally, s: Store, ids: seq<string>)
    requires Redis.Lists(ids, Cached(s).Keys) && CountedUpTo(start, now, s, ids[..|ids|])
    ensures Synced(start, now, s)
  {
    forall k | Counted(k) ensures now.Of(k) == (start.Of(k) + Count(s, k)) % WORD {
      ListedAll(s, ids, k);
    }
  }

  /** Every counter has moved by the number of cached reservations of its kind. */
  ghost predicate Synced(start: Tally, now: Tally, s: Store)
  {
    forall k :: Counted(k) ==> now.Of(k) == (start.Of(k) + Count(s, k)) % WORD
  }

  /** From zero counters a sync makes the counters agree with the cache. */
  lemma SyncFromZero(now: Tally, s: Store)
    requires Synced(Tally(0, 0, 0, 0), now, s)
    ensures Agree(now, s)
  {}

  /** The expired reservations among the ids listed, in their order. */
  ghost function ExpiredAmong(s: Store, ids: seq<string>, expired: Reservation -> bool): seq<Reservation>
  {
    if ids == [] then []
    else
      var front, r := ExpiredAmong(s, ids[..|ids| - 1], expired), Lookup(s, ids[|ids| - 1]);
      if r.Ok? && expired(r.value) then front + [r.value] else front
  }
}
