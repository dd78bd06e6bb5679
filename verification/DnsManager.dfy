/** The DNS manager of `dns/coredns.go`: each operation is a sequence of redis commands. */
module DnsManager {
  import opened Json
  import opened Strings
  import opened Domains
  import opened Records
  import opened RecordCodec
  import opened Keyspace
  import opened Cleaning
  import opened DnsSpec
  import Redis
  import Zones

  /** Every store seen since the trace was `before` is one the operation may leave. */
  ghost predicate Passed(before: seq<Store>, after: seq<Store>, id: string, s: Store, op: DnsOp)
  {
    && before <= after
    && forall i :: |before| <= i < |after| ==> Visits(id, s, op, after[i])
  }

  /** Only commands without effect since the trace was `before`. */
  ghost predicate Idle(before: seq<Store>, after: seq<Store>, s: Store)
  {
    && before <= after
    && forall i :: |before| <= i < |after| ==> after[i] == s
  }

  /** A load reports either the decoded records or the error. */
  ghost predicate Loaded(err: Option<Error>, rs: RecordMap, expected: Result<RecordMap, Error>)
  {
    match expected
    case Ok(records) => err.None? && rs == records
    case Err(e) => err == Some(e)
  }

  /** Reading a slot, adding addresses and writing it back either all worked or changed nothing. */
  ghost predicate Published(err: Option<Error>, s: Store, t: Store, zone: string, name: string,
                            ips: seq<IP>, noFault: bool)
  {
    match ReadRecords(s, zone, name)
    case Ok(rs) =>
      if noFault
      then err.None? && t == HSet(s, RecordsKey(zone), name, RecordsDoc(AddAll(rs, ips)))
      else err.Some? && t == s
    case Err(e) => err.Some? && t == s && (noFault ==> err == Some(e))
  }

  lemma IdlePasses(before: seq<Store>, after: seq<Store>, id: string, s: Store, op: DnsOp)
    requires Idle(before, after, s) && Visits(id, s, op, s)
    ensures Passed(before, after, id, s, op)
  {}

  lemma PassedLater(before: seq<Store>, mid: seq<Store>, after: seq<Store>, id: string, s: Store, op: DnsOp)
    requires Passed(before, mid, id, s, op) && Passed(mid, after, id, s, op)
    ensures Passed(before, after, id, s, op)
  {}

  lemma OneMorePassed(before: seq<Store>, after: seq<Store>, id: string, s: Store, op: DnsOp, t: Store)
    requires Passed(before, after, id, s, op) && Visits(id, s, op, t)
    ensures Passed(before, after + [t], id, s, op)
  {}

  class Mgr {
    const redis: Redis.Server
    const identity: string

    constructor (redis: Redis.Server, identity: string)
      ensures this.redis == redis && this.identity == identity
    {
      this.redis := redis;
      this.identity := identity;
    }

    // ---------------------------------------------------------- helpers, one command each

    method GetZoneOwner(zone: string) returns (r: Result<string, Error>)
      modifies redis`trace, redis`faults
      ensures redis.trace == old(redis.trace) + [redis.store]
      ensures if r == Err(RedisDown) then redis.faults == old(redis.faults) + 1
              else redis.faults == old(redis.faults) && r == ReadOwner(redis.store, zone)
    {
      var reply := redis.HGet(ZONES, TrimDot(zone));
      match reply {
        case Down => return Err(RedisDown);
        case WrongKind => return Err(KindMismatch);
        case Nil => return Ok("");
        case Got(data) =>
          var owner := DecodeOwner(data);
          if owner.None? {
            return Err(Malformed);
          }
          return Ok(owner.value);
      }
    }

    method SetZoneOwner(zone: string, owner: string) returns (err: Option<Error>)
      modifies redis
      ensures redis.trace == old(redis.trace) + [redis.store]
      ensures Redis.Executed(err, HashKey(old(redis.store), ZONES), old(redis.faults), redis.faults)
      ensures redis.store == if err.None? then Claim(old(redis.store), zone, owner) else old(redis.store)
    {
      err := redis.HSet(ZONES, zone, OwnerDoc(owner));
    }

    method GetZoneRecords(zone: string, name: string) returns (err: Option<Error>, zr: Zones.Zone)
      modifies redis`trace, redis`faults
      ensures fresh(zr)
      ensures redis.trace == old(redis.trace) + [redis.store]
      ensures if err == Some(RedisDown) then redis.faults == old(redis.faults) + 1
              else redis.faults == old(redis.faults) && Loaded(err, zr.records, ReadRecords(redis.store, zone, name))
    {
      zr := new Zones.Zone();
      var reply := redis.HGet(RecordsKey(zone), name);
      match reply {
        case Down => return Some(RedisDown), zr;
        case WrongKind => return Some(KindMismatch), zr;
        case Nil => return None, zr;
        case Got(data) =>
          if !data.Doc? {
            return Some(Malformed), zr;
          }
          var ok := zr.UnmarshalJSON(data.json);
          if !ok {
            return Some(Malformed), zr;
          }
          Zones.MergeIntoNothing(DecodeRecords(data.json).value);
          return None, zr;
      }
    }

    method SetZoneRecords(zone: string, name: string, zr: Zones.Zone) returns (err: Option<Error>)
      modifies redis
      ensures redis.trace == old(redis.trace) + [redis.store]
      ensures Redis.Executed(err, HashKey(old(redis.store), RecordsKey(zone)), old(redis.faults), redis.faults)
      ensures redis.store == if err.None?
                             then HSet(old(redis.store), RecordsKey(zone), name, RecordsDoc(zr.records))
                             else old(redis.store)
    {
      err := redis.HSet(RecordsKey(zone), name, RecordsDoc(zr.records));
    }

    method DeleteZoneRecords(zone: string, name: string) returns (err: Option<Error>)
      modifies redis
      ensures redis.trace == old(redis.trace) + [redis.store]
      ensures Redis.Executed(err, HashKey(old(redis.store), RecordsKey(zone)), old(redis.faults), redis.faults)
      ensures redis.store == if err.None? then HDel(old(redis.store), RecordsKey(zone), name) else old(redis.store)
    {
      err := redis.HDel(RecordsKey(zone), name);
    }

    method SetSubdomainOwner(domain: string, user: string) returns (err: Option<Error>)
      modifies redis
      ensures redis.trace == old(redis.trace) + [redis.store]
      ensures Redis.Executed(err, HashKey(old(redis.store), RESERVED), old(redis.faults), redis.faults)
      ensures redis.store == if err.None? then Reserve(old(redis.store), domain, user) else old(redis.store)
    {
      err := redis.HSet(RESERVED, domain, Text(user));
    }

    method GetSubdomainOwner(domain: string) returns (r: Result<string, Error>)
      modifies redis`trace, redis`faults
      ensures redis.trace == old(redis.trace) + [redis.store]
      ensures if r == Err(RedisDown) then redis.faults == old(redis.faults) + 1
              else redis.faults == old(redis.faults) && r == ReadUser(redis.store, domain)
    {
      var reply := redis.HGet(RESERVED, domain);
      match reply {
        case Down => return Err(RedisDown);
        case WrongKind => return Err(KindMismatch);
        case Nil => return Ok("");
        case Got(data) =>
          if !data.Text? {
            return Err(Malformed);
          }
          return Ok(data.text);
      }
    }

    method DeleteSubdomainOwner(domain: string) returns (err: Option<Error>)
      modifies redis
      ensures redis.trace == old(redis.trace) + [redis.store]
      ensures Redis.Executed(err, HashKey(old(redis.store), RESERVED), old(redis.faults), redis.faults)
      ensures redis.store == if err.None? then Release(old(redis.store), domain) else old(redis.store)
    {
      err := redis.HDel(RESERVED, domain);
    }

    // ---------------------------------------------------------- subdomains

    /**
     * Success means the fault-free outcome. After an error either nothing has changed, or the
     * reservation is gone again, unless the rollback failed too. Either way, what is left is a
     * store from which the theorems about runs go on.
     */
    method AddSubdomain(user: string, domain: string, ips: seq<IP>) returns (err: Option<Error>)
      modifies redis
      ensures err.None? || redis.faults == old(redis.faults) ==>
                (redis.store, err) == AfterAdd(identity, old(redis.store), user, domain, ips)
      ensures err.Some? ==> AddFailed(identity, old(redis.store), user, domain,
                                      redis.faults - old(redis.faults), redis.store)
      ensures Visits(identity, old(redis.store), DnsOp.AddSubdomain(user, domain, ips), redis.store)
      ensures Passed(old(redis.trace), redis.trace, identity, old(redis.store),
                     DnsOp.AddSubdomain(user, domain, ips))
    {
      ghost var before, s, op := redis.trace, redis.store, DnsOp.AddSubdomain(user, domain, ips);
      err := CheckAdd(user, domain);
      IdlePasses(before, redis.trace, identity, s, op);
      if err.Some? {
        return err;
      }
      var (name, zone) := SplitDomain(domain);
      err := SetSubdomainOwner(domain, user);
      OneMorePassed(before, redis.trace[..|redis.trace| - 1], identity, s, op, redis.store);
      if err.Some? {
        return err;
      }
      ghost var reserved, atReserved := redis.store, redis.trace;
      ReserveKeepsSlots(s, domain, user, domain);
      err := PublishAddresses(zone, name, ips);
      if redis.trace == atReserved + [reserved] + [redis.store] {
        OneMorePassed(before, atReserved, identity, s, op, reserved);
        OneMorePassed(before, atReserved + [reserved], identity, s, op, redis.store);
      } else {
        OneMorePassed(before, atReserved, identity, s, op, redis.store);
      }
      if err.Some? {
        // the deferred rollback
        SetThenDeleteIsDelete(s, RESERVED, domain, Text(user));
        ghost var atFailed := redis.trace;
        var _ := DeleteSubdomainOwner(domain);
        OneMorePassed(before, atFailed, identity, s, op, redis.store);
      }
    }

    /** The checks of `AddSubdomain`; they only read. */
    method CheckAdd(user: string, domain: string) returns (err: Option<Error>)
      modifies redis`trace, redis`faults
      ensures Idle(old(redis.trace), redis.trace, redis.store)
      ensures if err == Some(RedisDown) then redis.faults == old(redis.faults) + 1
              else redis.faults == old(redis.faults) && err == RefuseAdd(identity, redis.store, user, domain)
    {
      if !ValidateDomain(domain) {
        return Some(InvalidDomain);
      }
      var (name, zone) := SplitDomain(domain);
      var owner := GetZoneOwner(zone);
      if owner.Err? {
        return Some(owner.error);
      }
      if owner.value == "" {
        return Some(NotManaged);
      }
      if owner.value == identity {
        var holder := GetSubdomainOwner(domain);
        if holder.Err? {
          return Some(holder.error);
        }
        if holder.value != "" {
          return Some(SubdomainUsed);
        }
      } else if owner.value != user {
        return Some(NotAllowed);
      }
      return None;
    }

    /** The part of `AddSubdomain` that the deferred rollback guards. */
    method PublishAddresses(zone: string, name: string, ips: seq<IP>) returns (err: Option<Error>)
      modifies redis
      ensures redis.trace == old(redis.trace) + [redis.store]
              || redis.trace == old(redis.trace) + [old(redis.store)] + [redis.store]
      ensures Published(err, old(redis.store), redis.store, zone, name, ips, redis.faults == old(redis.faults))
      ensures old(redis.faults) <= redis.faults <= old(redis.faults) + 1
    {
      var zr: Zones.Zone;
      err, zr := GetZoneRecords(zone, name);
      if err.Some? {
        return err;
      }
      AddAddresses(zr, ips);
      err := SetZoneRecords(zone, name, zr);
    }

    method AddAddresses(zr: Zones.Zone, ips: seq<IP>)
      modifies zr
      ensures zr.records == AddAll(old(zr.records), ips)
    {
      for i := 0 to |ips|
        invariant zr.records == AddAll(old(zr.records), ips[..i])
      {
        assert ips[..i + 1][..i] == ips[..i];
        zr.Add(RecordFromIP(ips[i]));
      }
      assert ips[..|ips|] == ips;
    }

    method RemoveAddresses(zr: Zones.Zone, ips: seq<IP>)
      modifies zr
      ensures zr.records == RemoveAll(old(zr.records), ips)
    {
      for i := 0 to |ips|
        invariant zr.records == RemoveAll(old(zr.records), ips[..i])
      {
        assert ips[..i + 1][..i] == ips[..i];
        zr.Remove(RecordFromIP(ips[i]));
      }
      assert ips[..|ips|] == ips;
    }

    method RemoveSubdomain(user: string, domain: string, ips: seq<IP>) returns (err: Option<Error>)
      modifies redis
      ensures err.None? || redis.faults == old(redis.faults) ==>
                (redis.store, err) == AfterRemove(old(redis.store), user, domain, ips)
      ensures err.Some? ==> redis.store == old(redis.store) || redis.store == Withdraw(old(redis.store), domain)
      ensures redis.faults <= old(redis.faults) + 1
      ensures Visits(identity, old(redis.store), DnsOp.RemoveSubdomain(user, domain, ips), redis.store)
      ensures Passed(old(redis.trace), redis.trace, identity, old(redis.store),
                     DnsOp.RemoveSubdomain(user, domain, ips))
    {
      ghost var before, s, op := redis.trace, redis.store, DnsOp.RemoveSubdomain(user, domain, ips);
      if !ValidateDomain(domain) {
        return Some(InvalidDomain);
      }
      var (name, zone) := SplitDomain(domain);
      var owner := GetZoneOwner(zone);
      IdlePasses(before, redis.trace, identity, s, op);
      if owner.Err? {
        return Some(owner.error);
      }
      if owner.value == "" {
        ghost var tr := redis.trace;
        err := DeleteSubdomainOwner(domain);
        OneMorePassed(before, tr, identity, s, op, redis.store);
        return err;
      }
      ghost var owned := redis.trace;
      err := RemoveFromOwned(user, domain, ips);
      PassedLater(before, owned, redis.trace, identity, s, op);
    }

    /** `RemoveSubdomain` in a zone with an owner. */
    method RemoveFromOwned(user: string, domain: string, ips: seq<IP>) returns (err: Option<Error>)
      requires ValidateDomain(domain)
      requires ReadOwner(redis.store, SplitDomain(domain).1).Ok?
      requires ReadOwner(redis.store, SplitDomain(domain).1).value != ""
      modifies redis
      ensures err.None? || redis.faults == old(redis.faults) ==>
                (redis.store, err) == AfterRemove(old(redis.store), user, domain, ips)
      ensures err.Some? ==> redis.store == old(redis.store) || redis.store == Withdraw(old(redis.store), domain)
      ensures old(redis.faults) <= redis.faults <= old(redis.faults) + 1
      ensures Visits(identity, old(redis.store), DnsOp.RemoveSubdomain(user, domain, ips), redis.store)
      ensures Passed(old(redis.trace), redis.trace, identity, old(redis.store),
                     DnsOp.RemoveSubdomain(user, domain, ips))
    {
      ghost var before, s, op := redis.trace, redis.store, DnsOp.RemoveSubdomain(user, domain, ips);
      var zr: Zones.Zone;
      err, zr := LoadRemovable(user, domain);
      IdlePasses(before, redis.trace, identity, s, op);
      if err.Some? {
        return err;
      }
      var empty := zr.IsEmpty();
      if empty {
        return None;
      }
      RemoveAddresses(zr, ips);
      ghost var loaded := redis.trace;
      err := WriteBack(domain, zr);
      if redis.trace == loaded + [Withdraw(s, domain)] + [redis.store] {
        OneMorePassed(before, loaded, identity, s, op, Withdraw(s, domain));
        OneMorePassed(before, loaded + [Withdraw(s, domain)], identity, s, op, redis.store);
      } else {
        OneMorePassed(before, loaded, identity, s, op, redis.store);
      }
    }

    /** Stores what is left of a slot; an empty slot goes, and its reservation after it. */
    method WriteBack(domain: string, zr: Zones.Zone) returns (err: Option<Error>)
      requires HashKey(redis.store, RESERVED) && ReadSlot(redis.store, domain).Ok?
      modifies redis
      ensures if Records.IsEmpty(zr.records)
              then redis.trace == old(redis.trace) + [redis.store]
                   || redis.trace == old(redis.trace) + [Withdraw(old(redis.store), domain)] + [redis.store]
              else redis.trace == old(redis.trace) + [redis.store]
      ensures if err.None? then redis.faults == old(redis.faults) else redis.faults == old(redis.faults) + 1
      ensures err.None? ==> redis.store == Remaining(old(redis.store), domain, zr.records)
      ensures err.Some? ==> redis.store == old(redis.store)
                            || (Records.IsEmpty(zr.records)
                                && redis.store == Withdraw(old(redis.store), domain))
    {
      var (name, zone) := SplitDomain(domain);
      RecordsKeyIsApart(zone);
      var empty := zr.IsEmpty();
      if empty {
        err := DeleteZoneRecords(zone, name);
        if err.Some? {
          return err;
        }
        err := DeleteSubdomainOwner(domain);
        return err;
      }
      err := SetZoneRecords(zone, name, zr);
    }

    /** The reads of `RemoveSubdomain` after the zone's owner: the holder, then the records. */
    method LoadRemovable(user: string, domain: string) returns (err: Option<Error>, zr: Zones.Zone)
      modifies redis`trace, redis`faults
      ensures fresh(zr)
      ensures Idle(old(redis.trace), redis.trace, redis.store)
      ensures if err == Some(RedisDown) then redis.faults == old(redis.faults) + 1
              else redis.faults == old(redis.faults) && Loaded(err, zr.records, Removable(redis.store, user, domain))
    {
      var (name, zone) := SplitDomain(domain);
      var holder := GetSubdomainOwner(domain);
      if holder.Err? {
        zr := new Zones.Zone();
        return Some(holder.error), zr;
      }
      if holder.value != "" && holder.value != user {
        zr := new Zones.Zone();
        return Some(NotAllowed), zr;
      }
      err, zr := GetZoneRecords(zone, name);
    }

    // ---------------------------------------------------------- delegations

    method AddDomainDelegate(gateway: string, user: string, domain: string) returns (err: Option<Error>)
      modifies redis
      ensures err.None? || redis.faults == old(redis.faults) ==>
                (redis.store, err) == AfterAddDelegate(old(redis.store), gateway, user, domain)
      ensures err.Some? ==> redis.store == old(redis.store) || redis.store == Claim(old(redis.store), domain, user)
      ensures Visits(identity, old(redis.store), DnsOp.AddDelegate(gateway, user, domain), redis.store)
      ensures Passed(old(redis.trace), redis.trace, identity, old(redis.store),
                     DnsOp.AddDelegate(gateway, user, domain))
    {
      ghost var before, s, op := redis.trace, redis.store, DnsOp.AddDelegate(gateway, user, domain);
      if !ValidateDomain(domain) {
        return Some(InvalidDomain);
      }
      var owner := GetZoneOwner(domain);
      IdlePasses(before, redis.trace, identity, s, op);
      if owner.Err? {
        return Some(owner.error);
      }
      if owner.value != "" && owner.value != user {
        return Some(NotAllowed);
      }
      ghost var checked := redis.trace;
      err := SetZoneOwner(domain, user);
      OneMorePassed(before, checked, identity, s, op, redis.store);
      if err.Some? {
        return err;
      }
      ghost var claimed := redis.trace;
      err := SetZoneOwnerTXTRecord(domain, gateway, user);
      OneMorePassed(before, claimed, identity, s, op, redis.store);
    }

    method SetZoneOwnerTXTRecord(domain: string, gateway: string, owner: string) returns (err: Option<Error>)
      modifies redis
      ensures redis.trace == old(redis.trace) + [redis.store]
      ensures Redis.Executed(err, HashKey(old(redis.store), RecordsKey(domain)), old(redis.faults), redis.faults)
      ensures redis.store == if err.None? then Announce(old(redis.store), domain, gateway, owner) else old(redis.store)
    {
      var zone := new Zones.Zone();
      zone.Add(OwnerRecord(gateway, owner));
      err := SetZoneRecords(domain, OWNER_LABEL, zone);
    }

    method RemoveDomainDelegate(user: string, domain: string) returns (err: Option<Error>)
      modifies redis
      ensures err.None? || redis.faults == old(redis.faults) ==>
                (redis.store, err) == AfterRemoveDelegate(old(redis.store), user, domain)
      ensures err.Some? ==> redis.store == old(redis.store) || redis.store == Del(old(redis.store), domain)
      ensures Visits(identity, old(redis.store), DnsOp.RemoveDelegate(user, domain), redis.store)
      ensures Passed(old(redis.trace), redis.trace, identity, old(redis.store),
                     DnsOp.RemoveDelegate(user, domain))
    {
      ghost var before, s, op := redis.trace, redis.store, DnsOp.RemoveDelegate(user, domain);
      if !ValidateDomain(domain) {
        return Some(InvalidDomain);
      }
      var owner := GetZoneOwner(domain);
      IdlePasses(before, redis.trace, identity, s, op);
      if owner.Err? {
        return Some(owner.error);
      }
      if owner.value != "" && owner.value != user {
        return Some(NotAllowed);
      }
      ghost var checked := redis.trace;
      err := redis.Del(domain);
      OneMorePassed(before, checked, identity, s, op, redis.store);
      if err.Some? {
        return err;
      }
      ghost var deleted := redis.trace;
      err := redis.HDel(ZONES, domain);
      OneMorePassed(before, deleted, identity, s, op, redis.store);
    }

    // ---------------------------------------------------------- cleanup

    /** Without faults every blank field goes; a failed listing leaves the store alone. */
    method Cleanup() returns (err: Option<Error>)
      modifies redis
      ensures redis.faults == old(redis.faults) ==>
                (redis.store, err) == After(identity, old(redis.store), DnsOp.Cleanup)
      ensures err.Some? ==> redis.store == old(redis.store)
      ensures Visits(identity, old(redis.store), DnsOp.Cleanup, redis.store)
      ensures Passed(old(redis.trace), redis.trace, identity, old(redis.store), DnsOp.Cleanup)
    {
      ghost var s := redis.store;
      var zones;
      err, zones := ListCorednsZones();
      if err.Some? {
        return err;
      }
      for i := 0 to |zones|
        invariant old(redis.faults) <= redis.faults
        invariant PartlyCleaned(s, redis.store)
        invariant Passed(old(redis.trace), redis.trace, identity, s, DnsOp.Cleanup)
        invariant redis.faults == old(redis.faults) ==> ZonesClean(redis.store, zones[..i])
      {
        assert zones[i] in zones;
        ghost var t := redis.store;
        var _ := CleanUp(zones[i], s);
        if redis.faults == old(redis.faults) {
          OneMoreZone(t, redis.store, zones, i);
        }
      }
      if redis.faults == old(redis.faults) {
        AllZonesVisited(s, redis.store, zones);
      }
    }

    /** The zones: a list of keys, compacted in place to the ones that hold a hash. */
    method ListCorednsZones() returns (err: Option<Error>, zones: seq<string>)
      modifies redis`trace, redis`faults
      ensures Idle(old(redis.trace), redis.trace, redis.store)
      ensures old(redis.faults) <= redis.faults
      ensures err.None? <==> redis.faults == old(redis.faults)
      ensures err.None? ==> Redis.Lists(zones, set k | k in redis.store && ZoneLike(redis.store, k))
    {
      var keys;
      err, keys := redis.KeysEndingInDot();
      if err.Some? {
        return err, [];
      }
      var list := new string[|keys|](i requires 0 <= i < |keys| => keys[i]);
      var n := 0;
      for i := 0 to list.Length
        invariant n <= i
        invariant redis.faults == old(redis.faults)
        invariant Idle(old(redis.trace), redis.trace, redis.store)
        invariant forall k :: i <= k < list.Length ==> list[k] == keys[k]
        invariant FoundAmong(list[..n], keys[..i], redis.store)
      {
        var key := list[i];
        ghost var found := list[..n];
        var failed, hash := redis.IsHash(key);
        if failed.Some? {
          return failed, [];
        }
        if hash {
          list[n] := key;
          n := n + 1;
        }
        assert list[..n] == if hash then found + [key] else found;
        LookAtOneMore(found, keys, i, redis.store);
      }
      assert keys[..|keys|] == keys;
      return None, list[..n];
    }

    /** One zone; a field that cannot be read or deleted is skipped. */
    method CleanUp(zone: string, ghost s: Store) returns (err: Option<Error>)
      requires ZoneLike(s, zone) && PartlyCleaned(s, redis.store)
      modifies redis
      ensures PartlyCleaned(s, redis.store)
      ensures Trimmed(old(redis.store), redis.store, zone)
      ensures old(redis.faults) <= redis.faults
      ensures redis.faults == old(redis.faults) ==> NoBlanks(redis.store, zone)
      ensures Passed(old(redis.trace), redis.trace, identity, s, DnsOp.Cleanup)
    {
      var fields;
      err, fields := redis.HKeys(zone);
      if err.Some? {
        return err;
      }
      for i := 0 to |fields|
        invariant PartlyCleaned(s, redis.store)
        invariant Trimmed(old(redis.store), redis.store, zone)
        invariant old(redis.faults) <= redis.faults
        invariant redis.faults == old(redis.faults) ==> NoneBlank(redis.store, zone, fields[..i])
        invariant Passed(old(redis.trace), redis.trace, identity, s, DnsOp.Cleanup)
      {
        ghost var t := redis.store;
        CleanField(zone, fields[i], s, old(redis.store));
        if redis.faults == old(redis.faults) {
          OneMoreNotBlank(t, redis.store, zone, fields, i);
        }
      }
      if redis.faults == old(redis.faults) {
        AllFieldsVisited(old(redis.store), redis.store, zone, fields);
      }
    }

    method CleanField(zone: string, field: string, ghost s: Store, ghost start: Store)
      requires ZoneLike(s, zone) && PartlyCleaned(s, redis.store)
      requires Trimmed(start, redis.store, zone)
      modifies redis
      ensures PartlyCleaned(s, redis.store)
      ensures Trimmed(start, redis.store, zone)
      ensures forall f :: old(NotBlank(redis.store, zone, f)) ==> NotBlank(redis.store, zone, f)
      ensures old(redis.faults) <= redis.faults
      ensures redis.faults == old(redis.faults) ==> NotBlank(redis.store, zone, field)
      ensures Passed(old(redis.trace), redis.trace, identity, s, DnsOp.Cleanup)
    {
      var value := redis.HGet(zone, field);
      assert HashKey(redis.store, zone);
      if value.Got? && Blank(value.value) {
        DropField(s, start, redis.store, zone, field);
        ghost var read := redis.trace;
        OneMorePassed(old(redis.trace), old(redis.trace), identity, s, DnsOp.Cleanup, redis.store);
        var _ := redis.HDel(zone, field);
        OneMorePassed(old(redis.trace), read, identity, s, DnsOp.Cleanup, redis.store);
      }
    }
  }

  /** The zones among the keys looked at, each once. */
  ghost predicate FoundAmong(found: seq<string>, seen: seq<string>, s: Store)
  {
    && (forall k :: k in found <==> k in seen && ZoneLike(s, k))
    && (forall a, b :: 0 <= a < b < |found| ==> found[a] != found[b])
  }

  lemma LookAtOneMore(found: seq<string>, keys: seq<string>, i: nat, s: Store)
    requires i < |keys| && FoundAmong(found, keys[..i], s)
    requires Redis.Lists(keys, set k | k in s && EndsWithDot(k))
    ensures FoundAmong(if keys[i] in s && s[keys[i]].Hash? then found + [keys[i]] else found, keys[..i + 1], s)
  {
    assert keys[i] in keys && keys[i] !in keys[..i];
    assert keys[..i + 1] == keys[..i] + [keys[i]];
  }

  ghost predicate ZonesClean(s: Store, zones: seq<string>)
  {
    forall z :: z in zones ==> NoBlanks(s, z)
  }

  lemma OneMoreZone(s: Store, t: Store, zones: seq<string>, i: nat)
    requires i < |zones| && ZonesClean(s, zones[..i])
    requires Trimmed(s, t, zones[i]) && NoBlanks(t, zones[i])
    ensures ZonesClean(t, zones[..i + 1])
  {
    forall z | z in zones[..i + 1] ensures NoBlanks(t, z) {
      if z != zones[i] {
        assert NoBlanks(s, z) && SameAt(s, t, z);
        assert Fields(s, z) == Fields(t, z);
        forall f | f in Fields(t, z) ensures NotBlank(t, z, f) {
          assert NotBlank(s, z, f);
        }
      }
    }
  }

  lemma AllZonesVisited(s: Store, t: Store, zones: seq<string>)
    requires PartlyCleaned(s, t) && ZonesClean(t, zones[..|zones|])
    requires Redis.Lists(zones, set k | k in s && ZoneLike(s, k))
    ensures t == CleanStore(s)
  {
    forall k, f | k in s && ZoneLike(s, k) && f in Fields(t, k) ensures !Blank(Fields(t, k)[f]) {
      assert k in zones && NoBlanks(t, k) && NotBlank(t, k, f);
    }
    FullyCleaned(s, t);
  }

  ghost predicate NotBlank(s: Store, key: string, field: string)
  {
    field in Fields(s, key) ==> !Blank(Fields(s, key)[field])
  }

  /** `t` is `s` with some fields of one hash gone. */
  ghost predicate Trimmed(s: Store, t: Store, key: string)
  {
    && (forall k :: k != key ==> SameAt(s, t, k))
    && (forall f :: f in Fields(t, key) ==> f in Fields(s, key) && Fields(t, key)[f] == Fields(s, key)[f])
  }

  lemma DropField(s: Store, start: Store, t: Store, key: string, field: string)
    requires PartlyCleaned(s, t) && ZoneLike(s, key) && Trimmed(start, t, key)
    requires field in Fields(t, key) ==> Blank(Fields(t, key)[field])
    ensures PartlyCleaned(s, HDel(t, key, field))
    ensures Trimmed(start, HDel(t, key, field), key)
    ensures forall f :: NotBlank(t, key, f) ==> NotBlank(HDel(t, key, field), key, f)
    ensures NotBlank(HDel(t, key, field), key, field)
  {
    DropOneMore(s, t, key, field);
    forall k | k != key ensures SameAt(start, HDel(t, key, field), k) {
      assert SameAt(start, t, k);
    }
  }

  ghost predicate NoneBlank(s: Store, key: string, fields: seq<string>)
  {
    forall f :: f in fields ==> NotBlank(s, key, f)
  }

  lemma OneMoreNotBlank(s: Store, t: Store, key: string, fields: seq<string>, i: nat)
    requires i < |fields| && NoneBlank(s, key, fields[..i])
    requires forall f :: NotBlank(s, key, f) ==> NotBlank(t, key, f)
    requires NotBlank(t, key, fields[i])
    ensures NoneBlank(t, key, fields[..i + 1])
  {}

  lemma AllFieldsVisited(s: Store, t: Store, key: string, fields: seq<string>)
    requires Trimmed(s, t, key) && Redis.Lists(fields, Fields(s, key).Keys)
    requires NoneBlank(t, key, fields[..|fields|])
    ensures NoBlanks(t, key)
  {
    forall f | f in Fields(t, key) ensures NotBlank(t, key, f) {
      assert f in fields;
    }
  }

  ghost predicate NoBlanks(s: Store, key: string)
  {
    forall f :: f in Fields(s, key) ==> NotBlank(s, key, f)
  }
}
