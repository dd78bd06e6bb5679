/** The whole gateway on one redis: runs of operations that may fail or be cut short. */
module Gateway {
  import opened Json
  import opened Domains
  import opened Records
  import opened Keyspace
  import opened Reservations
  import opened Cleaning
  import opened DnsSpec
  import opened Layout
  import opened Refinement
  import opened Subdomains
  import R = Registry
  import P = Proxies
  import C = ReservationCache

  datatype Gateway = Gateway(identity: string, codec: P.Codec)

  datatype Op = Dns(dns: DnsOp) | Proxy(proxy: P.ProxyOp) | Cache(cache: C.CacheOp)

  /** `t` can be found in redis during, or after, the operation begun in `s`. */
  ghost predicate Step(g: Gateway, s: Store, op: Op, t: Store)
  {
    match op
    case Dns(o) => DnsSpec.Visits(g.identity, s, o, t)
    case Proxy(o) => P.Visits(g.codec, s, o, t)
    case Cache(o) => C.Visits(s, o, t)
  }

  /**
   * A run: each operation starts in the store the one before it left, whether that one finished,
   * failed half-way or was interrupted between two commands.
   */
  ghost predicate IsRun(g: Gateway, stores: seq<Store>, ops: seq<Op>)
  {
    && |stores| == |ops| + 1
    && forall i :: 0 <= i < |ops| ==> Step(g, stores[i], ops[i], stores[i + 1])
  }

  ghost predicate Reachable(g: Gateway, s: Store)
  {
    exists stores, ops :: IsRun(g, stores, ops) && stores[0] == map[] && stores[|ops|] == s
  }

  lemma EmptyIsReachable(g: Gateway)
    ensures Reachable(g, map[])
  {
    var start: Store := map[];
    assert IsRun(g, [start], []);
  }

  lemma StepReaches(g: Gateway, s: Store, op: Op, t: Store)
    requires Reachable(g, s) && Step(g, s, op, t)
    ensures Reachable(g, t)
  {
    hide Step;
    var stores, ops :| IsRun(g, stores, ops) && stores[0] == map[] && stores[|ops|] == s;
    assert IsRun(g, stores + [t], ops + [op]);
  }

  /** Operations that meet no fault lead from reachable stores to reachable ones. */
  lemma AfterReaches(g: Gateway, s: Store, op: DnsOp)
    requires Reachable(g, s)
    ensures Step(g, s, Dns(op), After(g.identity, s, op).0)
    ensures Reachable(g, After(g.identity, s, op).0)
  {
    hide Reachable, DnsSpec.Visits, After;
    AfterIsVisited(g.identity, s, op);
    StepReaches(g, s, Dns(op), After(g.identity, s, op).0);
  }

  // ------------------------------------------------------------ every reachable store

  lemma ProxyStepIsForeign(g: Gateway, s: Store, op: P.ProxyOp, t: Store)
    requires P.Visits(g.codec, s, op, t)
    ensures forall k :: k != P.Key(op.domain) ==> SameAt(s, t, k)
    ensures PROXY_PREFIX <= P.Key(op.domain)
    ensures WellLaid(s) ==> WellLaid(t)
  {
    hide SlotOk, ValidateDomain, WellFormed, P.ValkyrieEncode, P.ValkyrieDecode;
    assert P.Key(op.domain)[..|PROXY_PREFIX|] == PROXY_PREFIX;
    assert P.Key(op.domain)[0] == '/' && ZONES[0] == 'z' && RESERVED[0] == 'm' && RESERVATIONS[0] == 't';
  }

  lemma CacheStepIsForeign(s: Store, op: C.CacheOp, t: Store)
    requires WellLaid(s) && C.Visits(s, op, t)
    ensures forall k :: k != RESERVATIONS ==> SameAt(s, t, k)
    ensures WellLaid(t)
  {
    hide SlotOk, ValidateDomain, WellFormed, C.OfKinds, C.Load;
    KindsFit(s);
    assert RESERVATIONS in s ==> EntryOk(RESERVATIONS, s[RESERVATIONS]);
    match op
    case Put(r) =>
      PutKeepsLayout(s, RESERVATIONS, Fields(s, RESERVATIONS)[r.id := Saved(C.SCHEMA, r)]);
    case Drop(id) =>
      PutKeepsLayout(s, RESERVATIONS, Fields(s, RESERVATIONS) - {id});
    case Clear(kinds) =>
      if t != s {
        ClearKeepsLayout(s, kinds, t);
      }
  }

  lemma ClearKeepsLayout(s: Store, kinds: seq<Kind>, t: Store)
    requires WellLaid(s) && HashKey(s, RESERVATIONS) && C.PartlyCleared(s, t, kinds)
    ensures WellLaid(t)
  {
    hide SlotOk, ValidateDomain, WellFormed, C.OfKinds, C.Load;
    assert RESERVATIONS in s ==> EntryOk(RESERVATIONS, s[RESERVATIONS]);
    forall id | id in Fields(t, RESERVATIONS) ensures Fields(t, RESERVATIONS)[id].Saved? {
      assert id in C.Cached(t) && id in C.Cached(s) && C.Cached(t)[id] == C.Cached(s)[id];
    }
    PutKeepsLayout(s, RESERVATIONS, Fields(t, RESERVATIONS));
    var u := PutFields(s, RESERVATIONS, Fields(t, RESERVATIONS));
    forall k ensures SameAt(u, t, k) {
      if k != RESERVATIONS {
        assert SameAt(s, t, k);
      } else {
        assert HashKey(t, k) && k in t ==> t[k] == Hash(Fields(t, k));
      }
    }
    C.SameEverywhere(u, t);
  }

  /** One step keeps the layout, and moves the registry only as the DNS operations may. */
  lemma StepRefines(g: Gateway, s: Store, op: Op, t: Store)
    requires WellLaid(s) && Step(g, s, op, t)
    ensures WellLaid(t)
    ensures op.Dns? ==> R.Visits(g.identity, Abs(s), op.dns, Abs(t))
    ensures !op.Dns? ==> Abs(t) == Abs(s)
  {
    hide WellLaid, Abs, C.Visits, P.Visits, DnsSpec.Visits, R.Visits;
    match op
    case Dns(o) =>
      VisitsRefine(g.identity, s, o, t);
    case Proxy(o) =>
      ProxyStepIsForeign(g, s, o, t);
      ForeignKey(s, t, P.Key(o.domain));
    case Cache(o) =>
      CacheStepIsForeign(s, o, t);
      ForeignKey(s, t, RESERVATIONS);
  }

  lemma {:induction false} RunKeepsLayout(g: Gateway, stores: seq<Store>, ops: seq<Op>, n: nat)
    requires IsRun(g, stores, ops) && WellLaid(stores[0]) && n <= |ops|
    ensures WellLaid(stores[n])
  {
    hide WellLaid, Step;
    if n > 0 {
      RunKeepsLayout(g, stores, ops, n - 1);
      StepRefines(g, stores[n - 1], ops[n - 1], stores[n]);
    }
  }

  /**
   * Every reachable store is well laid out: each key holds what its manager expects, and every
   * stored slot decodes to records filed under their own type.
   */
  lemma ReachableIsWellLaid(g: Gateway, s: Store)
    requires Reachable(g, s)
    ensures WellLaid(s)
  {
    hide Step;
    var stores, ops :| IsRun(g, stores, ops) && stores[0] == map[] && stores[|ops|] == s;
    RunKeepsLayout(g, stores, ops, |ops|);
  }

  // ------------------------------------------------------------ exclusive reservations

  /** `d` lies in a zone of `owner` and is reserved for a user. */
  predicate ReservedFor(owner: string, s: Store, d: string, user: string)
  {
    && WellFormed(d) && user != "" && owner != ""
    && ReadOwner(s, SplitDomain(d).1) == Ok(owner)
    && ReadUser(s, d) == Ok(user)
  }

  lemma ReservedAgrees(owner: string, s: Store, d: string, user: string)
    requires WellLaid(s) && WellFormed(d)
    ensures ReservedFor(owner, s, d, user) <==> R.Reserved(owner, Abs(s), d, user)
    ensures ReadSlot(s, d) == Ok(Abs(s).records[d])
  {
    hide WellFormed, SplitDomain, WellLaid, Abs, ReadOwner, ReadUser, ReadSlot;
    RowsAreReads(s, d);
  }

  lemma StepKeepsReservation(g: Gateway, owner: string, s: Store, op: Op, t: Store, d: string, user: string)
    requires WellLaid(s) && Step(g, s, op, t) && ReservedFor(owner, s, d, user)
    requires op.Dns? ==> !R.MayDisturb(g.identity, owner, d, user, op.dns)
    ensures ReservedFor(owner, t, d, user) && ReadSlot(t, d) == ReadSlot(s, d)
  {
    assert WellFormed(d);
    hide WellLaid, Step, Abs, R.Reserved, R.Visits, ReservedFor, ReadSlot, R.MayDisturb, WellFormed;
    StepRefines(g, s, op, t);
    ReservedAgrees(owner, s, d, user);
    ReservedAgrees(owner, t, d, user);
    if op.Dns? {
      R.ReservationKept(g.identity, owner, Abs(s), op.dns, Abs(t), d, user);
    }
  }

  /**
   * Exclusive reservation, in zones of the gateway and in delegated ones: while nobody who may do
   * so touches it, a reserved subdomain stays with its holder, with the same records, through
   * every run.
   */
  lemma {:induction false} ReservationIsExclusive(
    g: Gateway, owner: string, stores: seq<Store>, ops: seq<Op>, n: nat, d: string, user: string)
    requires IsRun(g, stores, ops) && WellLaid(stores[0]) && n <= |ops|
    requires ReservedFor(owner, stores[0], d, user)
    requires forall i :: 0 <= i < |ops| && ops[i].Dns? ==>
               !R.MayDisturb(g.identity, owner, d, user, ops[i].dns)
    ensures ReservedFor(owner, stores[n], d, user)
    ensures ReadSlot(stores[n], d) == ReadSlot(stores[0], d)
  {
    hide WellLaid, Step, ReservedFor, ReadSlot, R.MayDisturb;
    if n > 0 {
      ReservationIsExclusive(g, owner, stores, ops, n - 1, d, user);
      RunKeepsLayout(g, stores, ops, n - 1);
      StepKeepsReservation(g, owner, stores[n - 1], ops[n - 1], stores[n], d, user);
    }
  }

  /**
   * So no run of operations by others, of any kind, touches it: others than the holder and the
   * owner of the zone, which in a zone of the gateway is the gateway.
   */
  lemma OthersCannotTouch(
    g: Gateway, owner: string, stores: seq<Store>, ops: seq<Op>, n: nat, d: string, user: string)
    requires IsRun(g, stores, ops) && WellLaid(stores[0]) && n <= |ops|
    requires ReservedFor(owner, stores[0], d, user)
    requires forall i :: 0 <= i < |ops| && ops[i].Dns? && !ops[i].dns.Cleanup? ==>
               ops[i].dns.user != user && ops[i].dns.user != owner
    ensures ReservedFor(owner, stores[n], d, user)
    ensures ReadSlot(stores[n], d) == ReadSlot(stores[0], d)
  {
    hide IsRun, WellLaid, ReservedFor, ReadSlot;
    ReservationIsExclusive(g, owner, stores, ops, n, d, user);
  }

  // ------------------------------------------------------------ crash and fault safety

  /** A slot that holds no records, or the zone's ownership record, or whose domain somebody holds. */
  predicate SlotCovered(s: Store, z: string, name: string)
  {
    || name == OWNER_LABEL
    || ReadRecords(s, z, name) == Ok(map[])
    || (ReadUser(s, DomainOf(name, z)).Ok? && ReadUser(s, DomainOf(name, z)).value != "")
  }

  predicate AllCovered(s: Store, z: string)
  {
    forall name :: name in Fields(s, RecordsKey(z)) ==> SlotCovered(s, z, name)
  }

  /** The gateway owns the zone, and all its slots are covered. */
  predicate Covered(id: string, s: Store, z: string)
  {
    && WellFormed(z) && id != "" && ReadOwner(s, z) == Ok(id)
    && AllCovered(s, z)
  }

  lemma CoveredAgrees(id: string, s: Store, z: string)
    requires WellLaid(s) && WellFormed(z)
    ensures Covered(id, s, z) <==> R.Covered(id, Abs(s), z)
  {
    hide ValidateDomain, WellFormed, SplitDomain, WellLaid, Abs, ReadOwner, SlotCovered, RecordsKey;
    RowsAreReads(s, z);
    if Covered(id, s, z) {
      forall d | WellFormed(d) && R.Zone(d) == z && d != R.OwnerDomain(z) && Abs(s).records[d] != map[]
        ensures Abs(s).holder[d] != ""
      {
        CoveredDomain(s, z, d);
      }
    }
    if R.Covered(id, Abs(s), z) {
      forall name | name in Fields(s, RecordsKey(z)) ensures SlotCovered(s, z, name) {
        StoredSlot(s, z, name);
        CoveredSlot(s, z, name);
      }
    }
  }

  lemma CoveredDomain(s: Store, z: string, d: string)
    requires WellLaid(s) && WellFormed(d) && R.Zone(d) == z && d != R.OwnerDomain(z)
    requires forall name :: name in Fields(s, RecordsKey(z)) ==> SlotCovered(s, z, name)
    requires Abs(s).records[d] != map[]
    ensures Abs(s).holder[d] != ""
  {
    hide ValidateDomain, WellFormed, SplitDomain, WellLaid, Abs, RecordsKey, DecodeValue;
    RowsAreReads(s, d);
    SlotRebuilds(d);
    assert SplitDomain(d).0 in Fields(s, RecordsKey(z));
  }

  lemma CoveredSlot(s: Store, z: string, name: string)
    requires WellLaid(s) && WellFormed(z) && SlotName(z, name)
    requires forall d :: WellFormed(d) && R.Zone(d) == z && d != R.OwnerDomain(z) && Abs(s).records[d] != map[] ==>
               Abs(s).holder[d] != ""
    ensures SlotCovered(s, z, name)
  {
    hide ValidateDomain, WellFormed, SplitDomain, WellLaid, Abs, ReadUser, ReadRecords, SlotName;
    SlotNamesMatchDomains(z, name);
    var d := DomainOf(name, z);
    RowsAreReads(s, d);
    OwnerDomainLabel(z);
  }

  lemma OwnerDomainLabel(z: string)
    requires WellFormed(z)
    ensures SplitDomain(R.OwnerDomain(z)) == (OWNER_LABEL, z)
  {
    LabelSlot(OWNER_LABEL, z);
  }

  /** Every stored slot has the name of one. */
  lemma StoredSlot(s: Store, z: string, name: string)
    requires WellLaid(s) && WellFormed(z) && name in Fields(s, RecordsKey(z))
    ensures SlotName(z, name)
  {
    hide ValidateDomain, WellFormed, SlotRecords, DecodeValue, SlotName;
    RecordsKeyOfZone(z);
    assert EntryOk(RecordsKey(z), s[RecordsKey(z)]);
  }

  lemma StepKeepsCover(g: Gateway, s: Store, op: Op, t: Store, z: string)
    requires WellLaid(s) && Step(g, s, op, t)
    requires Covered(g.identity, s, z) && (op.Dns? ==> !R.MayUncover(g.identity, z, op.dns))
    ensures Covered(g.identity, t, z)
  {
    assert WellFormed(z);
    hide WellLaid, Step, Abs, R.MayUncover, R.Covered, R.Visits, Covered, ValidateDomain, WellFormed;
    StepRefines(g, s, op, t);
    CoveredAgrees(g.identity, s, z);
    CoveredAgrees(g.identity, t, z);
    if op.Dns? {
      R.CoverKept(g.identity, Abs(s), op.dns, Abs(t), z);
    }
  }

  /**
   * Crash and fault safety: from the moment the gateway owns a zone without records, and as long
   * as it does not give the zone up, every slot with records is held by someone, after every
   * command of every operation. The zone's ownership record is the one exception.
   */
  lemma {:induction false} RecordsAreCovered(g: Gateway, stores: seq<Store>, ops: seq<Op>, n: nat, z: string)
    requires IsRun(g, stores, ops) && WellLaid(stores[0]) && n <= |ops|
    requires Covered(g.identity, stores[0], z)
    requires forall i :: 0 <= i < |ops| && ops[i].Dns? ==> !R.MayUncover(g.identity, z, ops[i].dns)
    ensures Covered(g.identity, stores[n], z)
  {
    hide WellLaid, Step, R.MayUncover, Covered;
    if n > 0 {
      RecordsAreCovered(g, stores, ops, n - 1, z);
      RunKeepsLayout(g, stores, ops, n - 1);
      StepKeepsCover(g, stores[n - 1], ops[n - 1], stores[n], z);
    }
  }

  /** A claim names the owner and leaves the zone's records. */
  lemma ClaimRow(s: Store, id: string, z: string)
    requires WellFormed(z) && HashKey(s, ZONES)
    ensures ReadOwner(Claim(s, z, id), z) == Ok(id)
    ensures SameAt(s, Claim(s, z, id), RecordsKey(z)) && SameAt(s, Claim(s, z, id), RESERVED)
  {
    hide ValidateDomain, WellFormed, HSet, RecordsKey;
    RecordsKeyOfZone(z);
    FieldWrite(s, ZONES, z, OwnerDoc(id));
  }

  /** An announcement writes the ownership slot, which needs no holder, and nothing else. */
  lemma AnnounceKeepsCover(s: Store, z: string, gateway: string, owner: string)
    requires WellFormed(z) && HashKey(s, RecordsKey(z))
    ensures ReadOwner(Announce(s, z, gateway, owner), z) == ReadOwner(s, z)
    ensures AllCovered(Announce(s, z, gateway, owner), z) <==> AllCovered(s, z)
  {
    hide WellFormed, RecordsKey, RecordsDoc, HSet, OwnerText, SlotCovered;
    RecordsKeyOfZone(z);
    var v := RecordsDoc(Add(map[], OwnerRecord(gateway, owner)));
    var t := HSet(s, RecordsKey(z), OWNER_LABEL, v);
    FieldWrite(s, RecordsKey(z), OWNER_LABEL, v);
    assert SameAt(s, t, ZONES) && SameAt(s, t, RESERVED);
    assert Fields(t, RecordsKey(z)) == Fields(s, RecordsKey(z))[OWNER_LABEL := v];
    forall name ensures SlotCovered(t, z, name) <==> SlotCovered(s, z, name) {
      if name != OWNER_LABEL {
        assert HGet(t, RecordsKey(z), name) == HGet(s, RecordsKey(z), name);
      }
      SameCover(s, t, z, name);
    }
    assert SlotCovered(s, z, OWNER_LABEL) by { OwnershipIsCovered(s, z); }
  }

  lemma OwnershipIsCovered(s: Store, z: string)
    ensures SlotCovered(s, z, OWNER_LABEL)
  {}

  lemma SameCover(s: Store, t: Store, z: string, name: string)
    requires SameAt(s, t, RESERVED)
    requires name == OWNER_LABEL || HGet(t, RecordsKey(z), name) == HGet(s, RecordsKey(z), name)
    ensures SlotCovered(t, z, name) <==> SlotCovered(s, z, name)
  {
    hide DomainOf, RecordsKey, DecodeValue;
    assert Fields(s, RESERVED) == Fields(t, RESERVED);
  }

  /**
   * A claim by the gateway that changes anything, finished or not, starts the cover exactly when
   * every slot of the zone was covered before; so always in a zone without records.
   */
  lemma FirstClaimCovers(g: Gateway, s: Store, gateway: string, z: string, t: Store)
    requires g.identity != "" && WellFormed(z) && WellLaid(s)
    requires Step(g, s, Dns(AddDelegate(gateway, g.identity, z)), t) && t != s
    ensures Covered(g.identity, t, z) <==> AllCovered(s, z)
  {
    hide WellLaid, ValidateDomain, WellFormed, Claim, Announce, ReadOwner, RecordsKey, RefuseDelegate,
         SlotCovered;
    KindsFit(s);
    RecordsKeyOfZone(z);
    var claimed := Claim(s, z, g.identity);
    ClaimRow(s, g.identity, z);
    assert Fields(claimed, RecordsKey(z)) == Fields(s, RecordsKey(z));
    forall name ensures SlotCovered(claimed, z, name) <==> SlotCovered(s, z, name) {
      SameCover(s, claimed, z, name);
    }
    AnnounceKeepsCover(claimed, z, gateway, g.identity);
  }

  // ------------------------------------------------------------ stuck reservations

  /** A reservation without records in a zone of the gateway, outside the ownership slot. */
  predicate Stuck(id: string, s: Store, d: string, user: string)
  {
    ReservedFor(id, s, d, user) && ReadSlot(s, d) == Ok(map[]) && d != DomainOf(OWNER_LABEL, SplitDomain(d).1)
  }

  lemma StuckAgrees(id: string, s: Store, d: string, user: string)
    requires WellLaid(s) && WellFormed(d)
    ensures Stuck(id, s, d, user) <==> R.Stuck(id, Abs(s), d, user)
    ensures SplitDomain(d).1 == R.Zone(d)
  {
    hide ValidateDomain, WellFormed, SplitDomain, WellLaid, Abs, ReservedFor, R.Reserved, ReadSlot;
    ReservedAgrees(id, s, d, user);
  }

  lemma StepKeepsStuck(g: Gateway, s: Store, op: Op, t: Store, d: string, user: string)
    requires WellLaid(s) && Step(g, s, op, t)
    requires Stuck(g.identity, s, d, user) && op != Dns(RemoveDelegate(g.identity, SplitDomain(d).1))
    ensures Stuck(g.identity, t, d, user)
  {
    assert WellFormed(d);
    hide WellLaid, Step, Abs, R.Visits, R.Stuck, Stuck, ValidateDomain, WellFormed, SplitDomain;
    StepRefines(g, s, op, t);
    StuckAgrees(g.identity, s, d, user);
    StuckAgrees(g.identity, t, d, user);
    if op.Dns? {
      R.StuckForever(g.identity, Abs(s), op.dns, Abs(t), d, user);
    }
  }

  /**
   * A reservation without records in a zone of the gateway is permanent: whatever anybody does,
   * short of the gateway giving up the zone, it stays, every addition is refused and every
   * removal by its holder does nothing.
   */
  lemma {:induction false} StuckReservation(
    g: Gateway, stores: seq<Store>, ops: seq<Op>, n: nat, d: string, user: string)
    requires IsRun(g, stores, ops) && WellLaid(stores[0]) && n <= |ops|
    requires Stuck(g.identity, stores[0], d, user)
    requires forall i :: 0 <= i < |ops| ==> ops[i] != Dns(RemoveDelegate(g.identity, SplitDomain(d).1))
    ensures Stuck(g.identity, stores[n], d, user)
    ensures forall u, ips :: AfterAdd(g.identity, stores[n], u, d, ips)
                             == (stores[n], Some(if ValidateDomain(d) then SubdomainUsed else InvalidDomain))
    ensures forall ips :: AfterRemove(stores[n], user, d, ips)
                          == (stores[n], if ValidateDomain(d) then None else Some(InvalidDomain))
  {
    hide WellLaid, Step, Stuck, SplitDomain, AfterAdd, AfterRemove;
    if n > 0 {
      StuckReservation(g, stores, ops, n - 1, d, user);
      RunKeepsLayout(g, stores, ops, n - 1);
      StepKeepsStuck(g, stores[n - 1], ops[n - 1], stores[n], d, user);
    }
    StuckMeans(g.identity, stores[n], d, user);
  }

  /**
   * Reservations are there to be had: in a zone that the gateway, or the user, has claimed, a user
   * can reserve every label that makes a valid domain, with any addresses. Without addresses a
   * reservation in a zone of the gateway is stuck from the start.
   */
  lemma AnyLabelCanBeReserved(
    g: Gateway, gateway: string, owner: string, z: string, name: string, user: string, ips: seq<IP>)
    requires owner != "" && user != "" && (owner == g.identity || owner == user)
    requires ValidateDomain(z) && IsLabel(name) && name != OWNER_LABEL && ValidateDomain(DomainOf(name, z))
    ensures exists s :: Reserving(g, owner, s, z, DomainOf(name, z), user, ips)
  {
    hide *;
    var d := DomainOf(name, z);
    var claim, add := AddDelegate(gateway, owner, z), AddSubdomain(user, d, ips);
    var s1 := After(g.identity, map[], claim).0;
    EmptyIsReachable(g);
    AfterReaches(g, map[], claim);
    AfterReaches(g, s1, add);
    ClaimFromNothing(g.identity, gateway, owner, z);
    LabelIsFree(s1, z, name);
    AdditionReserves(g.identity, owner, s1, user, d, ips);
    if owner == g.identity {
      ReachableIsWellLaid(g, s1);
      NoUncovering(g.identity, z, user, d, ips);
      StepKeepsCover(g, s1, Dns(add), After(g.identity, s1, add).0, z);
    }
    Collect(g, owner, After(g.identity, s1, add).0, z, d, user, ips);
  }

  lemma NoUncovering(id: string, z: string, user: string, d: string, ips: seq<IP>)
    requires user != ""
    ensures var op := Dns(AddSubdomain(user, d, ips));
            op.Dns? && !R.MayUncover(id, z, op.dns)
  {}

  ghost predicate Reserving(
    g: Gateway, owner: string, s: Store, z: string, d: string, user: string, ips: seq<IP>)
  {
    && Reachable(g, s)
    && ReservedFor(owner, s, d, user)
    && ReadSlot(s, d) == Ok(AddAll(map[], ips))
    && (owner == g.identity ==> Covered(owner, s, z) && (ips == [] ==> Stuck(owner, s, d, user)))
  }

  lemma Collect(g: Gateway, owner: string, s: Store, z: string, d: string, user: string, ips: seq<IP>)
    requires Reachable(g, s) && ReservedFor(owner, s, d, user) && ReadSlot(s, d) == Ok(AddAll(map[], ips))
    requires owner == g.identity ==> Covered(owner, s, z) && (ips == [] ==> Stuck(owner, s, d, user))
    ensures Reserving(g, owner, s, z, d, user, ips)
  {
    hide Reachable, ReservedFor, ReadSlot, AddAll, Covered, Stuck;
  }

  /** In a zone that holds its ownership record alone, any other label is free. */
  lemma LabelIsFree(s: Store, z: string, name: string)
    requires WellFormed(z) && IsLabel(name) && name != OWNER_LABEL
    requires RESERVED !in s && Fields(s, RecordsKey(z)).Keys == {OWNER_LABEL} && HashKey(s, RecordsKey(z))
    ensures var d := DomainOf(name, z);
            SplitDomain(d).1 == z && d != DomainOf(OWNER_LABEL, z) && Untouched(s, d)
  {
    hide WellFormed, SplitDomain, RecordsKey;
    LabelSlot(name, z);
    LabelSlot(OWNER_LABEL, z);
  }

  lemma ClaimFromNothing(id: string, gateway: string, owner: string, z: string)
    requires owner != "" && ValidateDomain(z)
    ensures var s := After(id, map[], AddDelegate(gateway, owner, z)).0;
            && Covered(owner, s, z)
            && ReadOwner(s, z) == Ok(owner)
            && RESERVED !in s
            && Fields(s, RecordsKey(z)).Keys == {OWNER_LABEL} && HashKey(s, RecordsKey(z))
  {
    hide ValidateDomain, WellFormed, RecordsKey, RecordsDoc, OwnerRecord;
    RecordsKeyOfZone(z);
    var s := After(id, map[], AddDelegate(gateway, owner, z)).0;
    assert HashKey(s, RecordsKey(z));
  }

  lemma AdditionReserves(id: string, owner: string, s: Store, user: string, d: string, ips: seq<IP>)
    requires ValidateDomain(d) && Untouched(s, d) && user != ""
    requires owner != "" && (owner == id || owner == user) && ReadOwner(s, SplitDomain(d).1) == Ok(owner)
    ensures var t := After(id, s, AddSubdomain(user, d, ips)).0;
            && ReservedFor(owner, t, d, user)
            && ReadSlot(t, d) == Ok(AddAll(map[], ips))
            && (ips == [] && d != DomainOf(OWNER_LABEL, SplitDomain(d).1) ==> Stuck(owner, t, d, user))
  {
    hide WellFormed, ValidateDomain, SplitDomain, ReadOwner, ReadSlot, AfterAdd, RecordsKey;
    assert RefuseAdd(id, s, user, d).None?;
    AddOnUntouched(id, s, user, d, ips);
  }

  lemma StuckMeans(id: string, s: Store, d: string, user: string)
    requires Stuck(id, s, d, user)
    ensures forall u, ips :: AfterAdd(id, s, u, d, ips)
                             == (s, Some(if ValidateDomain(d) then SubdomainUsed else InvalidDomain))
    ensures forall ips :: AfterRemove(s, user, d, ips)
                          == (s, if ValidateDomain(d) then None else Some(InvalidDomain))
  {
    hide ValidateDomain, WellFormed, SplitDomain, ReadOwner, ReadUser, ReadSlot;
  }

  // ------------------------------------------------------------ zone ownership

  lemma StepKeepsOwner(g: Gateway, s: Store, op: Op, t: Store, z: string, owner: string)
    requires WellLaid(s) && Step(g, s, op, t) && WellFormed(z)
    requires ReadOwner(s, z) == Ok(owner) && owner != "" && op != Dns(RemoveDelegate(owner, z))
    ensures ReadOwner(t, z) == Ok(owner)
  {
    hide WellLaid, Step, Abs, ReadOwner, ValidateDomain, WellFormed, R.Visits;
    StepRefines(g, s, op, t);
    RowsAreReads(s, z);
    RowsAreReads(t, z);
    if op.Dns? {
      R.OwnershipKept(g.identity, Abs(s), op.dns, Abs(t), z);
    }
  }

  /** A zone's owner changes only when that owner gives the zone up. */
  lemma {:induction false} ZoneStaysOwned(
    g: Gateway, stores: seq<Store>, ops: seq<Op>, n: nat, z: string, owner: string)
    requires IsRun(g, stores, ops) && WellLaid(stores[0]) && n <= |ops|
    requires WellFormed(z) && ReadOwner(stores[0], z) == Ok(owner) && owner != ""
    requires forall i :: 0 <= i < |ops| ==> ops[i] != Dns(RemoveDelegate(owner, z))
    ensures ReadOwner(stores[n], z) == Ok(owner)
  {
    hide WellLaid, Step, ReadOwner, ValidateDomain, WellFormed;
    if n > 0 {
      ZoneStaysOwned(g, stores, ops, n - 1, z, owner);
      RunKeepsLayout(g, stores, ops, n - 1);
      StepKeepsOwner(g, stores[n - 1], ops[n - 1], stores[n], z, owner);
    }
  }

  // ------------------------------------------------------------ proxies and the cache share the store safely

  /** A DNS step leaves the proxies' keys and the cache's as they are. */
  lemma DnsStepLeavesOthers(id: string, s: Store, op: DnsOp, t: Store, key: string)
    requires WellLaid(s) && DnsSpec.Visits(id, s, op, t)
    requires PROXY_PREFIX <= key || key == RESERVATIONS
    ensures SameAt(s, t, key)
  {
    hide WellLaid, HSet, HDel, SplitDomain, ValidateDomain, WellFormed, RecordsKey, AddAll, RemoveAll,
         RecordsDoc, OwnerDoc, RefuseAdd, RefuseDelegate, ReadSlot, RemoveAllowed, Removable, ReadOwner;
    hide AddVisits, DnsSpec.RemoveVisits, AddDelegateVisits, RemoveDelegateVisits, PartlyCleaned;
    match op
    case AddSubdomain(user, d, ips) => AddLeavesOthers(id, s, user, d, ips, t, key);
    case RemoveSubdomain(user, d, ips) => RemoveLeavesOthers(s, user, d, ips, t, key);
    case AddDelegate(gateway, user, z) => AddDelegateLeavesOthers(s, gateway, user, z, t, key);
    case RemoveDelegate(user, z) => RemoveDelegateLeavesOthers(s, user, z, t, key);
    case Cleanup => CleanLeavesProxies(s, t, key);
  }

  /** Field writes elsewhere leave a key alone. */
  lemma FieldWriteElsewhere(s: Store, key: string, other: string, field: string, value: Value)
    requires key != other
    ensures SameAt(s, HSet(s, other, field, value), key)
    ensures SameAt(s, HDel(s, other, field), key)
  {}

  lemma AddLeavesOthers(id: string, s: Store, user: string, d: string, ips: seq<IP>, t: Store, key: string)
    requires AddVisits(id, s, user, d, ips, t)
    requires PROXY_PREFIX <= key || key == RESERVATIONS
    ensures SameAt(s, t, key)
  {
    hide HSet, HDel, SplitDomain, ValidateDomain, WellFormed, RecordsKey, AddAll, RecordsDoc, ReadSlot;
    OtherKey(d, key);
    var reserved := Reserve(s, d, user);
    FieldWriteElsewhere(s, key, RESERVED, d, Text(user));
    if ReadSlot(reserved, d).Ok? && WellFormed(d) {
      FieldWriteElsewhere(reserved, key, RecordsKey(SplitDomain(d).1), SplitDomain(d).0,
                          RecordsDoc(AddAll(ReadSlot(reserved, d).value, ips)));
    }
  }

  lemma RemoveLeavesOthers(s: Store, user: string, d: string, ips: seq<IP>, t: Store, key: string)
    requires DnsSpec.RemoveVisits(s, user, d, ips, t)
    requires PROXY_PREFIX <= key || key == RESERVATIONS
    ensures SameAt(s, t, key)
  {
    hide HSet, HDel, SplitDomain, ValidateDomain, WellFormed, RecordsKey, RemoveAll, RecordsDoc, Removable,
         IsEmpty;
    OtherKey(d, key);
    FieldWriteElsewhere(s, key, RESERVED, d, Text(""));
    FieldWriteElsewhere(Withdraw(s, d), key, RESERVED, d, Text(""));
    if RemoveAllowed(s, user, d) {
      FieldWriteElsewhere(s, key, RecordsKey(SplitDomain(d).1), SplitDomain(d).0,
                          RecordsDoc(RemoveAll(Removable(s, user, d).value, ips)));
    }
  }

  lemma AddDelegateLeavesOthers(s: Store, gateway: string, user: string, z: string, t: Store, key: string)
    requires AddDelegateVisits(s, gateway, user, z, t)
    requires PROXY_PREFIX <= key || key == RESERVATIONS
    ensures SameAt(s, t, key)
  {
    hide HSet, HDel, ValidateDomain, WellFormed, RecordsKey, RecordsDoc, OwnerDoc;
    OtherKey(z, key);
    FieldWriteElsewhere(s, key, ZONES, z, OwnerDoc(user));
    if WellFormed(z) {
      FieldWriteElsewhere(Claim(s, z, user), key, RecordsKey(z), OWNER_LABEL,
                          RecordsDoc(Add(map[], OwnerRecord(gateway, user))));
    }
  }

  lemma RemoveDelegateLeavesOthers(s: Store, user: string, z: string, t: Store, key: string)
    requires WellLaid(s) && RemoveDelegateVisits(s, user, z, t)
    requires PROXY_PREFIX <= key || key == RESERVATIONS
    ensures SameAt(s, t, key)
  {
    hide HDel, ValidateDomain, WellFormed, WellLaid;
    OtherKey(z, key);
    FieldWriteElsewhere(s, key, ZONES, z, Text(""));
    if WellFormed(z) {
      NoDomainIsAKey(s, z);
    }
  }

  lemma CleanLeavesProxies(s: Store, t: Store, key: string)
    requires WellLaid(s) && PartlyCleaned(s, t)
    requires PROXY_PREFIX <= key || key == RESERVATIONS
    ensures SameAt(s, t, key)
  {
    assert RESERVATIONS[|RESERVATIONS| - 1] == 's' && RESERVATIONS[0] == 't';
    assert PROXY_PREFIX[0] == '/' && ZONES[0] == 'z' && RESERVED[0] == 'm';
    assert key in s ==> EntryOk(key, s[key]);
  }

  /** None of the DNS manager's own keys is a proxy key or the cache's. */
  lemma OtherKey(d: string, key: string)
    requires PROXY_PREFIX <= key || key == RESERVATIONS
    ensures key != ZONES && key != RESERVED
    ensures WellFormed(d) ==> key != RecordsKey(d) && key != RecordsKey(SplitDomain(d).1)
  {
    assert PROXY_PREFIX[0] == '/' && ZONES[0] == 'z' && RESERVED[0] == 'm' && RESERVATIONS[0] == 't';
    if WellFormed(d) {
      ZoneIsWellFormed(d);
      RecordsKeyOfZone(d);
      RecordsKeyOfZone(SplitDomain(d).1);
    }
  }

  lemma StepKeepsService(g: Gateway, s: Store, op: Op, t: Store, domain: string, user: string)
    requires WellLaid(s) && Step(g, s, op, t)
    requires P.BelongsTo(g.codec, s, domain, user)
    requires op.Proxy? ==> op.proxy.domain != domain || op.proxy.user != user
    ensures SameAt(s, t, P.Key(domain)) && P.BelongsTo(g.codec, t, domain, user)
  {
    hide WellLaid, DnsSpec.Visits, P.ValkyrieDecode, P.Visits, C.Visits;
    assert P.Key(domain)[..|PROXY_PREFIX|] == PROXY_PREFIX;
    assert PROXY_PREFIX[0] == '/' && RESERVATIONS[0] == 't';
    match op
    case Dns(o) =>
      DnsStepLeavesOthers(g.identity, s, o, t, P.Key(domain));
    case Proxy(o) =>
      P.ServiceKept(g.codec, s, o, t, domain, user);
    case Cache(o) =>
      CacheStepIsForeign(s, o, t);
  }

  /** Once a domain's service belongs to a user, no run of other users' operations changes or removes it. */
  lemma {:induction false} ServiceStaysOwned(
    g: Gateway, stores: seq<Store>, ops: seq<Op>, n: nat, domain: string, user: string)
    requires IsRun(g, stores, ops) && WellLaid(stores[0]) && n <= |ops|
    requires P.BelongsTo(g.codec, stores[0], domain, user)
    requires forall i :: 0 <= i < |ops| && ops[i].Proxy? ==> ops[i].proxy.domain != domain || ops[i].proxy.user != user
    ensures SameAt(stores[0], stores[n], P.Key(domain))
    ensures P.BelongsTo(g.codec, stores[n], domain, user)
  {
    hide WellLaid, Step, P.BelongsTo, P.Key;
    if n > 0 {
      ServiceStaysOwned(g, stores, ops, n - 1, domain, user);
      RunKeepsLayout(g, stores, ops, n - 1);
      StepKeepsService(g, stores[n - 1], ops[n - 1], stores[n], domain, user);
    }
  }
}
