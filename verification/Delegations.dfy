/** What becomes of a delegated zone's records: when it is given up, taken over, or a user's addition fails. */
module Delegations {
  import opened Json
  import opened Domains
  import opened Records
  import opened Keyspace
  import opened DnsSpec
  import opened Layout
  import opened Refinement
  import opened Gateway
  import R = Registry

  // ------------------------------------------------------------ ownership records are never removed

  predicate TextAt(s: Store, d: string)
  {
    ReadSlot(s, d).Ok? && HasText(ReadSlot(s, d).value)
  }

  lemma StepKeepsText(g: Gateway, s: Store, op: Op, t: Store, d: string)
    requires WellLaid(s) && Step(g, s, op, t) && WellFormed(d) && TextAt(s, d)
    ensures TextAt(t, d)
  {
    hide WellLaid, Step, Abs, ReadOwner, ReadUser, ReadSlot, WellFormed, R.Visits, HasText;
    StepRefines(g, s, op, t);
    RowsAreReads(s, d);
    RowsAreReads(t, d);
    if op.Dns? {
      R.TextStays(g.identity, Abs(s), op.dns, Abs(t), d);
    }
  }

  /** A domain that has a text record has one for ever: no operation, of anybody, removes it. */
  lemma {:induction false} TextIsForever(g: Gateway, stores: seq<Store>, ops: seq<Op>, n: nat, d: string)
    requires IsRun(g, stores, ops) && WellLaid(stores[0]) && n <= |ops|
    requires WellFormed(d) && TextAt(stores[0], d)
    ensures TextAt(stores[n], d)
  {
    hide WellLaid, Step, TextAt, WellFormed;
    if n > 0 {
      TextIsForever(g, stores, ops, n - 1, d);
      RunKeepsLayout(g, stores, ops, n - 1);
      StepKeepsText(g, stores[n - 1], ops[n - 1], stores[n], d);
    }
  }

  /** A fault-free operation moves the registry as the abstract one does. */
  lemma AfterRows(id: string, s: Store, op: DnsOp)
    requires WellLaid(s)
    ensures WellLaid(After(id, s, op).0)
    ensures Abs(After(id, s, op).0) == R.After(id, Abs(s), op).0 && After(id, s, op).1 == R.After(id, Abs(s), op).1
  {
    hide *;
    AfterIsVisited(id, s, op);
    VisitsRefine(id, s, op, After(id, s, op).0);
    AfterCommutes(id, s, op);
  }

  /** A delegation that is not refused writes the ownership record, and leaves all other records and all holders. */
  lemma Delegated(id: string, s: Store, gateway: string, user: string, z: string)
    requires WellLaid(s) && RefuseDelegate(s, user, z).None?
    ensures var (t, err) := After(id, s, AddDelegate(gateway, user, z));
            && err.None? && WellLaid(t) && ReadOwner(t, z) == Ok(user)
            && ReadSlot(t, DomainOf(OWNER_LABEL, z)) == Ok(Add(map[], OwnerRecord(gateway, user)))
            && TextAt(t, DomainOf(OWNER_LABEL, z)) && WellFormed(DomainOf(OWNER_LABEL, z))
            && forall d :: WellFormed(d) ==>
                 && (d != z ==> ReadOwner(t, d) == ReadOwner(s, d))
                 && ReadUser(t, d) == ReadUser(s, d)
                 && (d != DomainOf(OWNER_LABEL, z) ==> ReadSlot(t, d) == ReadSlot(s, d))
  {
    hide WellLaid, WellFormed, ValidateDomain, DnsSpec.After, Abs, ReadOwner, ReadUser, ReadSlot, DomainOf,
         DnsSpec.RefuseDelegate, R.RefuseDelegate, OwnerText, HasText;
    var op := AddDelegate(gateway, user, z);
    var t := After(id, s, op).0;
    AfterRows(id, s, op);
    RefuseDelegateAgrees(s, user, z);
    R.DelegationRows(id, Abs(s), gateway, user, z);
    R.OwnerRecordIsText(gateway, user);
    RowsAreReads(t, z);
    RowsAreReads(t, DomainOf(OWNER_LABEL, z));
    forall d | WellFormed(d)
      ensures d != z ==> ReadOwner(t, d) == ReadOwner(s, d)
      ensures ReadUser(t, d) == ReadUser(s, d)
      ensures d != DomainOf(OWNER_LABEL, z) ==> ReadSlot(t, d) == ReadSlot(s, d)
    {
      RowsAreReads(s, d);
      RowsAreReads(t, d);
    }
  }

  /** Giving up a zone takes its owner away and nothing else. */
  lemma GivenUp(id: string, s: Store, user: string, z: string)
    requires WellLaid(s) && RefuseDelegate(s, user, z).None?
    ensures var (t, err) := After(id, s, RemoveDelegate(user, z));
            && err.None? && WellLaid(t) && ReadOwner(t, z) == Ok("")
            && forall d :: WellFormed(d) ==> ReadUser(t, d) == ReadUser(s, d) && ReadSlot(t, d) == ReadSlot(s, d)
  {
    hide WellLaid, WellFormed, ValidateDomain, DnsSpec.After, Abs, ReadOwner, ReadUser, ReadSlot,
         DnsSpec.RefuseDelegate, R.RefuseDelegate;
    var t := After(id, s, RemoveDelegate(user, z)).0;
    AfterRows(id, s, RemoveDelegate(user, z));
    RefuseDelegateAgrees(s, user, z);
    R.GiveUpRows(id, Abs(s), user, z);
    RowsAreReads(t, z);
    forall d | WellFormed(d) ensures ReadUser(t, d) == ReadUser(s, d) && ReadSlot(t, d) == ReadSlot(s, d) {
      RowsAreReads(s, d);
      RowsAreReads(t, d);
    }
  }

  /**
   * A zone that was delegated once never loses its ownership record: whatever is done afterwards,
   * giving the zone up included, and wherever it stops, the zone's hash is there.
   */
  lemma DelegationIsForever(
    g: Gateway, s: Store, gateway: string, user: string, z: string, stores: seq<Store>, ops: seq<Op>, n: nat)
    requires WellLaid(s) && RefuseDelegate(s, user, z).None?
    requires IsRun(g, stores, ops) && stores[0] == After(g.identity, s, AddDelegate(gateway, user, z)).0
    requires n <= |ops|
    ensures TextAt(stores[n], DomainOf(OWNER_LABEL, z))
    ensures OWNER_LABEL in Fields(stores[n], RecordsKey(z))
  {
    assert WellFormed(z);
    hide WellLaid, WellFormed, RefuseDelegate, Step, DnsSpec.After, TextAt;
    Delegated(g.identity, s, gateway, user, z);
    TextIsForever(g, stores, ops, n, DomainOf(OWNER_LABEL, z));
    OwnershipSlot(stores[n], z);
  }

  lemma OwnershipSlot(s: Store, z: string)
    requires WellFormed(z) && TextAt(s, DomainOf(OWNER_LABEL, z))
    ensures OWNER_LABEL in Fields(s, RecordsKey(z))
  {
    hide WellFormed, SplitDomain, RecordsKey, DecodeValue;
    LabelSlot(OWNER_LABEL, z);
  }

  // ------------------------------------------------------------ giving up, taking over

  /** From nothing, a delegation and its removal, neither refused, leave the ownership record of nobody's zone. */
  lemma GivenUpZoneHasRecords(g: Gateway, gateway: string, user: string, z: string)
    requires ValidateDomain(z)
    ensures var claimed := After(g.identity, map[], AddDelegate(gateway, user, z));
            var (t, err) := After(g.identity, claimed.0, RemoveDelegate(user, z));
            && claimed.1.None? && err.None? && Reachable(g, t)
            && ReadOwner(t, z) == Ok("")
            && ReadSlot(t, DomainOf(OWNER_LABEL, z)) == Ok(Add(map[], OwnerRecord(gateway, user)))
  {
    var s := After(g.identity, map[], AddDelegate(gateway, user, z)).0;
    assert RefuseDelegate(map[], user, z).None?;
    EmptyIsWellLaid();
    hide ValidateDomain, WellFormed, WellLaid, Reachable, Step, DnsSpec.After, ReadOwner, ReadSlot,
         OwnerRecord;
    Delegated(g.identity, map[], gateway, user, z);
    GivenUp(g.identity, s, user, z);
    EmptyIsReachable(g);
    AfterReaches(g, map[], AddDelegate(gateway, user, z));
    AfterReaches(g, s, RemoveDelegate(user, z));
  }

  lemma EmptyIsWellLaid()
    ensures WellLaid(map[])
  {}

  /**
   * The next owner of a zone takes it over as it was: its subdomains keep their holders and their
   * records, the ownership record excepted.
   */
  lemma NextOwnerInherits(id: string, s: Store, user: string, z: string, gateway: string, next: string)
    requires WellLaid(s) && RefuseDelegate(s, user, z).None?
    ensures var given := After(id, s, RemoveDelegate(user, z));
            var (t, err) := After(id, given.0, AddDelegate(gateway, next, z));
            && given.1.None? && err.None?
            && ReadOwner(t, z) == Ok(next)
            && forall d :: WellFormed(d) ==>
                 && ReadUser(t, d) == ReadUser(s, d)
                 && (d != DomainOf(OWNER_LABEL, z) ==> ReadSlot(t, d) == ReadSlot(s, d))
  {
    assert ValidateDomain(z);
    var t := After(id, s, RemoveDelegate(user, z)).0;
    GivenUp(id, s, user, z);
    assert RefuseDelegate(t, next, z).None?;
    hide *;
    Delegated(id, t, gateway, next, z);
  }

  /** The zone has a new owner, who finds a subdomain of the one before, and may not remove it. */
  ghost predicate Inherited(g: Gateway, t: Store, z: string, d: string, user: string, next: string, ips: seq<IP>)
  {
    && Reachable(g, t)
    && ReadOwner(t, z) == Ok(next) && next != user
    && ReadUser(t, d) == Ok(user) && ReadSlot(t, d) == Ok(AddAll(map[], ips))
    && forall gone :: AfterRemove(t, next, d, gone) == (t, Some(NotAllowed))
  }

  lemma InheritedSubdomain(
    g: Gateway, gateway: string, z: string, name: string, user: string, next: string, ips: seq<IP>)
    requires user != "" && next != "" && next != user
    requires ValidateDomain(z) && IsLabel(name) && name != OWNER_LABEL && ValidateDomain(DomainOf(name, z))
    ensures exists t :: Inherited(g, t, z, DomainOf(name, z), user, next, ips)
  {
    hide *;
    var d := DomainOf(name, z);
    LabelInZone(name, z);
    AnyLabelCanBeReserved(g, gateway, user, z, name, user, ips);
    var s :| Reserving(g, user, s, z, d, user, ips);
    ReservingMeans(g, user, s, z, d, user, ips);
    ReachableIsWellLaid(g, s);
    MayGiveUp(s, user, z);
    InheritedByNext(g, s, gateway, z, d, user, next, ips);
  }

  lemma LabelInZone(name: string, z: string)
    requires WellFormed(z) && IsLabel(name) && name != OWNER_LABEL
    ensures SplitDomain(DomainOf(name, z)).1 == z && DomainOf(name, z) != DomainOf(OWNER_LABEL, z)
  {
    hide WellFormed, SplitDomain;
    LabelSlot(name, z);
    LabelSlot(OWNER_LABEL, z);
  }

  lemma InheritedByNext(
    g: Gateway, s: Store, gateway: string, z: string, d: string, user: string, next: string, ips: seq<IP>)
    requires user != "" && next != "" && next != user
    requires Reachable(g, s) && WellLaid(s) && RefuseDelegate(s, user, z).None?
    requires ValidateDomain(d) && SplitDomain(d).1 == z && d != DomainOf(OWNER_LABEL, z)
    requires ReadUser(s, d) == Ok(user) && ReadSlot(s, d) == Ok(AddAll(map[], ips))
    ensures var given := After(g.identity, s, RemoveDelegate(user, z)).0;
            Inherited(g, After(g.identity, given, AddDelegate(gateway, next, z)).0, z, d, user, next, ips)
  {
    hide *;
    NextOwnerInherits(g.identity, s, user, z, gateway, next);
    var given := After(g.identity, s, RemoveDelegate(user, z)).0;
    var t := After(g.identity, given, AddDelegate(gateway, next, z)).0;
    AfterReaches(g, s, RemoveDelegate(user, z));
    AfterReaches(g, given, AddDelegate(gateway, next, z));
    NotTheirs(t, z, d, user, next);
    InheritedFrom(g, t, z, d, user, next, ips);
  }

  lemma ReservingMeans(
    g: Gateway, owner: string, s: Store, z: string, d: string, user: string, ips: seq<IP>)
    requires Reserving(g, owner, s, z, d, user, ips)
    ensures Reachable(g, s) && ReservedFor(owner, s, d, user)
    ensures WellFormed(d) && ReadOwner(s, SplitDomain(d).1) == Ok(owner) && ReadUser(s, d) == Ok(user)
    ensures ReadSlot(s, d) == Ok(AddAll(map[], ips))
  {
    hide WellFormed, Reachable, ReadOwner, ReadUser, ReadSlot, Covered, Stuck;
  }

  lemma MayGiveUp(s: Store, user: string, z: string)
    requires ValidateDomain(z) && ReadOwner(s, z) == Ok(user)
    ensures RefuseDelegate(s, user, z).None?
  {}

  lemma NotTheirs(s: Store, z: string, d: string, user: string, other: string)
    requires ValidateDomain(d) && SplitDomain(d).1 == z
    requires ReadOwner(s, z) == Ok(other) && ReadUser(s, d) == Ok(user)
    requires other != "" && user != "" && other != user
    ensures forall gone :: AfterRemove(s, other, d, gone) == (s, Some(NotAllowed))
  {
    hide ValidateDomain, SplitDomain, ReadOwner, ReadUser, ReadSlot;
  }

  lemma InheritedFrom(g: Gateway, t: Store, z: string, d: string, user: string, next: string, ips: seq<IP>)
    requires Reachable(g, t) && ReadOwner(t, z) == Ok(next) && next != user
    requires ReadUser(t, d) == Ok(user) && ReadSlot(t, d) == Ok(AddAll(map[], ips))
    requires forall gone :: AfterRemove(t, next, d, gone) == (t, Some(NotAllowed))
    ensures Inherited(g, t, z, d, user, next, ips)
  {
    hide Reachable, ReadOwner, ReadUser, ReadSlot, AfterRemove;
  }

  // ------------------------------------------------------------ a failed second addition

  /**
   * In a delegated zone the owner may add to a subdomain it holds. When redis fails that addition
   * once and the rollback works, the records stay and their holder is gone; then anybody at all can
   * remove them. In a zone of the gateway this cannot happen.
   */
  lemma FailedAdditionUncovers(id: string, s: Store, owner: string, d: string, ips: seq<IP>, stranger: string)
    requires WellLaid(s) && ValidateDomain(d) && owner != id && ips != []
    requires ReservedFor(owner, s, d, owner) && ReadSlot(s, d) == Ok(AddAll(map[], ips))
    ensures var t := Release(s, d);
            && RolledBack(s, d, 1) && AddFailed(id, s, owner, d, 1, t)
            && (forall more :: AddVisits(id, s, owner, d, more, t))
            && ReadUser(t, d) == Ok("")
            && ReadSlot(t, d) == ReadSlot(s, d) && !IsEmpty(ReadSlot(t, d).value)
            && AfterRemove(t, stranger, d, ips).1.None?
            && ReadSlot(AfterRemove(t, stranger, d, ips).0, d) == Ok(map[])
  {
    hide ValidateDomain, WellFormed, WellLaid, SplitDomain, AddAll, RemoveAll, RecordSet, DecodeValue,
         RecordsDoc;
    var t := Release(s, d);
    KindsFit(s);
    RecordsKeyIsApart(SplitDomain(d).1);
    AddAllKeepsTyping(map[], ips);
    RemoveAllAfterAddAll(ips, ips);
    assert ReadOwner(t, SplitDomain(d).1) == Ok(owner);
    assert Removable(t, stranger, d) == Ok(AddAll(map[], ips));
    assert AfterRemove(t, stranger, d, ips).0 == Release(Withdraw(t, d), d);
  }

  ghost predicate Uncovered(
    g: Gateway, s: Store, t: Store, z: string, d: string, owner: string, ips: seq<IP>, stranger: string)
  {
    && Reserving(g, owner, s, z, d, owner, ips)
    && Reachable(g, t)
    && AddFailed(g.identity, s, owner, d, 1, t)
    && ReadUser(t, d) == Ok("") && ReadSlot(t, d) == ReadSlot(s, d)
    && AfterRemove(t, stranger, d, ips).1.None?
    && ReadSlot(AfterRemove(t, stranger, d, ips).0, d) == Ok(map[])
  }

  /** Such stores are reachable: every label of every delegated zone can lose its holder that way. */
  lemma HolderCanBeLost(
    g: Gateway, gateway: string, z: string, name: string, owner: string, ips: seq<IP>, stranger: string)
    requires owner != "" && owner != g.identity && ips != []
    requires ValidateDomain(z) && IsLabel(name) && name != OWNER_LABEL && ValidateDomain(DomainOf(name, z))
    ensures exists s, t :: Uncovered(g, s, t, z, DomainOf(name, z), owner, ips, stranger)
  {
    var d := DomainOf(name, z);
    hide *;
    AnyLabelCanBeReserved(g, gateway, owner, z, name, owner, ips);
    var s :| Reserving(g, owner, s, z, d, owner, ips);
    ReservingMeans(g, owner, s, z, d, owner, ips);
    ReachableIsWellLaid(g, s);
    FailedAdditionUncovers(g.identity, s, owner, d, ips, stranger);
    AdditionStep(g, s, owner, d, ips, Release(s, d));
    StepReaches(g, s, Dns(AddSubdomain(owner, d, ips)), Release(s, d));
    UncoveredFrom(g, s, Release(s, d), z, d, owner, ips, stranger);
  }

  lemma AdditionStep(g: Gateway, s: Store, user: string, d: string, ips: seq<IP>, t: Store)
    requires AddVisits(g.identity, s, user, d, ips, t)
    ensures Step(g, s, Dns(AddSubdomain(user, d, ips)), t)
  {
    hide AddVisits;
  }

  lemma UncoveredFrom(
    g: Gateway, s: Store, t: Store, z: string, d: string, owner: string, ips: seq<IP>, stranger: string)
    requires Reserving(g, owner, s, z, d, owner, ips) && Reachable(g, t)
    requires AddFailed(g.identity, s, owner, d, 1, t)
    requires ReadUser(t, d) == Ok("") && ReadSlot(t, d) == ReadSlot(s, d)
    requires AfterRemove(t, stranger, d, ips).1.None?
    requires ReadSlot(AfterRemove(t, stranger, d, ips).0, d) == Ok(map[])
    ensures Uncovered(g, s, t, z, d, owner, ips, stranger)
  {
    hide Reserving, Reachable, AddFailed, ReadUser, ReadSlot, AfterRemove;
  }
}
