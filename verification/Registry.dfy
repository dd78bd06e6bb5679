/**
 * The plain registry behind the redis layout: who owns each zone, who holds each subdomain,
 * and which records each domain has. Tables cover every well-formed domain; no owner, no holder and
 * no records are "", "" and the empty container.
 */
module Registry {
  import opened Json
  import opened Domains
  import opened Records
  import opened Keyspace
  import opened DnsSpec

  datatype Registry = Registry(
    owner: imap<string, string>,
    holder: imap<string, string>,
    records: imap<string, RecordMap>)

  ghost function AllDomains(): iset<string>
  {
    iset d | WellFormed(d)
  }

  ghost predicate Total(r: Registry)
  {
    r.owner.Keys == AllDomains() && r.holder.Keys == AllDomains() && r.records.Keys == AllDomains()
  }

  ghost function Zone(d: string): string
  {
    SplitDomain(d).1
  }

  /** The zone of a well-formed domain is a row of the tables too. */
  lemma ZoneRow(r: Registry, d: string)
    requires Total(r) && WellFormed(d)
    ensures WellFormed(Zone(d)) && Zone(d) in r.owner
  {
    ZoneIsWellFormed(d);
  }

  lemma OwnerRow(r: Registry, z: string)
    requires Total(r) && WellFormed(z)
    ensures OwnerDomain(z) in r.records && WellFormed(OwnerDomain(z))
    ensures SplitDomain(OwnerDomain(z)) == (OWNER_LABEL, z)
  {
    LabelSlot(OWNER_LABEL, z);
  }

  /** The domain whose slot holds a zone's ownership record. */
  ghost function OwnerDomain(z: string): string
  {
    DomainOf(OWNER_LABEL, z)
  }

  // ------------------------------------------------------------ the registry's changes

  ghost function Held(r: Registry, d: string, user: string): (q: Registry)
    ensures Total(r) && WellFormed(d) ==> Total(q)
  {
    var table := r.holder[d := user];
    assert d in r.holder ==> table.Keys == r.holder.Keys;
    r.(holder := table)
  }

  ghost function Filled(r: Registry, d: string, rs: RecordMap): (q: Registry)
    ensures Total(r) && WellFormed(d) ==> Total(q)
  {
    var table := r.records[d := rs];
    assert d in r.records ==> table.Keys == r.records.Keys;
    r.(records := table)
  }

  ghost function Owned(r: Registry, z: string, user: string): (q: Registry)
    ensures Total(r) && WellFormed(z) ==> Total(q)
  {
    var table := r.owner[z := user];
    assert z in r.owner ==> table.Keys == r.owner.Keys;
    r.(owner := table)
  }

  // ------------------------------------------------------------ operations

  ghost function RefuseAdd(id: string, r: Registry, user: string, d: string): Option<Error>
    requires Total(r)
  {
    if !ValidateDomain(d) then Some(InvalidDomain)
    else
      ZoneRow(r, d);
      var owner := r.owner[Zone(d)];
      if owner == "" then Some(NotManaged)
      else if owner == id then (if r.holder[d] != "" then Some(SubdomainUsed) else None)
      else if owner != user then Some(NotAllowed)
      else None
  }

  ghost function RefuseDelegate(r: Registry, user: string, z: string): Option<Error>
    requires Total(r)
  {
    if !ValidateDomain(z) then Some(InvalidDomain)
    else if r.owner[z] != "" && r.owner[z] != user then Some(NotAllowed)
    else None
  }

  ghost function AfterRemove(r: Registry, user: string, d: string, ips: seq<IP>): (Registry, Option<Error>)
    requires Total(r)
  {
    if !ValidateDomain(d) then (r, Some(InvalidDomain))
    else
      ZoneRow(r, d);
      if r.owner[Zone(d)] == "" then (Held(r, d, ""), None)
      else if r.holder[d] != "" && r.holder[d] != user then (r, Some(NotAllowed))
      else if r.records[d] == map[] then (r, None)
      else
        var left := Minus(r.records[d], RecordSet(ips));
        (if left == map[] then Held(Filled(r, d, left), d, "") else Filled(r, d, left), None)
  }

  /** What a whole operation does to the registry when no command fails. */
  ghost function After(id: string, r: Registry, op: DnsOp): (Registry, Option<Error>)
    requires Total(r)
  {
    match op
    case AddSubdomain(user, d, ips) =>
      if RefuseAdd(id, r, user, d).Some? then (r, RefuseAdd(id, r, user, d))
      else (Filled(Held(r, d, user), d, AddAll(r.records[d], ips)), None)
    case RemoveSubdomain(user, d, ips) => AfterRemove(r, user, d, ips)
    case AddDelegate(gateway, user, z) =>
      if RefuseDelegate(r, user, z).Some? then (r, RefuseDelegate(r, user, z))
      else (Filled(Owned(r, z, user), OwnerDomain(z), Add(map[], OwnerRecord(gateway, user))), None)
    case RemoveDelegate(user, z) =>
      if RefuseDelegate(r, user, z).Some? then (r, RefuseDelegate(r, user, z))
      else (Owned(r, z, ""), None)
    case Cleanup => (r, None)
  }

  /** The registries an operation can leave behind when commands fail or it is cut short. */
  ghost predicate Visits(id: string, r: Registry, op: DnsOp, q: Registry)
    requires Total(r)
  {
    q == r
    || match op
       case AddSubdomain(user, d, ips) =>
         && RefuseAdd(id, r, user, d).None?
         && (q == Held(r, d, user)
             || q == Held(r, d, "")
             || q == Filled(Held(r, d, user), d, AddAll(r.records[d], ips)))
       case RemoveSubdomain(user, d, ips) => RemoveVisits(r, user, d, ips, q)
       case AddDelegate(gateway, user, z) =>
         && RefuseDelegate(r, user, z).None?
         && (q == Owned(r, z, user)
             || q == Filled(Owned(r, z, user), OwnerDomain(z), Add(map[], OwnerRecord(gateway, user))))
       case RemoveDelegate(user, z) =>
         RefuseDelegate(r, user, z).None? && q == Owned(r, z, "")
       case Cleanup => false
  }

  ghost predicate RemoveVisits(r: Registry, user: string, d: string, ips: seq<IP>, q: Registry)
    requires Total(r)
  {
    && ValidateDomain(d)
    && (ZoneRow(r, d);
        if r.owner[Zone(d)] == "" then q == Held(r, d, "")
        else
          && (r.holder[d] == "" || r.holder[d] == user)
          && r.records[d] != map[]
          && var left := Minus(r.records[d], RecordSet(ips));
             q == Filled(r, d, left) || (left == map[] && q == Held(Filled(r, d, left), d, "")))
  }

  // ------------------------------------------------------------ which rows an operation touches

  /** Only the holder and the records of one domain may differ. */
  ghost predicate OnlyDomain(r: Registry, q: Registry, d: string)
    requires Total(r) && Total(q)
  {
    && q.owner == r.owner
    && forall e :: e in AllDomains() && e != d ==> q.holder[e] == r.holder[e] && q.records[e] == r.records[e]
  }

  /** Only the owner of one zone and its ownership record may differ. */
  ghost predicate OnlyZone(r: Registry, q: Registry, z: string)
    requires Total(r) && Total(q)
  {
    && q.holder == r.holder
    && (forall y :: y in AllDomains() && y != z ==> q.owner[y] == r.owner[y])
    && (forall e :: e in AllDomains() && e != OwnerDomain(z) ==> q.records[e] == r.records[e])
  }

  lemma AddTouches(id: string, r: Registry, user: string, d: string, ips: seq<IP>, q: Registry)
    requires Total(r) && Visits(id, r, AddSubdomain(user, d, ips), q) && q != r
    ensures RefuseAdd(id, r, user, d).None? && WellFormed(d)
    ensures Total(q) && OnlyDomain(r, q, d)
    ensures q.holder[d] == user || (q.holder[d] == "" && q.records[d] == r.records[d])
  {
    hide SplitDomain, AddAll, ValidateDomain, WellFormed, RefuseAdd;
    assert RefuseAdd(id, r, user, d).None?;
    AddIsValid(id, r, user, d);
  }

  lemma AddIsValid(id: string, r: Registry, user: string, d: string)
    requires Total(r) && RefuseAdd(id, r, user, d).None?
    ensures ValidateDomain(d)
  {
    hide ValidateDomain, WellFormed;
  }

  lemma RemoveTouches(id: string, r: Registry, user: string, d: string, ips: seq<IP>, q: Registry)
    requires Total(r) && Visits(id, r, RemoveSubdomain(user, d, ips), q) && q != r
    ensures WellFormed(d) && WellFormed(Zone(d)) && Total(q) && OnlyDomain(r, q, d)
    ensures if r.owner[Zone(d)] == "" then q.holder[d] == "" && q.records[d] == r.records[d]
            else
              && (r.holder[d] == "" || r.holder[d] == user)
              && r.records[d] != map[]
              && (q.holder[d] == r.holder[d] || (q.holder[d] == "" && q.records[d] == map[]))
  {
    hide Minus, RecordSet, WellFormed;
    ZoneRow(r, d);
  }

  lemma AddDelegateTouches(id: string, r: Registry, gateway: string, user: string, z: string, q: Registry)
    requires Total(r) && Visits(id, r, AddDelegate(gateway, user, z), q) && q != r
    ensures RefuseDelegate(r, user, z).None? && WellFormed(z)
    ensures Total(q) && OnlyZone(r, q, z) && q.owner[z] == user
    ensures WellFormed(OwnerDomain(z)) && Zone(OwnerDomain(z)) == z
  {
    hide ValidateDomain, WellFormed, OwnerDomain, SplitDomain, OwnerText;
    if WellFormed(z) {
      OwnerRow(r, z);
    }
  }

  lemma RemoveDelegateTouches(id: string, r: Registry, user: string, z: string, q: Registry)
    requires Total(r) && Visits(id, r, RemoveDelegate(user, z), q) && q != r
    ensures RefuseDelegate(r, user, z).None? && WellFormed(z)
    ensures Total(q) && OnlyZone(r, q, z) && q.owner[z] == "" && q.records == r.records
  {
    hide WellFormed;
  }

  lemma VisitsStayTotal(id: string, r: Registry, op: DnsOp, q: Registry)
    requires Total(r) && Visits(id, r, op, q)
    ensures Total(q)
  {
    hide Visits;
    if q != r {
      match op
      case AddSubdomain(user, d, ips) => AddTouches(id, r, user, d, ips, q);
      case RemoveSubdomain(user, d, ips) => RemoveTouches(id, r, user, d, ips, q);
      case AddDelegate(gateway, user, z) => AddDelegateTouches(id, r, gateway, user, z, q);
      case RemoveDelegate(user, z) => RemoveDelegateTouches(id, r, user, z, q);
      case Cleanup => CleanupTouchesNothing(id, r, q);
    }
  }

  lemma CleanupTouchesNothing(id: string, r: Registry, q: Registry)
    requires Total(r) && Visits(id, r, Cleanup, q)
    ensures q == r
  {}

  /** What a removal that is not refused does to the rows. */
  lemma RemovalRows(r: Registry, user: string, d: string, ips: seq<IP>)
    requires Total(r) && AfterRemove(r, user, d, ips).1.None?
    ensures WellFormed(d) && WellFormed(Zone(d))
    ensures var q := AfterRemove(r, user, d, ips).0;
            && Total(q)
            && q.owner == r.owner
            && (forall e :: WellFormed(e) && e != d ==>
                 q.holder[e] == r.holder[e] && q.records[e] == r.records[e])
            && if r.owner[Zone(d)] == "" then q.records[d] == r.records[d] && q.holder[d] == ""
               else
                 && q.records[d] == Minus(r.records[d], RecordSet(ips))
                 && q.holder[d] == if r.records[d] != map[] && q.records[d] == map[] then "" else r.holder[d]
  {
    hide ValidateDomain, WellFormed, SplitDomain, Minus, RecordSet;
    MinusFromNothing(RecordSet(ips));
    ZoneIsWellFormed(d);
  }

  /** What an addition that is not refused does to the rows. */
  lemma AdditionRows(id: string, r: Registry, user: string, d: string, ips: seq<IP>)
    requires Total(r) && RefuseAdd(id, r, user, d).None?
    ensures ValidateDomain(d)
    ensures var q := After(id, r, AddSubdomain(user, d, ips)).0;
            && Total(q)
            && q.owner == r.owner && q.holder == r.holder[d := user]
            && q.records == r.records[d := AddAll(r.records[d], ips)]
  {
    hide ValidateDomain, WellFormed, SplitDomain, AddAll;
  }

  /** What a delegation that is not refused does to the rows. */
  lemma DelegationRows(id: string, r: Registry, gateway: string, user: string, z: string)
    requires Total(r) && RefuseDelegate(r, user, z).None?
    ensures ValidateDomain(z) && WellFormed(OwnerDomain(z))
    ensures var q := After(id, r, AddDelegate(gateway, user, z)).0;
            && Total(q)
            && q.holder == r.holder && q.owner == r.owner[z := user]
            && q.records == r.records[OwnerDomain(z) := Add(map[], OwnerRecord(gateway, user))]
  {
    hide ValidateDomain, WellFormed, OwnerText, OwnerDomain;
    OwnerRow(r, z);
  }

  /** What giving up a zone does to the rows. */
  lemma GiveUpRows(id: string, r: Registry, user: string, z: string)
    requires Total(r) && RefuseDelegate(r, user, z).None?
    ensures ValidateDomain(z)
    ensures var q := After(id, r, RemoveDelegate(user, z)).0;
            && Total(q)
            && q.holder == r.holder && q.owner == r.owner[z := ""] && q.records == r.records
  {
    hide ValidateDomain, WellFormed;
  }

  // ------------------------------------------------------------ exclusive reservations

  /** `d` lies in a zone of `owner` and is held by `user`. */
  ghost predicate Reserved(owner: string, r: Registry, d: string, user: string)
    requires Total(r)
  {
    && WellFormed(d) && user != "" && owner != ""
    && (ZoneRow(r, d); r.owner[Zone(d)] == owner)
    && r.holder[d] == user
  }

  /**
   * The only operations that can touch a reservation in an owned zone, or its records: its holder
   * removing it, the owner giving up the zone or renewing the ownership record, and an owner other
   * than the gateway adding to it.
   */
  predicate MayDisturb(id: string, owner: string, d: string, user: string, op: DnsOp)
  {
    match op
    case AddSubdomain(u, e, _) => owner != id && u == owner && e == d
    case RemoveSubdomain(u, e, _) => u == user && e == d
    case RemoveDelegate(u, z) => u == owner && z == SplitDomain(d).1
    case AddDelegate(_, u, z) => u == owner && d == DomainOf(OWNER_LABEL, z)
    case Cleanup => false
  }

  lemma ReservationKept(
    id: string, owner: string, r: Registry, op: DnsOp, q: Registry, d: string, user: string)
    requires Total(r) && Visits(id, r, op, q)
    requires Reserved(owner, r, d, user) && !MayDisturb(id, owner, d, user, op)
    ensures Total(q) && Reserved(owner, q, d, user) && q.records[d] == r.records[d]
  {
    hide Visits, ValidateDomain, WellFormed, SplitDomain;
    ZoneRow(r, d);
    VisitsStayTotal(id, r, op, q);
    if q != r {
      match op
      case AddSubdomain(u, e, ips) => AddTouches(id, r, u, e, ips, q);
      case RemoveSubdomain(u, e, ips) => RemoveTouches(id, r, u, e, ips, q);
      case AddDelegate(g, u, y) => AddDelegateTouches(id, r, g, u, y, q);
      case RemoveDelegate(u, y) => RemoveDelegateTouches(id, r, u, y, q);
      case Cleanup => CleanupTouchesNothing(id, r, q);
    }
  }

  // ------------------------------------------------------------ ownership records are never removed

  /** No operation takes the text records of a domain away. */
  lemma TextStays(id: string, r: Registry, op: DnsOp, q: Registry, d: string)
    requires Total(r) && Visits(id, r, op, q)
    requires WellFormed(d) && HasText(r.records[d])
    ensures Total(q) && HasText(q.records[d])
  {
    hide ValidateDomain, WellFormed, SplitDomain, HasText, AddAll, Minus, RecordSet, OwnerText, RefuseAdd;
    VisitsStayTotal(id, r, op, q);
    match op
    case AddSubdomain(u, e, ips) => AddressesKeepText(r.records[d], ips);
    case RemoveSubdomain(u, e, ips) => TextStaysAtRemoval(id, r, u, e, ips, q, d);
    case AddDelegate(g, u, y) => OwnerRecordIsText(g, u);
    case RemoveDelegate(u, y) =>
    case Cleanup =>
  }

  lemma TextStaysAtRemoval(
    id: string, r: Registry, user: string, e: string, ips: seq<IP>, q: Registry, d: string)
    requires Total(r) && Total(q) && Visits(id, r, RemoveSubdomain(user, e, ips), q)
    requires WellFormed(d) && HasText(r.records[d])
    ensures HasText(q.records[d])
  {
    hide ValidateDomain, WellFormed, SplitDomain, HasText, Minus, RecordSet;
    AddressesKeepText(r.records[d], ips);
  }

  lemma OwnerRecordIsText(gateway: string, owner: string)
    ensures HasText(Add(map[], OwnerRecord(gateway, owner)))
  {
    hide OwnerText;
    assert OwnerRecord(gateway, owner) in List(Add(map[], OwnerRecord(gateway, owner)), "txt");
  }

  // ------------------------------------------------------------ records never outlive their reservation

  /** In a zone of the gateway, a domain with records, other than the zone's ownership record, is held by someone. */
  ghost predicate Covered(id: string, r: Registry, z: string)
    requires Total(r)
  {
    && WellFormed(z) && r.owner[z] == id && id != ""
    && forall d :: WellFormed(d) && Zone(d) == z && d != OwnerDomain(z) && r.records[d] != map[] ==>
         r.holder[d] != ""
  }

  /** Operations that break the cover: giving the zone up, and reserving for nobody. */
  predicate MayUncover(id: string, z: string, op: DnsOp)
  {
    match op
    case AddSubdomain(u, _, _) => u == ""
    case RemoveDelegate(u, y) => u == id && y == z
    case _ => false
  }

  lemma CoverKept(id: string, r: Registry, op: DnsOp, q: Registry, z: string)
    requires Total(r) && Visits(id, r, op, q)
    requires Covered(id, r, z) && !MayUncover(id, z, op)
    ensures Total(q) && Covered(id, q, z)
  {
    hide Visits, ValidateDomain, WellFormed, SplitDomain;
    VisitsStayTotal(id, r, op, q);
    if q != r {
      match op
      case AddSubdomain(u, e, ips) => AddTouches(id, r, u, e, ips, q);
      case RemoveSubdomain(u, e, ips) => RemoveTouches(id, r, u, e, ips, q);
      case AddDelegate(g, u, y) => AddDelegateTouches(id, r, g, u, y, q);
      case RemoveDelegate(u, y) => RemoveDelegateTouches(id, r, u, y, q);
      case Cleanup => CleanupTouchesNothing(id, r, q);
    }
  }

  // ------------------------------------------------------------ stuck reservations

  /** A reservation in a gateway's zone without records, outside the ownership slot. */
  ghost predicate Stuck(id: string, r: Registry, d: string, user: string)
    requires Total(r)
  {
    Reserved(id, r, d, user) && r.records[d] == map[] && d != OwnerDomain(Zone(d))
  }

  /** Nobody, not even its holder, can end it: only the gateway giving up the zone can. */
  lemma StuckForever(id: string, r: Registry, op: DnsOp, q: Registry, d: string, user: string)
    requires Total(r) && Visits(id, r, op, q)
    requires Stuck(id, r, d, user)
    requires op != RemoveDelegate(id, Zone(d))
    ensures Total(q) && Stuck(id, q, d, user)
  {
    hide Visits, ValidateDomain, WellFormed, SplitDomain;
    ZoneRow(r, d);
    VisitsStayTotal(id, r, op, q);
    if q != r {
      match op
      case AddSubdomain(u, e, ips) => AddTouches(id, r, u, e, ips, q);
      case RemoveSubdomain(u, e, ips) => RemoveTouches(id, r, u, e, ips, q);
      case AddDelegate(g, u, y) => AddDelegateTouches(id, r, g, u, y, q);
      case RemoveDelegate(u, y) => RemoveDelegateTouches(id, r, u, y, q);
      case Cleanup => CleanupTouchesNothing(id, r, q);
    }
  }

  // ------------------------------------------------------------ zone ownership

  /** A zone's owner goes only when that owner gives the zone up. */
  lemma OwnershipKept(id: string, r: Registry, op: DnsOp, q: Registry, z: string)
    requires Total(r) && Visits(id, r, op, q)
    requires WellFormed(z) && r.owner[z] != ""
    requires op != RemoveDelegate(r.owner[z], z)
    ensures Total(q) && q.owner[z] == r.owner[z]
  {
    hide Visits, ValidateDomain, WellFormed, SplitDomain;
    VisitsStayTotal(id, r, op, q);
    if q != r {
      match op
      case AddSubdomain(u, e, ips) => AddTouches(id, r, u, e, ips, q);
      case RemoveSubdomain(u, e, ips) => RemoveTouches(id, r, u, e, ips, q);
      case AddDelegate(g, u, y) => AddDelegateTouches(id, r, g, u, y, q);
      case RemoveDelegate(u, y) => RemoveDelegateTouches(id, r, u, y, q);
      case Cleanup => CleanupTouchesNothing(id, r, q);
    }
  }
}
