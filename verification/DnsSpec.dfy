/** What the DNS manager's operations do to the key space, as functions on it. */
module DnsSpec {
  import opened Json
  import opened JsonText
  import opened Strings
  import opened Domains
  import opened Records
  import opened RecordCodec
  import opened Keyspace
  import opened Cleaning

  const ZONES := "zone"                  // hash: delegated domain to owner
  const RESERVED := "managed_domains"    // hash: subdomain to user
  const OWNER_LABEL := "__owner__"       // label of a zone's ownership record

  datatype DnsOp =
    | AddSubdomain(user: string, domain: string, ips: seq<IP>)
    | RemoveSubdomain(user: string, domain: string, ips: seq<IP>)
    | AddDelegate(gateway: string, user: string, domain: string)
    | RemoveDelegate(user: string, domain: string)
    | Cleanup

  // ------------------------------------------------------------ layout of the store

  /** The key of a zone's records hash. */
  function RecordsKey(zone: string): string
  {
    if EndsWithDot(zone) then zone else zone + "."
  }

  function OwnerDoc(owner: string): Value
  {
    Doc(JObj(map["Owner" := JStr(owner)]))
  }

  function DecodeOwner(v: Value): Option<string>
  {
    match v
    case Doc(JNull) => Some("")
    case Doc(JObj(m)) => StrField(m, "Owner")
    case _ => None
  }

  function RecordsDoc(rs: RecordMap): Value
  {
    Doc(EncodeRecords(rs))
  }

  function DecodeValue(v: Value): Option<RecordMap>
  {
    if v.Doc? then DecodeRecords(v.json) else None
  }

  function OwnerText(gateway: string, owner: string): string
  {
    "{" + Member("identity", gateway) + "," + Member("owner", owner) + "}"
  }

  /** The ownership record of a zone. */
  function OwnerRecord(gateway: string, owner: string): Record
  {
    TXT(OwnerText(gateway, owner), 600)
  }

  // ------------------------------------------------------------ reads

  /** The owner of a zone, "" when there is none. */
  function ReadOwner(s: Store, zone: string): Result<string, Error>
  {
    match HGet(s, ZONES, TrimDot(zone))
    case Nil => Ok("")
    case Got(v) => (match DecodeOwner(v) case Some(o) => Ok(o) case None => Err(Malformed))
    case _ => Err(KindMismatch)
  }

  /** A document that names no owner names nobody; one that does is read back. */
  lemma OwnersRead(owner: string)
    ensures DecodeOwner(Doc(JObj(map["Owner" := JStr(owner)]))) == Some(owner)
    ensures DecodeOwner(Doc(JNull)) == Some("") && DecodeOwner(Doc(JObj(map[]))) == Some("")
  {}

  /** The user a subdomain is reserved for, "" when there is none. */
  function ReadUser(s: Store, domain: string): Result<string, Error>
  {
    match HGet(s, RESERVED, domain)
    case Nil => Ok("")
    case Got(v) => if v.Text? then Ok(v.text) else Err(Malformed)
    case _ => Err(KindMismatch)
  }

  function ReadRecords(s: Store, zone: string, name: string): Result<RecordMap, Error>
  {
    match HGet(s, RecordsKey(zone), name)
    case Nil => Ok(map[])
    case Got(v) => (match DecodeValue(v) case Some(rs) => Ok(rs) case None => Err(Malformed))
    case _ => Err(KindMismatch)
  }

  function ReadSlot(s: Store, domain: string): Result<RecordMap, Error>
  {
    ReadRecords(s, SplitDomain(domain).1, SplitDomain(domain).0)
  }

  /** The records keys end in a dot, so no other key of the gateway is one. */
  lemma RecordsKeyIsApart(zone: string)
    ensures EndsWithDot(RecordsKey(zone))
    ensures RecordsKey(zone) != ZONES && RecordsKey(zone) != RESERVED
  {}

  // ------------------------------------------------------------ writes

  function Reserve(s: Store, domain: string, user: string): Store
  {
    HSet(s, RESERVED, domain, Text(user))
  }

  function Release(s: Store, domain: string): Store
  {
    HDel(s, RESERVED, domain)
  }

  function Publish(s: Store, domain: string, rs: RecordMap): Store
  {
    HSet(s, RecordsKey(SplitDomain(domain).1), SplitDomain(domain).0, RecordsDoc(rs))
  }

  function Withdraw(s: Store, domain: string): Store
  {
    HDel(s, RecordsKey(SplitDomain(domain).1), SplitDomain(domain).0)
  }

  function Claim(s: Store, zone: string, owner: string): Store
  {
    HSet(s, ZONES, zone, OwnerDoc(owner))
  }

  function Announce(s: Store, zone: string, gateway: string, owner: string): Store
  {
    HSet(s, RecordsKey(zone), OWNER_LABEL, RecordsDoc(Add(map[], OwnerRecord(gateway, owner))))
  }

  function GiveUp(s: Store, zone: string): Store
  {
    HDel(Del(s, zone), ZONES, zone)
  }

  // ------------------------------------------------------------ whole operations, without faults

  /** Why `AddSubdomain` refuses, if it does. */
  function RefuseAdd(id: string, s: Store, user: string, domain: string): Option<Error>
  {
    if !ValidateDomain(domain) then Some(InvalidDomain)
    else
      match ReadOwner(s, SplitDomain(domain).1)
      case Err(e) => Some(e)
      case Ok(owner) =>
        if owner == "" then Some(NotManaged)
        else if owner == id then
          (match ReadUser(s, domain)
           case Err(e) => Some(e)
           case Ok(holder) => if holder != "" then Some(SubdomainUsed) else None)
        else if owner != user then Some(NotAllowed)
        else None
  }

  function AfterAdd(id: string, s: Store, user: string, domain: string, ips: seq<IP>): (Store, Option<Error>)
  {
    if RefuseAdd(id, s, user, domain).Some? then (s, RefuseAdd(id, s, user, domain))
    else if !HashKey(s, RESERVED) then (s, Some(KindMismatch))
    else
      var reserved := Reserve(s, domain, user);
      match ReadSlot(reserved, domain)
      case Err(e) => (Release(reserved, domain), Some(e))
      case Ok(rs) => (Publish(reserved, domain, AddAll(rs, ips)), None)
  }

  /** The records a user may remove from a subdomain whose zone has an owner, or why none. */
  function Removable(s: Store, user: string, domain: string): Result<RecordMap, Error>
  {
    match ReadUser(s, domain)
    case Err(e) => Err(e)
    case Ok(holder) => if holder != "" && holder != user then Err(NotAllowed) else ReadSlot(s, domain)
  }

  /** The slot with what is left of its records, or the slot and its reservation gone. */
  function Remaining(s: Store, domain: string, left: RecordMap): Store
  {
    if IsEmpty(left) then Release(Withdraw(s, domain), domain) else Publish(s, domain, left)
  }

  function AfterRemove(s: Store, user: string, domain: string, ips: seq<IP>): (Store, Option<Error>)
  {
    if !ValidateDomain(domain) then (s, Some(InvalidDomain))
    else
      match ReadOwner(s, SplitDomain(domain).1)
      case Err(e) => (s, Some(e))
      case Ok(owner) =>
        if owner == "" then (Release(s, domain), if HashKey(s, RESERVED) then None else Some(KindMismatch))
        else
          match Removable(s, user, domain)
          case Err(e) => (s, Some(e))
          case Ok(rs) => if IsEmpty(rs) then (s, None) else (Remaining(s, domain, RemoveAll(rs, ips)), None)
  }

  /** Why a delegation or its removal is refused, if it is. */
  function RefuseDelegate(s: Store, user: string, domain: string): Option<Error>
  {
    if !ValidateDomain(domain) then Some(InvalidDomain)
    else
      match ReadOwner(s, domain)
      case Err(e) => Some(e)
      case Ok(owner) => if owner != "" && owner != user then Some(NotAllowed) else None
  }

  function AfterAddDelegate(s: Store, gateway: string, user: string, domain: string): (Store, Option<Error>)
  {
    if RefuseDelegate(s, user, domain).Some? then (s, RefuseDelegate(s, user, domain))
    else
      var claimed := Claim(s, domain, user);
      (Announce(claimed, domain, gateway, user),
       if HashKey(claimed, RecordsKey(domain)) then None else Some(KindMismatch))
  }

  function AfterRemoveDelegate(s: Store, user: string, domain: string): (Store, Option<Error>)
  {
    if RefuseDelegate(s, user, domain).Some? then (s, RefuseDelegate(s, user, domain))
    else (GiveUp(s, domain), None)
  }

  /** The store and the error that an operation ends with when no command fails. */
  function After(id: string, s: Store, op: DnsOp): (Store, Option<Error>)
  {
    match op
    case AddSubdomain(user, domain, ips) => AfterAdd(id, s, user, domain, ips)
    case RemoveSubdomain(user, domain, ips) => AfterRemove(s, user, domain, ips)
    case AddDelegate(gateway, user, domain) => AfterAddDelegate(s, gateway, user, domain)
    case RemoveDelegate(user, domain) => AfterRemoveDelegate(s, user, domain)
    case Cleanup => (CleanStore(s), None)
  }

  lemma ReserveKeepsSlots(s: Store, domain: string, user: string, other: string)
    ensures ReadSlot(Reserve(s, domain, user), other) == ReadSlot(s, other)
  {
    RecordsKeyIsApart(SplitDomain(other).1);
  }

  // ------------------------------------------------------------ every store an operation can leave

  ghost predicate AddVisits(id: string, s: Store, user: string, domain: string, ips: seq<IP>, t: Store)
  {
    t == s
    || (RefuseAdd(id, s, user, domain).None? && HashKey(s, RESERVED)
        && var reserved := Reserve(s, domain, user);
           || t == reserved
           || t == Release(s, domain)
           || (ReadSlot(reserved, domain).Ok?
               && t == Publish(reserved, domain, AddAll(ReadSlot(reserved, domain).value, ips))))
  }

  /**
   * What `AddSubdomain` leaves when it reports an error, after so many faults: what it found, or,
   * where its checks had passed, no reservation. The new reservation stays behind only after more
   * faults than it takes to get past the records: one failed the rollback.
   */
  ghost predicate AddFailed(id: string, s: Store, user: string, domain: string, faults: int, t: Store)
  {
    t == s
    || (RefuseAdd(id, s, user, domain).None? && HashKey(s, RESERVED)
        && (t == Release(s, domain)
            || (t == Reserve(s, domain, user) && !RolledBack(s, domain, faults))))
  }

  /** Too few faults for the rollback to have met one. */
  predicate RolledBack(s: Store, domain: string, faults: int)
  {
    faults <= if ReadSlot(s, domain).Ok? then 1 else 0
  }

  ghost predicate RemoveVisits(s: Store, user: string, domain: string, ips: seq<IP>, t: Store)
  {
    t == s
    || (ValidateDomain(domain)
        && ReadOwner(s, SplitDomain(domain).1) == Ok("")
        && t == Release(s, domain))
    || (RemoveAllowed(s, user, domain)
        && var left := RemoveAll(Removable(s, user, domain).value, ips);
           t == Remaining(s, domain, left) || (IsEmpty(left) && t == Withdraw(s, domain)))
  }

  /** The zone has an owner, no other user holds the subdomain, and there are records to remove. */
  predicate RemoveAllowed(s: Store, user: string, domain: string)
  {
    && ValidateDomain(domain)
    && ReadOwner(s, SplitDomain(domain).1).Ok?
    && ReadOwner(s, SplitDomain(domain).1).value != ""
    && Removable(s, user, domain).Ok?
    && !IsEmpty(Removable(s, user, domain).value)
  }

  ghost predicate AddDelegateVisits(s: Store, gateway: string, user: string, domain: string, t: Store)
  {
    t == s
    || (RefuseDelegate(s, user, domain).None?
        && (t == Claim(s, domain, user) || t == Announce(Claim(s, domain, user), domain, gateway, user)))
  }

  ghost predicate RemoveDelegateVisits(s: Store, user: string, domain: string, t: Store)
  {
    t == s
    || (RefuseDelegate(s, user, domain).None? && (t == Del(s, domain) || t == GiveUp(s, domain)))
  }

  /**
   * `t` can be found in redis after some command of the operation, whichever of its commands
   * fail and wherever it is interrupted.
   */
  ghost predicate Visits(id: string, s: Store, op: DnsOp, t: Store)
  {
    match op
    case AddSubdomain(user, domain, ips) => AddVisits(id, s, user, domain, ips, t)
    case RemoveSubdomain(user, domain, ips) => RemoveVisits(s, user, domain, ips, t)
    case AddDelegate(gateway, user, domain) => AddDelegateVisits(s, gateway, user, domain, t)
    case RemoveDelegate(user, domain) => RemoveDelegateVisits(s, user, domain, t)
    case Cleanup => PartlyCleaned(s, t)
  }

  /** An operation that meets no fault ends in a store it can be found in. */
  lemma AfterIsVisited(id: string, s: Store, op: DnsOp)
    ensures Visits(id, s, op, After(id, s, op).0)
  {
    match op
    case AddSubdomain(user, domain, ips) =>
      SetThenDeleteIsDelete(s, RESERVED, domain, Text(user));
    case RemoveSubdomain(user, domain, ips) =>
    case AddDelegate(gateway, user, domain) =>
    case RemoveDelegate(user, domain) =>
    case Cleanup =>
      CleanIsPartlyCleaned(s);
  }
}
