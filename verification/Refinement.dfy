/** The redis layout refines the plain registry, command by command. */
module Refinement {
  import opened Json
  import opened Strings
  import opened Domains
  import opened Records
  import opened RecordCodec
  import opened Keyspace
  import opened Cleaning
  import opened DnsSpec
  import opened Layout
  import R = Registry

  // ------------------------------------------------------------ abstraction

  ghost function OwnerAt(s: Store, z: string): string
  {
    match ReadOwner(s, z)
    case Ok(o) => o
    case Err(_) => ""
  }

  ghost function HolderAt(s: Store, d: string): string
  {
    match ReadUser(s, d)
    case Ok(u) => u
    case Err(_) => ""
  }

  ghost function RecordsAt(s: Store, d: string): RecordMap
  {
    match ReadSlot(s, d)
    case Ok(rs) => rs
    case Err(_) => map[]
  }

  ghost function Owners(s: Store): imap<string, string>
  {
    imap z | z in R.AllDomains() :: OwnerAt(s, z)
  }

  ghost function Holders(s: Store): imap<string, string>
  {
    imap d | d in R.AllDomains() :: HolderAt(s, d)
  }

  ghost function AllRecords(s: Store): imap<string, RecordMap>
  {
    imap d | d in R.AllDomains() :: RecordsAt(s, d)
  }

  /** The registry a store stands for. */
  ghost function Abs(s: Store): (r: R.Registry)
    ensures R.Total(r)
  {
    R.Registry(Owners(s), Holders(s), AllRecords(s))
  }

  lemma OwnersAre(s: Store, m: imap<string, string>)
    requires m.Keys == R.AllDomains()
    requires forall z :: z in m ==> m[z] == OwnerAt(s, z)
    ensures Owners(s) == m
  {}

  lemma HoldersAre(s: Store, m: imap<string, string>)
    requires m.Keys == R.AllDomains()
    requires forall d :: d in m ==> m[d] == HolderAt(s, d)
    ensures Holders(s) == m
  {}

  lemma RecordsAre(s: Store, m: imap<string, RecordMap>)
    requires m.Keys == R.AllDomains()
    requires forall d :: d in m ==> m[d] == RecordsAt(s, d)
    ensures AllRecords(s) == m
  {}

  // ------------------------------------------------------------ frames

  lemma OwnersFrame(s: Store, t: Store)
    requires SameAt(s, t, ZONES)
    ensures Owners(t) == Owners(s)
  {
    assert Fields(s, ZONES) == Fields(t, ZONES);
    forall z ensures OwnerAt(t, z) == OwnerAt(s, z) {}
    OwnersAre(t, Owners(s));
  }

  lemma HoldersFrame(s: Store, t: Store)
    requires SameAt(s, t, RESERVED)
    ensures Holders(t) == Holders(s)
  {
    assert Fields(s, RESERVED) == Fields(t, RESERVED);
    forall d ensures HolderAt(t, d) == HolderAt(s, d) {}
    HoldersAre(t, Holders(s));
  }

  lemma SlotFrame(s: Store, t: Store, d: string)
    requires SameAt(s, t, RecordsKey(SplitDomain(d).1))
    ensures ReadSlot(t, d) == ReadSlot(s, d)
  {
    assert Fields(s, RecordsKey(SplitDomain(d).1)) == Fields(t, RecordsKey(SplitDomain(d).1));
  }

  /** Writes under a key that is no records key leave every slot alone. */
  lemma SlotsFrame(s: Store, t: Store, key: string)
    requires forall k :: k != key ==> SameAt(s, t, k)
    requires !EndsWithDot(key) || PROXY_PREFIX <= key
    ensures AllRecords(t) == AllRecords(s)
  {
    forall d | WellFormed(d) ensures RecordsAt(t, d) == RecordsAt(s, d) {
      ZoneIsWellFormed(d);
      RecordsKeyOfZone(SplitDomain(d).1);
      SlotFrame(s, t, d);
    }
    RecordsAre(t, AllRecords(s));
  }

  /** A store that differs only under a key the registry does not use stands for the same registry. */
  lemma ForeignKey(s: Store, t: Store, key: string)
    requires forall k :: k != key ==> SameAt(s, t, k)
    requires key == RESERVATIONS || PROXY_PREFIX <= key
    ensures Abs(t) == Abs(s)
  {
    assert PROXY_PREFIX[0] == '/' && ZONES[0] == 'z' && RESERVED[0] == 'm' && RESERVATIONS[0] == 't';
    assert RESERVATIONS[|RESERVATIONS| - 1] == 's';
    OwnersFrame(s, t);
    HoldersFrame(s, t);
    SlotsFrame(s, t, key);
  }

  // ------------------------------------------------------------ each write

  lemma HolderWriteAbs(s: Store, t: Store, d: string, user: string)
    requires WellFormed(d) && OneField(s, t, RESERVED, d) && HolderAt(t, d) == user
    ensures Abs(t) == R.Held(Abs(s), d, user)
  {
    hide ValidateDomain, WellFormed, SplitDomain, HGet, OwnerAt, RecordsAt;
    assert RESERVED[|RESERVED| - 1] == 's';
    OwnersFrame(s, t);
    SlotsFrame(s, t, RESERVED);
    forall e ensures HolderAt(t, e) == if e == d then user else HolderAt(s, e) {}
    hide HolderAt;
    HoldersAre(t, Holders(s)[d := user]);
  }

  lemma ReserveAbs(s: Store, d: string, user: string)
    requires WellLaid(s) && WellFormed(d)
    ensures Abs(Reserve(s, d, user)) == R.Held(Abs(s), d, user)
  {
    hide ValidateDomain, WellFormed, WellLaid, OneField, Abs, HSet, HGet;
    KindsFit(s);
    FieldWrite(s, RESERVED, d, Text(user));
    HolderWriteAbs(s, Reserve(s, d, user), d, user);
  }

  lemma ReleaseAbs(s: Store, d: string)
    requires WellLaid(s) && WellFormed(d)
    ensures Abs(Release(s, d)) == R.Held(Abs(s), d, "")
  {
    hide ValidateDomain, WellFormed, WellLaid, OneField, Abs, HDel, HGet;
    KindsFit(s);
    FieldWrite(s, RESERVED, d, Text(""));
    HolderWriteAbs(s, Release(s, d), d, "");
  }

  lemma OwnerWriteAbs(s: Store, t: Store, z: string, user: string)
    requires WellFormed(z) && OneField(s, t, ZONES, z)
    requires HGet(t, ZONES, z) == Got(OwnerDoc(user)) || (user == "" && HGet(t, ZONES, z) == Nil)
    ensures Abs(t) == R.Owned(Abs(s), z, user)
  {
    hide ValidateDomain, WellFormed, SplitDomain, HolderAt, RecordsAt, HGet;
    assert ZONES[|ZONES| - 1] == 'e';
    forall y | WellFormed(y) ensures OwnerAt(t, y) == if y == z then user else OwnerAt(s, y) {
      RecordsKeyOfZone(y);
    }
    HoldersFrame(s, t);
    SlotsFrame(s, t, ZONES);
    OwnersAre(t, Owners(s)[z := user]);
  }

  lemma ClaimAbs(s: Store, z: string, user: string)
    requires WellLaid(s) && WellFormed(z)
    ensures Abs(Claim(s, z, user)) == R.Owned(Abs(s), z, user)
  {
    hide ValidateDomain, WellFormed, WellLaid, OneField, Abs, HSet, HGet, OwnerDoc;
    KindsFit(s);
    FieldWrite(s, ZONES, z, OwnerDoc(user));
    OwnerWriteAbs(s, Claim(s, z, user), z, user);
  }

  lemma GiveUpAbs(s: Store, z: string)
    requires WellLaid(s) && WellFormed(z)
    ensures Abs(GiveUp(s, z)) == R.Owned(Abs(s), z, "")
  {
    hide ValidateDomain, WellFormed, WellLaid, OneField, Abs, HDel, HGet;
    KindsFit(s);
    NoDomainIsAKey(s, z);
    FieldWrite(s, ZONES, z, OwnerDoc(""));
    OwnerWriteAbs(s, GiveUp(s, z), z, "");
  }

  /** A write to one slot changes the records of one domain only: slots are apart. */
  lemma SlotWriteAbs(s: Store, t: Store, d: string, rs: RecordMap)
    requires WellFormed(d)
    requires OneField(s, t, RecordsKey(SplitDomain(d).1), SplitDomain(d).0)
    requires ReadSlot(t, d) == Ok(rs)
    ensures Abs(t) == R.Filled(Abs(s), d, rs)
  {
    hide ValidateDomain, WellFormed, SplitDomain, RecordsKey, OwnerAt, HolderAt, HGet;
    RecordsKeyIsApart(SplitDomain(d).1);
    OwnersFrame(s, t);
    HoldersFrame(s, t);
    forall e | WellFormed(e) && e != d ensures RecordsAt(t, e) == RecordsAt(s, e) {
      OtherSlot(s, t, d, e);
    }
    RecordsAre(t, AllRecords(s)[d := rs]);
  }

  lemma OtherSlot(s: Store, t: Store, d: string, e: string)
    requires WellFormed(d) && WellFormed(e) && d != e
    requires OneField(s, t, RecordsKey(SplitDomain(d).1), SplitDomain(d).0)
    ensures ReadSlot(t, e) == ReadSlot(s, e)
  {
    SlotsApart(d, e);
    if RecordsKey(SplitDomain(e).1) != RecordsKey(SplitDomain(d).1) {
      SlotFrame(s, t, e);
    }
  }

  lemma SlotsApart(d: string, e: string)
    requires WellFormed(d) && WellFormed(e) && d != e
    ensures RecordsKey(SplitDomain(d).1) != RecordsKey(SplitDomain(e).1) || SplitDomain(d).0 != SplitDomain(e).0
  {
    ZoneIsWellFormed(d);
    ZoneIsWellFormed(e);
    RecordsKeyOfZone(SplitDomain(d).1);
    RecordsKeyOfZone(SplitDomain(e).1);
    if SplitDomain(d) == SplitDomain(e) {
      SlotsAreDistinct(d, e);
    }
  }

  lemma PublishAbs(s: Store, d: string, rs: RecordMap)
    requires WellLaid(s) && WellFormed(d) && SlotRecords(SplitDomain(d).0, rs)
    ensures Abs(Publish(s, d, rs)) == R.Filled(Abs(s), d, rs)
  {
    hide ValidateDomain, WellFormed, SplitDomain, WellLaid, RecordsKey, Abs, HSet, HGet, EncodeRecords,
         DecodeRecords;
    KindsFit(s);
    ZoneIsWellFormed(d);
    RoundTrip(rs);
    FieldWrite(s, RecordsKey(SplitDomain(d).1), SplitDomain(d).0, RecordsDoc(rs));
    SlotWriteAbs(s, Publish(s, d, rs), d, rs);
  }

  lemma WithdrawAbs(s: Store, d: string)
    requires WellLaid(s) && WellFormed(d)
    ensures Abs(Withdraw(s, d)) == R.Filled(Abs(s), d, map[])
  {
    hide ValidateDomain, WellFormed, SplitDomain, WellLaid, RecordsKey, Abs, HDel, HGet;
    KindsFit(s);
    ZoneIsWellFormed(d);
    FieldWrite(s, RecordsKey(SplitDomain(d).1), SplitDomain(d).0, Text(""));
    SlotWriteAbs(s, Withdraw(s, d), d, map[]);
  }

  /** The ownership record of a zone sits in the slot of the domain `__owner__.zone`. */
  lemma AnnounceIsPublish(s: Store, z: string, gateway: string, owner: string)
    requires WellFormed(z)
    ensures WellFormed(R.OwnerDomain(z)) && SplitDomain(R.OwnerDomain(z)).0 == OWNER_LABEL
    ensures Announce(s, z, gateway, owner)
            == Publish(s, R.OwnerDomain(z), Add(map[], OwnerRecord(gateway, owner)))
  {
    hide WellFormed, SplitDomain, HSet, OwnerRecord, RecordsDoc, RecordsKey;
    LabelSlot(OWNER_LABEL, z);
  }

  /** Cleaning, whole or partial, is invisible to every read. */
  lemma CleanReads(s: Store, t: Store, zone: string, name: string)
    requires WellLaid(s) && PartlyCleaned(s, t)
    ensures ReadRecords(t, zone, name) == ReadRecords(s, zone, name)
  {
    hide WellLaid, DecodeValue, Blank;
    var k := RecordsKey(zone);
    if k in s && ZoneLike(s, k) {
      if name in Fields(s, k) && name !in Fields(t, k) {
        BlankSlotIsEmpty(s, k, name);
      }
    } else if k in s {
      assert SameAt(s, t, k);
    }
  }

  lemma BlankSlotIsEmpty(s: Store, k: string, name: string)
    requires WellLaid(s) && ZoneLike(s, k) && name in Fields(s, k) && Blank(Fields(s, k)[name])
    ensures DecodeValue(Fields(s, k)[name]) == Some(map[])
  {
    ZoneLikeSlots(s, k);
    assert SlotOk(TrimDot(k), name, Fields(s, k)[name]);
    hide WellLaid, SlotRecords, ValidateDomain, WellFormed, SplitDomain, DomainOf, TrimDot;
  }

  /** In a laid-out store a key that looks like a zone is one. */
  lemma ZoneLikeSlots(s: Store, k: string)
    requires WellLaid(s) && ZoneLike(s, k)
    ensures IsRecordsKey(k)
    ensures forall n :: n in Fields(s, k) ==> SlotOk(TrimDot(k), n, Fields(s, k)[n])
  {
    hide SlotOk, ValidateDomain, WellFormed;
    assert EntryOk(k, s[k]);
    assert ZONES[|ZONES| - 1] == 'e' && RESERVED[|RESERVED| - 1] == 's' && RESERVATIONS[|RESERVATIONS| - 1] == 's';
  }

  lemma CleanAbs(s: Store, t: Store)
    requires WellLaid(s) && PartlyCleaned(s, t)
    ensures Abs(t) == Abs(s)
  {
    hide ValidateDomain, WellFormed, SplitDomain, WellLaid, OwnerAt, HolderAt;
    assert ZONES[|ZONES| - 1] == 'e' && RESERVED[|RESERVED| - 1] == 's';
    assert SameAt(s, t, ZONES) && SameAt(s, t, RESERVED);
    OwnersFrame(s, t);
    HoldersFrame(s, t);
    forall d | WellFormed(d) ensures RecordsAt(t, d) == RecordsAt(s, d) {
      CleanReads(s, t, SplitDomain(d).1, SplitDomain(d).0);
    }
    RecordsAre(t, AllRecords(s));
  }

  // ------------------------------------------------------------ each operation

  /** In a laid-out store the rows of the tables are what the reads return. */
  lemma RowsAreReads(s: Store, d: string)
    requires WellLaid(s) && WellFormed(d)
    ensures ReadOwner(s, d) == Ok(Abs(s).owner[d])
    ensures ReadUser(s, d) == Ok(Abs(s).holder[d])
    ensures ReadSlot(s, d) == Ok(Abs(s).records[d])
    ensures WellFormed(SplitDomain(d).1)
    ensures ReadOwner(s, SplitDomain(d).1) == Ok(Abs(s).owner[SplitDomain(d).1])
  {
    hide WellLaid, ValidateDomain, WellFormed, SplitDomain, ReadOwner, ReadUser, ReadSlot, SlotRecords;
    ReadsSucceed(s, d);
    ZoneIsWellFormed(d);
    ReadsSucceed(s, SplitDomain(d).1);
  }

  lemma RefuseAddAgrees(id: string, s: Store, user: string, d: string)
    requires WellLaid(s)
    ensures DnsSpec.RefuseAdd(id, s, user, d) == R.RefuseAdd(id, Abs(s), user, d)
  {
    hide ReadOwner, ReadUser, ValidateDomain, WellFormed, SplitDomain, Abs, WellLaid;
    if WellFormed(d) {
      RowsAreReads(s, d);
    }
  }

  lemma RefuseDelegateAgrees(s: Store, user: string, z: string)
    requires WellLaid(s)
    ensures DnsSpec.RefuseDelegate(s, user, z) == R.RefuseDelegate(Abs(s), user, z)
  {
    if WellFormed(z) {
      RowsAreReads(s, z);
    }
  }

  /** Storing the addresses of a subdomain just reserved. */
  lemma PublishAfterReserve(s: Store, user: string, d: string, ips: seq<IP>)
    requires WellLaid(s) && WellFormed(d)
    ensures ReadSlot(Reserve(s, d, user), d) == Ok(Abs(s).records[d])
    ensures var t := Publish(Reserve(s, d, user), d, AddAll(Abs(s).records[d], ips));
            WellLaid(t)
            && Abs(t) == R.Filled(R.Held(Abs(s), d, user), d, AddAll(Abs(s).records[d], ips))
  {
    ReserveKeepsSlots(s, d, user, d);
    ReserveKeepsLayout(s, d, user);
    ReserveAbs(s, d, user);
    RowsAreReads(s, d);
    ReadsSucceed(s, d);
    AddressesFit(SplitDomain(d).0, Abs(s).records[d], ips);
    SlotWriteKeepsLayout(Reserve(s, d, user), d, AddAll(Abs(s).records[d], ips));
    PublishAbs(Reserve(s, d, user), d, AddAll(Abs(s).records[d], ips));
  }

  lemma AddRefines(id: string, s: Store, user: string, d: string, ips: seq<IP>, t: Store)
    requires WellLaid(s) && AddVisits(id, s, user, d, ips, t)
    ensures WellLaid(t) && R.Visits(id, Abs(s), AddSubdomain(user, d, ips), Abs(t))
  {
    RefuseAddAgrees(id, s, user, d);
    if RefuseAdd(id, s, user, d).None? {
      ReserveKeepsLayout(s, d, user);
      ReserveAbs(s, d, user);
      ReleaseKeepsLayout(s, d);
      ReleaseAbs(s, d);
      PublishAfterReserve(s, user, d, ips);
    }
  }

  /** Storing what is left after a removal. */
  lemma RemainingRefines(s: Store, d: string, ips: seq<IP>)
    requires WellLaid(s) && WellFormed(d)
    ensures var rs := Abs(s).records[d];
            var left := Minus(rs, RecordSet(ips));
            && RemoveAll(rs, ips) == left
            && (IsEmpty(left) <==> left == map[])
            && (IsEmpty(rs) <==> rs == map[])
            && WellLaid(Withdraw(s, d)) && Abs(Withdraw(s, d)) == R.Filled(Abs(s), d, map[])
            && WellLaid(Remaining(s, d, left))
            && Abs(Remaining(s, d, left)) ==
               if left == map[] then R.Held(R.Filled(Abs(s), d, left), d, "") else R.Filled(Abs(s), d, left)
  {
    var rs := Abs(s).records[d];
    RowsAreReads(s, d);
    ReadsSucceed(s, d);
    RemovalFits(SplitDomain(d).0, rs, ips);
    var left := Minus(rs, RecordSet(ips));
    WithdrawKeepsLayout(s, d);
    WithdrawAbs(s, d);
    EmptyMeansNothing(rs);
    EmptyMeansNothing(left);
    if left == map[] {
      ReleaseKeepsLayout(Withdraw(s, d), d);
      ReleaseAbs(Withdraw(s, d), d);
    } else {
      SlotWriteKeepsLayout(s, d, left);
      PublishAbs(s, d, left);
    }
  }

  lemma EmptyMeansNothing(rs: RecordMap)
    requires NoEmptyList(rs)
    ensures IsEmpty(rs) <==> rs == map[]
  {
    if rs != map[] {
      var t :| t in rs;
    }
  }

  lemma RemovableAgrees(s: Store, user: string, d: string)
    requires WellLaid(s) && WellFormed(d)
    ensures var holder := Abs(s).holder[d];
            Removable(s, user, d) ==
            if holder != "" && holder != user then Err(NotAllowed) else Ok(Abs(s).records[d])
  {
    RowsAreReads(s, d);
  }

  lemma RemoveRefines(id: string, s: Store, user: string, d: string, ips: seq<IP>, t: Store)
    requires WellLaid(s) && DnsSpec.RemoveVisits(s, user, d, ips, t)
    ensures WellLaid(t) && R.Visits(id, Abs(s), RemoveSubdomain(user, d, ips), Abs(t))
  {
    hide ReadOwner, ReadUser, ReadSlot, ValidateDomain, WellFormed, SplitDomain, Abs, WellLaid, Withdraw,
         Remaining, Release, RecordSet, RemoveAll, Minus, IsEmpty, Removable, RecordsAt, HashKey;
    if WellFormed(d) {
      RemovableAgrees(s, user, d);
      RowsAreReads(s, d);
      ReleaseKeepsLayout(s, d);
      ReleaseAbs(s, d);
      RemainingRefines(s, d, ips);
    }
  }

  lemma AnnounceRefines(s: Store, z: string, gateway: string, user: string)
    requires WellLaid(s) && WellFormed(z)
    ensures var t := Announce(Claim(s, z, user), z, gateway, user);
            && WellLaid(Claim(s, z, user)) && WellLaid(t)
            && Abs(Claim(s, z, user)) == R.Owned(Abs(s), z, user)
            && Abs(t) == R.Filled(R.Owned(Abs(s), z, user), R.OwnerDomain(z),
                                  Add(map[], OwnerRecord(gateway, user)))
  {
    ClaimKeepsLayout(s, z, user);
    ClaimAbs(s, z, user);
    var claimed := Claim(s, z, user);
    AnnounceIsPublish(claimed, z, gateway, user);
    OwnerRecordFits(gateway, user);
    SlotWriteKeepsLayout(claimed, R.OwnerDomain(z), Add(map[], OwnerRecord(gateway, user)));
    PublishAbs(claimed, R.OwnerDomain(z), Add(map[], OwnerRecord(gateway, user)));
  }

  lemma AddDelegateRefines(id: string, s: Store, gateway: string, user: string, z: string, t: Store)
    requires WellLaid(s) && AddDelegateVisits(s, gateway, user, z, t)
    ensures WellLaid(t) && R.Visits(id, Abs(s), AddDelegate(gateway, user, z), Abs(t))
  {
    hide WellFormed, ValidateDomain, ReadOwner, Abs, WellLaid, Claim, Announce, OwnerRecord;
    RefuseDelegateAgrees(s, user, z);
    if WellFormed(z) {
      AnnounceRefines(s, z, gateway, user);
    }
  }

  lemma RemoveDelegateRefines(id: string, s: Store, user: string, z: string, t: Store)
    requires WellLaid(s) && RemoveDelegateVisits(s, user, z, t)
    ensures WellLaid(t) && R.Visits(id, Abs(s), RemoveDelegate(user, z), Abs(t))
  {
    hide WellFormed, ValidateDomain, ReadOwner, Abs, WellLaid, GiveUp;
    RefuseDelegateAgrees(s, user, z);
    if WellFormed(z) {
      NoDomainIsAKey(s, z);
      GiveUpKeepsLayout(s, z);
      GiveUpAbs(s, z);
    }
  }

  /**
   * Wherever an operation is cut short and whichever of its commands fail, the store stays well
   * laid out and stands for a registry that the operation may leave.
   */
  lemma VisitsRefine(id: string, s: Store, op: DnsOp, t: Store)
    requires WellLaid(s) && DnsSpec.Visits(id, s, op, t)
    ensures WellLaid(t) && R.Visits(id, Abs(s), op, Abs(t))
  {
    hide WellLaid, Abs, DnsSpec.AddVisits, DnsSpec.RemoveVisits, AddDelegateVisits, RemoveDelegateVisits,
         PartlyCleaned, R.RefuseAdd, R.RefuseDelegate, R.RemoveVisits;
    match op
    case AddSubdomain(user, d, ips) => AddRefines(id, s, user, d, ips, t);
    case RemoveSubdomain(user, d, ips) => RemoveRefines(id, s, user, d, ips, t);
    case AddDelegate(gateway, user, z) => AddDelegateRefines(id, s, gateway, user, z, t);
    case RemoveDelegate(user, z) => RemoveDelegateRefines(id, s, user, z, t);
    case Cleanup =>
      CleanKeepsLayout(s, t);
      CleanAbs(s, t);
  }

  /** Without faults each operation commutes with the abstraction, errors included. */
  lemma AfterCommutes(id: string, s: Store, op: DnsOp)
    requires WellLaid(s)
    ensures Abs(DnsSpec.After(id, s, op).0) == R.After(id, Abs(s), op).0
    ensures DnsSpec.After(id, s, op).1 == R.After(id, Abs(s), op).1
  {
    hide WellLaid, Abs, ValidateDomain, WellFormed, AfterAdd, DnsSpec.AfterRemove, AfterAddDelegate,
         AfterRemoveDelegate, R.AfterRemove, R.RefuseAdd, R.RefuseDelegate, CleanStore;
    match op
    case AddSubdomain(user, d, ips) => AddCommutes(id, s, user, d, ips);
    case RemoveSubdomain(user, d, ips) => RemoveCommutes(s, user, d, ips);
    case AddDelegate(gateway, user, z) => AddDelegateCommutes(id, s, gateway, user, z);
    case RemoveDelegate(user, z) => RemoveDelegateCommutes(id, s, user, z);
    case Cleanup =>
      CleanIsPartlyCleaned(s);
      CleanAbs(s, CleanStore(s));
  }

  lemma AddCommutes(id: string, s: Store, user: string, d: string, ips: seq<IP>)
    requires WellLaid(s)
    ensures Abs(AfterAdd(id, s, user, d, ips).0) == R.After(id, Abs(s), AddSubdomain(user, d, ips)).0
    ensures AfterAdd(id, s, user, d, ips).1 == R.After(id, Abs(s), AddSubdomain(user, d, ips)).1
  {
    hide WellLaid, Abs, ValidateDomain, WellFormed, ReadSlot, Reserve, Publish, DnsSpec.RefuseAdd;
    KindsFit(s);
    RefuseAddAgrees(id, s, user, d);
    if WellFormed(d) {
      PublishAfterReserve(s, user, d, ips);
    }
  }

  lemma AddDelegateCommutes(id: string, s: Store, gateway: string, user: string, z: string)
    requires WellLaid(s)
    ensures Abs(AfterAddDelegate(s, gateway, user, z).0) == R.After(id, Abs(s), AddDelegate(gateway, user, z)).0
    ensures AfterAddDelegate(s, gateway, user, z).1 == R.After(id, Abs(s), AddDelegate(gateway, user, z)).1
  {
    hide WellLaid, Abs, ValidateDomain, WellFormed, Claim, Announce, DnsSpec.RefuseDelegate, HashKey,
         RecordsKey;
    RefuseDelegateAgrees(s, user, z);
    if WellFormed(z) {
      AnnounceRefines(s, z, gateway, user);
      KindsFit(Claim(s, z, user));
    }
  }

  lemma RemoveDelegateCommutes(id: string, s: Store, user: string, z: string)
    requires WellLaid(s)
    ensures Abs(AfterRemoveDelegate(s, user, z).0) == R.After(id, Abs(s), RemoveDelegate(user, z)).0
    ensures AfterRemoveDelegate(s, user, z).1 == R.After(id, Abs(s), RemoveDelegate(user, z)).1
  {
    hide WellLaid, Abs, ValidateDomain, WellFormed, GiveUp, DnsSpec.RefuseDelegate;
    RefuseDelegateAgrees(s, user, z);
    if WellFormed(z) {
      GiveUpAbs(s, z);
    }
  }

  lemma RemoveCommutes(s: Store, user: string, d: string, ips: seq<IP>)
    requires WellLaid(s)
    ensures Abs(DnsSpec.AfterRemove(s, user, d, ips).0) == R.AfterRemove(Abs(s), user, d, ips).0
    ensures DnsSpec.AfterRemove(s, user, d, ips).1 == R.AfterRemove(Abs(s), user, d, ips).1
  {
    hide ReadOwner, ReadUser, ReadSlot, ValidateDomain, WellFormed, SplitDomain, Abs, WellLaid, Withdraw,
         Remaining, Release, RecordSet, RemoveAll, Minus, IsEmpty, Removable, RecordsAt, HashKey;
    KindsFit(s);
    if WellFormed(d) {
      RemovableAgrees(s, user, d);
      RowsAreReads(s, d);
      ReleaseAbs(s, d);
      RemainingRefines(s, d, ips);
    }
  }
}
