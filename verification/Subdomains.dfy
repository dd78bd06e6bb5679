/** What pairs of DNS operations, and failed or repeated ones, come to. */
module Subdomains {
  import opened Json
  import opened Strings
  import opened Domains
  import opened Records
  import opened RecordCodec
  import opened Keyspace
  import opened Cleaning
  import opened DnsSpec
  import opened Layout
  import opened Refinement
  import R = Registry

  // ------------------------------------------------------------ add, then remove

  /** A subdomain that nobody holds and that has no slot. */
  predicate Untouched(s: Store, d: string)
  {
    var (name, zone) := SplitDomain(d);
    && HashKey(s, RESERVED) && d !in Fields(s, RESERVED)
    && HashKey(s, RecordsKey(zone)) && name !in Fields(s, RecordsKey(zone))
  }

  lemma AddOnUntouched(id: string, s: Store, user: string, d: string, ips: seq<IP>)
    requires Untouched(s, d) && RefuseAdd(id, s, user, d).None?
    ensures var t := Publish(Reserve(s, d, user), d, AddAll(map[], ips));
            && AfterAdd(id, s, user, d, ips) == (t, None)
            && ReadOwner(t, SplitDomain(d).1) == ReadOwner(s, SplitDomain(d).1)
            && ReadUser(t, d) == Ok(user)
            && ReadSlot(t, d) == Ok(AddAll(map[], ips))
            && d in Fields(t, RESERVED)
  {
    hide ValidateDomain, SplitDomain, AddAll, EncodeRecords, DecodeRecords, RefuseAdd;
    RecordsKeyIsApart(SplitDomain(d).1);
    ReserveKeepsSlots(s, d, user, d);
    AddAllKeepsTyping(map[], ips);
    RoundTrip(AddAll(map[], ips));
  }

  lemma PublishedThenReleased(s: Store, user: string, d: string, rs: RecordMap)
    requires Untouched(s, d)
    ensures Release(Withdraw(Publish(Reserve(s, d, user), d, rs), d), d) == s
  {
    hide SplitDomain, EncodeRecords, DecodeRecords;
    var (name, zone) := SplitDomain(d);
    RecordsKeyIsApart(zone);
    SetThenDelete(Reserve(s, d, user), RecordsKey(zone), name, RecordsDoc(rs));
    SetThenDelete(s, RESERVED, d, Text(user));
  }

  /**
   * In a zone of the gateway or of the user, adding a fresh subdomain and removing addresses again
   * restores the whole store exactly when at least one address was added and all of them are removed:
   * order, repetition and further addresses do not matter.
   */
  lemma AddThenRemoveRestoresIff(id: string, s: Store, user: string, d: string, ips: seq<IP>, gone: seq<IP>)
    requires Untouched(s, d) && RefuseAdd(id, s, user, d).None?
    ensures var added := AfterAdd(id, s, user, d, ips);
            var removed := AfterRemove(added.0, user, d, gone);
            && added.1.None? && removed.1.None?
            && (removed.0 == s <==> ips != [] && RecordSet(ips) <= RecordSet(gone))
  {
    hide ValidateDomain, WellFormed, SplitDomain, AddAll, RemoveAll, EncodeRecords, DecodeRecords, RecordSet,
         RecordsKey;
    var rs := AddAll(map[], ips);
    var t := Publish(Reserve(s, d, user), d, rs);
    assert ValidateDomain(d) && ReadOwner(s, SplitDomain(d).1).Ok?;
    assert ReadOwner(s, SplitDomain(d).1).value != "";
    AddOnUntouched(id, s, user, d, ips);
    PublishedThenReleased(s, user, d, rs);
    RemoveAllAfterAddAll(ips, gone);
    RecordsKeyIsApart(SplitDomain(d).1);
    assert Removable(t, user, d) == Ok(rs);
    AddAllKeepsTyping(map[], ips);
    if ips == [] {
      assert rs == map[] by { NothingAdded(); }
      assert AfterRemove(t, user, d, gone) == (t, None);
    } else {
      var left := RemoveAll(rs, gone);
      assert AfterRemove(t, user, d, gone) == (Remaining(t, d, left), None);
      if !IsEmpty(left) {
        PublishKeepsReservations(t, d, left);
      }
    }
  }

  lemma PublishKeepsReservations(s: Store, d: string, rs: RecordMap)
    ensures Fields(Publish(s, d, rs), RESERVED) == Fields(s, RESERVED)
  {
    hide SplitDomain, RecordsDoc;
    RecordsKeyIsApart(SplitDomain(d).1);
  }

  lemma NothingAdded()
    ensures AddAll(map[], []) == map[]
  {}

  // ------------------------------------------------------------ what a removal leaves

  /** Every row of the registry except one domain's is the same in both stores. */
  ghost predicate SameElsewhere(s: Store, t: Store, d: string)
  {
    forall e :: WellFormed(e) ==>
      && OwnerAt(t, e) == OwnerAt(s, e)
      && (e != d ==> HolderAt(t, e) == HolderAt(s, e) && RecordsAt(t, e) == RecordsAt(s, e))
  }

  /**
   * A removal that succeeds: in an owned zone the records lose exactly the addresses given, and
   * the holder goes exactly when that empties them; in a zone without owner only the holder goes.
   */
  lemma RemovalExactly(s: Store, user: string, d: string, ips: seq<IP>)
    requires WellLaid(s) && AfterRemove(s, user, d, ips).1.None?
    ensures var t := AfterRemove(s, user, d, ips).0;
            && SameElsewhere(s, t, d)
            && if OwnerAt(s, SplitDomain(d).1) != ""
               then
                 && RecordsAt(t, d) == Minus(RecordsAt(s, d), RecordSet(ips))
                 && HolderAt(t, d) == if RecordsAt(s, d) != map[] && RecordsAt(t, d) == map[] then ""
                                      else HolderAt(s, d)
               else
                 RecordsAt(t, d) == RecordsAt(s, d) && HolderAt(t, d) == ""
  {
    hide *;
    var t := AfterRemove(s, user, d, ips).0;
    RemoveCommutes(s, user, d, ips);
    R.RemovalRows(Abs(s), user, d, ips);
    ZoneOf(d);
    RowsOf(s);
    RowsOf(t);
    SameRows(s, t, d);
  }

  lemma ZoneOf(d: string)
    ensures R.Zone(d) == SplitDomain(d).1
  {}

  lemma SameRows(s: Store, t: Store, d: string)
    requires Abs(t).owner == Abs(s).owner
    requires forall e :: WellFormed(e) && e != d ==>
               Abs(t).holder[e] == Abs(s).holder[e] && Abs(t).records[e] == Abs(s).records[e]
    ensures SameElsewhere(s, t, d)
  {
    hide ValidateDomain, WellFormed, OwnerAt, HolderAt, RecordsAt, Abs;
    RowsOf(s);
    RowsOf(t);
  }

  lemma RowsOf(s: Store)
    ensures forall e :: WellFormed(e) ==>
      && e in Abs(s).owner && e in Abs(s).holder && e in Abs(s).records
      && Abs(s).owner[e] == OwnerAt(s, e)
      && Abs(s).holder[e] == HolderAt(s, e)
      && Abs(s).records[e] == RecordsAt(s, e)
  {}

  // ------------------------------------------------------------ failed additions

  /** The rollback restores the store exactly when there was no reservation before. */
  lemma RollbackRestoresIff(s: Store, d: string)
    requires HashKey(s, RESERVED)
    ensures Release(s, d) == s <==> d !in Fields(s, RESERVED)
  {
    assert RESERVED in s ==> s[RESERVED] == Hash(Fields(s, RESERVED));
    if d !in Fields(s, RESERVED) {
      assert Fields(s, RESERVED) - {d} == Fields(s, RESERVED);
    }
  }

  /**
   * After an `AddSubdomain` that reports an error no records and no other reservation have changed;
   * nothing at all has when it was refused, nor when the rollback worked and no reservation was stored
   * before, as is always so where the gateway owns the zone.
   */
  lemma FailedAddIsAtomic(id: string, s: Store, user: string, d: string, faults: int, t: Store)
    requires AddFailed(id, s, user, d, faults, t)
    ensures forall k :: k != RESERVED ==> SameAt(s, t, k)
    ensures forall e :: e != d ==> HGet(t, RESERVED, e) == HGet(s, RESERVED, e)
    ensures RefuseAdd(id, s, user, d).Some? ==> t == s
    ensures RolledBack(s, d, faults) && d !in Fields(s, RESERVED) ==> t == s
    ensures ReadOwner(s, SplitDomain(d).1) == Ok(id) && HGet(s, RESERVED, d) != Got(Text("")) ==>
              RolledBack(s, d, faults) ==> t == s
    ensures t == s || HGet(t, RESERVED, d) == Nil
            || (HGet(t, RESERVED, d) == Got(Text(user)) && !RolledBack(s, d, faults))
  {
    hide ValidateDomain, WellFormed, SplitDomain, ReadSlot, RolledBack;
    if t != s {
      RollbackRestoresIff(s, d);
      FieldWrite(s, RESERVED, d, Text(user));
    }
  }

  // ------------------------------------------------------------ giving up a zone

  /** Giving up a zone changes the zone's owner and nothing else: its records stay readable. */
  lemma GivingUpKeepsRecords(s: Store, user: string, z: string)
    requires WellLaid(s) && RefuseDelegate(s, user, z).None?
    ensures var t := AfterRemoveDelegate(s, user, z).0;
            && (forall k :: k != ZONES ==> SameAt(s, t, k))
            && Fields(t, ZONES) == Fields(s, ZONES) - {z}
            && OwnerAt(t, z) == ""
            && (forall e :: WellFormed(e) ==> RecordsAt(t, e) == RecordsAt(s, e))
  {
    hide SplitDomain, OwnerAt, HolderAt, RecordsAt, WellLaid, Abs;
    assert WellFormed(z);
    hide ValidateDomain, WellFormed;
    KindsFit(s);
    NoDomainIsAKey(s, z);
    GiveUpAbs(s, z);
    RowsOf(s);
    RowsOf(AfterRemoveDelegate(s, user, z).0);
  }

  /** So the zone's records are gone with it exactly when there were none. */
  lemma RecordsGoneIff(s: Store, user: string, z: string)
    requires WellLaid(s) && RefuseDelegate(s, user, z).None?
    ensures Fields(AfterRemoveDelegate(s, user, z).0, RecordsKey(z)) == map[] <==> RecordsKey(z) !in s
  {
    assert WellFormed(z);
    RecordsKeyOfZone(z);
    KindsFit(s);
    GivingUpKeepsRecords(s, user, z);
    assert SameAt(s, AfterRemoveDelegate(s, user, z).0, RecordsKey(z));
  }

  /** What the comment in the source intends: deleting the records hash as well. */
  function GiveUpWithRecords(s: Store, z: string): Store
  {
    HDel(Del(s, RecordsKey(z)), ZONES, z)
  }

  lemma IntendedGiveUpEmptiesZone(s: Store, z: string)
    requires WellLaid(s) && WellFormed(z)
    ensures var t := GiveUpWithRecords(s, z);
            && OwnerAt(t, z) == ""
            && (forall d :: WellFormed(d) ==>
                 RecordsAt(t, d) == if SplitDomain(d).1 == z then map[] else RecordsAt(s, d))
            && Holders(t) == Holders(s)
  {
    hide ValidateDomain, WellFormed, SplitDomain, WellLaid, OwnerAt, RecordsAt;
    var t := GiveUpWithRecords(s, z);
    RecordsKeyOfZone(z);
    KindsFit(s);
    HoldersFrame(s, t);
    NoOwner(t, z);
    forall d | WellFormed(d)
      ensures RecordsAt(t, d) == if SplitDomain(d).1 == z then map[] else RecordsAt(s, d)
    {
      IntendedGiveUpSlot(s, z, d);
    }
  }

  lemma NoOwner(s: Store, z: string)
    requires WellFormed(z) && HGet(s, ZONES, z) == Nil
    ensures OwnerAt(s, z) == ""
  {
    RecordsKeyOfZone(z);
  }

  lemma IntendedGiveUpSlot(s: Store, z: string, d: string)
    requires WellLaid(s) && WellFormed(z) && WellFormed(d)
    ensures RecordsAt(GiveUpWithRecords(s, z), d) == if SplitDomain(d).1 == z then map[] else RecordsAt(s, d)
  {
    hide ValidateDomain, WellFormed, SplitDomain, WellLaid;
    var t := GiveUpWithRecords(s, z);
    ZoneIsWellFormed(d);
    RecordsKeyOfZone(z);
    RecordsKeyOfZone(SplitDomain(d).1);
    if SplitDomain(d).1 != z {
      assert RecordsKey(SplitDomain(d).1) != RecordsKey(z);
      SlotFrame(s, t, d);
    }
  }

  // ------------------------------------------------------------ cleanup

  /** Every slot that a cleanup leaves holds at least one record. */
  lemma CleanSlotsHoldRecords(s: Store, k: string, name: string)
    requires WellLaid(s) && IsRecordsKey(k) && name in Fields(CleanStore(s), k)
    ensures DecodeValue(Fields(CleanStore(s), k)[name]).Some?
    ensures !IsEmpty(DecodeValue(Fields(CleanStore(s), k)[name]).value)
  {
    hide ValidateDomain, WellFormed, SlotRecords, SplitDomain, DecodeRecords, EncodeRecords;
    CleanFields(s, k);
    var v := Fields(CleanStore(s), k)[name];
    assert ZoneLike(s, k) by { RecordsKeyIsZoneLike(s, k); }
    ZoneLikeSlots(s, k);
    assert SlotOk(TrimDot(k), name, v) && !Blank(v);
    StoredNonBlank(TrimDot(k), name, v);
  }

  lemma RecordsKeyIsZoneLike(s: Store, k: string)
    requires WellLaid(s) && IsRecordsKey(k) && k in s
    ensures ZoneLike(s, k)
  {
    hide WellLaid, ValidateDomain, WellFormed;
    RecordsKeyOfZone(TrimDot(k));
    KindsFit(s);
    assert k == TrimDot(k) + ".";
  }

  lemma StoredNonBlank(zone: string, name: string, v: Value)
    requires SlotOk(zone, name, v) && !Blank(v)
    ensures DecodeValue(v).Some? && !IsEmpty(DecodeValue(v).value)
  {
    hide ValidateDomain, WellFormed, SplitDomain, DomainOf;
    EmptyMeansNothing(DecodeValue(v).value);
  }

  /** No read of any slot can tell whether a cleanup ran, in whole or in part. */
  lemma CleanupKeepsReads(s: Store, t: Store, zone: string, name: string)
    requires WellLaid(s) && PartlyCleaned(s, t)
    ensures ReadRecords(t, zone, name) == ReadRecords(s, zone, name)
    ensures forall k :: !EndsWithDot(k) || (k in s && s[k].Bytes?) ==> SameAt(s, t, k)
  {
    CleanReads(s, t, zone, name);
  }
}
