/** What every key of a reachable store holds, and that every write keeps it so. */
module Layout {
  import opened Strings
  import opened Domains
  import opened Records
  import opened RecordCodec
  import opened Keyspace
  import opened Cleaning
  import opened DnsSpec

  const RESERVATIONS := "tfgateway_reservations"   // hash: the reservation cache
  const PROXY_PREFIX := "/tcprouter/service/"      // strings: the TCP router's services

  /** The key of the records hash of a well-formed zone. */
  predicate IsRecordsKey(key: string)
  {
    EndsWithDot(key) && WellFormed(TrimDot(key))
  }

  /**
   * Records of a slot: each filed under its own type, no list empty, addresses with a time to
   * live of an hour, and text only in the ownership slot.
   */
  predicate SlotRecords(name: string, rs: RecordMap)
  {
    && WellFiled(rs)
    && NoEmptyList(rs)
    && forall t :: t in rs ==>
         || ((t == "a" || t == "aaaa") && AllLiveAnHour(rs[t]))
         || (t == "txt" && name == OWNER_LABEL)
  }

  predicate AllLiveAnHour(l: seq<Record>)
  {
    forall i :: 0 <= i < |l| ==> !l[i].Empty? && l[i].ttl == 3600
  }

  /** A stored slot: it decodes to such records, blank if to none, under the label of a well-formed domain. */
  predicate SlotOk(zone: string, name: string, v: Value)
  {
    && DecodeValue(v).Some?
    && SlotRecords(name, DecodeValue(v).value)
    && (DecodeValue(v).value == map[] ==> Blank(v))
    && SlotName(zone, name)
  }

  /** A label, or no label where the zone has just two of its own. */
  predicate SlotName(zone: string, name: string)
  {
    if name == "" then |Split(zone)| == 2 else IsLabel(name)
  }

  predicate EntryOk(key: string, e: Entry)
  {
    if key == ZONES then
      e.Hash? && forall z :: z in e.fields ==> WellFormed(z) && DecodeOwner(e.fields[z]).Some?
    else if key == RESERVED then
      e.Hash? && forall d :: d in e.fields ==> WellFormed(d) && e.fields[d].Text?
    else if key == RESERVATIONS then
      e.Hash? && forall id :: id in e.fields ==> e.fields[id].Saved?
    else if PROXY_PREFIX <= key then
      e.Bytes?
    else
      IsRecordsKey(key) && e.Hash? && forall n :: n in e.fields ==> SlotOk(TrimDot(key), n, e.fields[n])
  }

  predicate WellLaid(s: Store)
  {
    forall k :: k in s ==> EntryOk(k, s[k])
  }

  // ------------------------------------------------------------ keys are apart

  /** No key of the layout is a well-formed domain: `DEL domain` never hits anything. */
  lemma NoDomainIsAKey(s: Store, d: string)
    requires WellLaid(s) && WellFormed(d)
    ensures d !in s && Del(s, d) == s
  {
    hide SlotOk, DecodeOwner, WellFormed, TrimDot;
    EndsOfDomain(d);
    assert '.' !in ZONES && '.' !in RESERVED && '.' !in RESERVATIONS;
    assert PROXY_PREFIX[0] == '/';
    assert d in s ==> EntryOk(d, s[d]);
  }

  lemma RecordsKeyOfZone(z: string)
    requires WellFormed(z)
    ensures RecordsKey(z) == z + "." && TrimDot(RecordsKey(z)) == z && TrimDot(z) == z
    ensures IsRecordsKey(RecordsKey(z))
    ensures RecordsKey(z) != ZONES && RecordsKey(z) != RESERVED && RecordsKey(z) != RESERVATIONS
    ensures !(PROXY_PREFIX <= RecordsKey(z))
  {
    EndsOfDomain(z);
    assert RecordsKey(z)[0] == z[0] && PROXY_PREFIX[0] == '/';
    assert RESERVATIONS[|RESERVATIONS| - 1] == 's';
  }

  /** In a laid-out store every key the manager uses has the kind it expects. */
  lemma KindsFit(s: Store)
    requires WellLaid(s)
    ensures HashKey(s, ZONES) && HashKey(s, RESERVED) && HashKey(s, RESERVATIONS)
    ensures forall z :: WellFormed(z) ==> HashKey(s, RecordsKey(z))
  {
    forall z | WellFormed(z) ensures HashKey(s, RecordsKey(z)) {
      RecordsKeyOfZone(z);
    }
  }

  /** Slot names of well-formed zones are exactly the labels their domains have. */
  lemma SlotNamesMatchDomains(zone: string, name: string)
    requires WellFormed(zone)
    ensures SlotName(zone, name) <==>
            WellFormed(DomainOf(name, zone)) && SplitDomain(DomainOf(name, zone)) == (name, zone)
  {
    EndsOfDomain(zone);
    SplitRebuilds(zone);
    if name == "" {
      assert |Split(zone)| >= 3 ==> |SplitDomain(zone).1| < |zone|;
    } else if IsLabel(name) {
      LabelSlot(name, zone);
    } else if WellFormed(DomainOf(name, zone)) && SplitDomain(DomainOf(name, zone)) == (name, zone) {
      SlotRebuilds(DomainOf(name, zone));
    }
  }

  // ------------------------------------------------------------ reads never fail

  lemma ReadsSucceed(s: Store, d: string)
    requires WellLaid(s) && WellFormed(d)
    ensures ReadOwner(s, d).Ok? && ReadUser(s, d).Ok?
    ensures ReadSlot(s, d).Ok? && SlotRecords(SplitDomain(d).0, ReadSlot(s, d).value)
  {
    hide WellLaid, WellFormed, SplitDomain, ReadOwner, ReadUser, ReadRecords, SlotRecords;
    ZoneIsWellFormed(d);
    OwnerReads(s, d);
    UserReads(s, d);
    RecordsRead(s, SplitDomain(d).1, SplitDomain(d).0);
  }

  lemma OwnerReads(s: Store, z: string)
    requires WellLaid(s) && WellFormed(z)
    ensures ReadOwner(s, z).Ok?
  {
    hide WellFormed, SlotOk, DecodeOwner;
    RecordsKeyOfZone(z);
    assert ZONES in s ==> EntryOk(ZONES, s[ZONES]);
  }

  lemma UserReads(s: Store, d: string)
    requires WellLaid(s)
    ensures ReadUser(s, d).Ok?
  {
    hide WellFormed, SlotOk, DecodeOwner;
    assert RESERVED in s ==> EntryOk(RESERVED, s[RESERVED]);
  }

  lemma RecordsRead(s: Store, zone: string, name: string)
    requires WellLaid(s) && WellFormed(zone)
    ensures ReadRecords(s, zone, name).Ok? && SlotRecords(name, ReadRecords(s, zone, name).value)
  {
    hide WellLaid, WellFormed, SlotName, DecodeValue, RecordsKey, Blank;
    ZoneSlots(s, zone);
    if name in Fields(s, RecordsKey(zone)) {
      assert SlotOk(zone, name, Fields(s, RecordsKey(zone))[name]);
    }
  }

  lemma ZoneSlots(s: Store, zone: string)
    requires WellLaid(s) && WellFormed(zone)
    ensures HashKey(s, RecordsKey(zone))
    ensures forall name :: name in Fields(s, RecordsKey(zone)) ==> SlotOk(zone, name, Fields(s, RecordsKey(zone))[name])
  {
    hide WellFormed, SlotOk, DecodeOwner, RecordsKey, TrimDot;
    RecordsKeyOfZone(zone);
    assert RecordsKey(zone) in s ==> EntryOk(RecordsKey(zone), s[RecordsKey(zone)]);
  }

  // ------------------------------------------------------------ writes keep the layout

  lemma PutKeepsLayout(s: Store, key: string, fields: map<string, Value>)
    requires WellLaid(s) && (fields != map[] ==> EntryOk(key, Hash(fields)))
    ensures WellLaid(PutFields(s, key, fields))
  {}

  lemma ReserveKeepsLayout(s: Store, d: string, user: string)
    requires WellLaid(s) && WellFormed(d)
    ensures WellLaid(Reserve(s, d, user))
  {
    KindsFit(s);
    PutKeepsLayout(s, RESERVED, Fields(s, RESERVED)[d := Text(user)]);
  }

  lemma ReleaseKeepsLayout(s: Store, d: string)
    requires WellLaid(s)
    ensures WellLaid(Release(s, d))
  {
    KindsFit(s);
    PutKeepsLayout(s, RESERVED, Fields(s, RESERVED) - {d});
  }

  lemma ClaimKeepsLayout(s: Store, z: string, user: string)
    requires WellLaid(s) && WellFormed(z)
    ensures WellLaid(Claim(s, z, user))
  {
    KindsFit(s);
    PutKeepsLayout(s, ZONES, Fields(s, ZONES)[z := OwnerDoc(user)]);
  }

  lemma GiveUpKeepsLayout(s: Store, z: string)
    requires WellLaid(s) && WellFormed(z)
    ensures WellLaid(GiveUp(s, z))
  {
    NoDomainIsAKey(s, z);
    KindsFit(s);
    PutKeepsLayout(s, ZONES, Fields(s, ZONES) - {z});
  }

  lemma SlotWriteKeepsLayout(s: Store, d: string, rs: RecordMap)
    requires WellLaid(s) && WellFormed(d) && SlotRecords(SplitDomain(d).0, rs)
    ensures WellLaid(Publish(s, d, rs))
  {
    var (name, zone) := SplitDomain(d);
    KindsFit(s);
    ZoneIsWellFormed(d);
    RecordsKeyOfZone(zone);
    SlotRebuilds(d);
    SlotNamesMatchDomains(zone, name);
    RoundTrip(rs);
    PutKeepsLayout(s, RecordsKey(zone), Fields(s, RecordsKey(zone))[name := RecordsDoc(rs)]);
  }

  lemma WithdrawKeepsLayout(s: Store, d: string)
    requires WellLaid(s) && WellFormed(d)
    ensures WellLaid(Withdraw(s, d))
  {
    var (name, zone) := SplitDomain(d);
    KindsFit(s);
    ZoneIsWellFormed(d);
    RecordsKeyOfZone(zone);
    PutKeepsLayout(s, RecordsKey(zone), Fields(s, RecordsKey(zone)) - {name});
  }

  // ------------------------------------------------------------ record contents

  lemma {:induction false} AddressesFit(name: string, rs: RecordMap, ips: seq<IP>)
    requires SlotRecords(name, rs)
    ensures SlotRecords(name, AddAll(rs, ips))
  {
    AddAllKeepsTyping(rs, ips);
    if ips != [] {
      var front, r := ips[..|ips| - 1], RecordFromIP(ips[|ips| - 1]);
      AddressesFit(name, rs, front);
      var l := List(AddAll(rs, front), r.Type());
      assert AllLiveAnHour(l + [r]);
    }
  }

  lemma FilteredLivesAnHour(l: seq<Record>, gone: set<Record>)
    requires AllLiveAnHour(l)
    ensures AllLiveAnHour(Without(l, gone))
  {
    WithoutMembers(l, gone);
    var w := Without(l, gone);
    forall i | 0 <= i < |w| ensures !w[i].Empty? && w[i].ttl == 3600 {
      assert w[i] in l;
    }
  }

  lemma RemovalFits(name: string, rs: RecordMap, ips: seq<IP>)
    requires SlotRecords(name, rs)
    ensures RemoveAll(rs, ips) == Minus(rs, RecordSet(ips))
    ensures SlotRecords(name, RemoveAll(rs, ips))
  {
    RemoveAllIsMinus(rs, ips);
    forall t | t in rs && AllLiveAnHour(rs[t]) ensures AllLiveAnHour(Without(rs[t], RecordSet(ips))) {
      FilteredLivesAnHour(rs[t], RecordSet(ips));
    }
  }

  lemma OwnerRecordFits(gateway: string, owner: string)
    ensures SlotRecords(OWNER_LABEL, Add(map[], OwnerRecord(gateway, owner)))
  {
    assert OwnerRecord(gateway, owner).Type() in KNOWN_TYPES;
  }

  lemma CleanKeepsLayout(s: Store, t: Store)
    requires WellLaid(s) && PartlyCleaned(s, t)
    ensures WellLaid(t)
  {
    forall k | k in t ensures EntryOk(k, t[k]) {
      if ZoneLike(s, k) {
        CleanedEntry(s, t, k);
      } else {
        assert SameAt(s, t, k);
      }
    }
  }

  lemma CleanedEntry(s: Store, t: Store, k: string)
    requires WellLaid(s) && PartlyCleaned(s, t) && ZoneLike(s, k) && k in t
    ensures EntryOk(k, t[k])
  {
    hide SlotOk, ValidateDomain, WellFormed, DecodeOwner;
    assert EntryOk(k, s[k]);
    assert forall f :: f in t[k].fields ==> f in Fields(t, k) && f in s[k].fields && t[k].fields[f] == s[k].fields[f];
    assert ZONES[|ZONES| - 1] == 'e' && RESERVED[|RESERVED| - 1] == 's' && RESERVATIONS[|RESERVATIONS| - 1] == 's';
  }
}
