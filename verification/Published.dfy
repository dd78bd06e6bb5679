/**
 * What the other programs on the same redis find there: who is told what by the DNS operations, and the
 * keys, fields and documents that a DNS server reads.
 */
module Published {
  import opened Json
  import opened JsonText
  import opened Domains
  import opened Records
  import opened RecordCodec
  import opened Keyspace
  import opened DnsSpec
  import opened Layout
  import opened Refinement
  import opened Subdomains
  import opened Delegations
  import R = Registry

  // ------------------------------------------------------------ answers

  /** Who may add to a subdomain, and what the others are told. */
  lemma AdditionAnswers(id: string, s: Store, user: string, d: string, ips: seq<IP>)
    requires WellLaid(s)
    ensures var err := AfterAdd(id, s, user, d, ips).1;
            var owner, holder := OwnerAt(s, SplitDomain(d).1), HolderAt(s, d);
            && (err == Some(InvalidDomain) <==> !ValidateDomain(d))
            && (ValidateDomain(d) ==>
                 && (err.None? <==> owner != "" && if owner == id then holder == "" else user == owner)
                 && (err == Some(NotManaged) <==> owner == "")
                 && (err == Some(SubdomainUsed) <==> owner == id && owner != "" && holder != "")
                 && (err == Some(NotAllowed) <==> owner != "" && owner != id && user != owner))
  {
    hide *;
    AddCommutes(id, s, user, d, ips);
    RegistryAnswers(id, Abs(s), user, d, ips);
    if ValidateDomain(d) {
      ZoneIsWellFormed(d);
      RowsOf(s);
    }
  }

  lemma RegistryAnswers(id: string, r: R.Registry, user: string, d: string, ips: seq<IP>)
    requires R.Total(r)
    ensures WellFormed(d) ==> WellFormed(SplitDomain(d).1)
    ensures var err := R.After(id, r, AddSubdomain(user, d, ips)).1;
            && (err == Some(InvalidDomain) <==> !ValidateDomain(d))
            && (ValidateDomain(d) ==>
                 var owner, holder := r.owner[SplitDomain(d).1], r.holder[d];
                 && (err.None? <==> owner != "" && if owner == id then holder == "" else user == owner)
                 && (err == Some(NotManaged) <==> owner == "")
                 && (err == Some(SubdomainUsed) <==> owner == id && owner != "" && holder != "")
                 && (err == Some(NotAllowed) <==> owner != "" && owner != id && user != owner))
  {
    hide ValidateDomain, WellFormed, SplitDomain, AddAll;
    if WellFormed(d) {
      ZoneIsWellFormed(d);
    }
  }

  /** Who may remove from a subdomain: its holder, and anybody where it has none or its zone has no owner. */
  lemma RemovalAnswers(id: string, s: Store, user: string, d: string, ips: seq<IP>)
    requires WellLaid(s)
    ensures var err := DnsSpec.AfterRemove(s, user, d, ips).1;
            var owner, holder := OwnerAt(s, SplitDomain(d).1), HolderAt(s, d);
            && (err == Some(InvalidDomain) <==> !ValidateDomain(d))
            && (ValidateDomain(d) ==>
                 if owner == "" || holder == "" || holder == user then err.None? else err == Some(NotAllowed))
  {
    hide WellLaid, ValidateDomain, WellFormed, SplitDomain, OwnerAt, HolderAt, RecordsAt, RecordSet, Minus;
    RemoveCommutes(s, user, d, ips);
    if ValidateDomain(d) {
      ZoneIsWellFormed(d);
      RowsOf(s);
    }
  }

  /** Who may delegate a zone, and remove its delegation: its owner, and anybody where it has none. */
  lemma DelegationAnswers(id: string, s: Store, gateway: string, user: string, z: string)
    requires WellLaid(s)
    ensures forall op | op == AddDelegate(gateway, user, z) || op == RemoveDelegate(user, z) ::
              var err := DnsSpec.After(id, s, op).1;
              if !ValidateDomain(z) then err == Some(InvalidDomain)
              else if OwnerAt(s, z) == "" || OwnerAt(s, z) == user then err.None?
              else err == Some(NotAllowed)
  {
    hide WellLaid, ValidateDomain, WellFormed, OwnerAt, HolderAt, RecordsAt, DnsSpec.After;
    AfterCommutes(id, s, AddDelegate(gateway, user, z));
    AfterCommutes(id, s, RemoveDelegate(user, z));
    RowsOf(s);
  }

  // ------------------------------------------------------------ addresses

  /**
   * After an addition the user holds the subdomain, and its records are the old ones and, for an hour,
   * an A record for every IPv4 address and an AAAA record for every IPv6 address; nothing else changes.
   */
  lemma AdditionExactly(id: string, s: Store, user: string, d: string, ips: seq<IP>)
    requires WellLaid(s) && AfterAdd(id, s, user, d, ips).1.None?
    ensures var t := AfterAdd(id, s, user, d, ips).0;
            && SameElsewhere(s, t, d)
            && ReadUser(t, d) == Ok(user) && ReadSlot(s, d).Ok? && ReadSlot(t, d).Ok?
            && forall ty, r ::
                 r in List(ReadSlot(t, d).value, ty) <==>
                 || r in List(ReadSlot(s, d).value, ty)
                 || (ty == "a" && r.A? && r.ttl == 3600 && V4(r.ip4) in ips)
                 || (ty == "aaaa" && r.AAAA? && r.ttl == 3600 && V6(r.ip6) in ips)
  {
    hide WellLaid, WellFormed, ValidateDomain, AfterAdd, Abs, ReadUser, ReadSlot, List, AddAll,
         R.RefuseAdd, DnsSpec.RefuseAdd, SameElsewhere;
    var op := AddSubdomain(user, d, ips);
    var t := AfterAdd(id, s, user, d, ips).0;
    AfterRows(id, s, op);
    R.AdditionRows(id, Abs(s), user, d, ips);
    RowsAreReads(s, d);
    RowsAreReads(t, d);
    SameRows(s, t, d);
    forall ty, r {
      AddedAddresses(ReadSlot(s, d).value, ips, ty, r);
    }
  }

  /** In a zone with an owner, a removal that is not refused takes just the records of its addresses. */
  lemma RemovalTakes(s: Store, user: string, d: string, ips: seq<IP>)
    requires WellLaid(s) && DnsSpec.AfterRemove(s, user, d, ips).1.None?
    requires OwnerAt(s, SplitDomain(d).1) != ""
    ensures var t := DnsSpec.AfterRemove(s, user, d, ips).0;
            forall ty, r ::
              r in List(RecordsAt(t, d), ty) <==>
              && r in List(RecordsAt(s, d), ty)
              && !(r.A? && r.ttl == 3600 && V4(r.ip4) in ips)
              && !(r.AAAA? && r.ttl == 3600 && V6(r.ip6) in ips)
  {
    hide *;
    RemovalExactly(s, user, d, ips);
    forall ty, r {
      RemovedAddresses(RecordsAt(s, d), ips, ty, r);
    }
  }

  // ------------------------------------------------------------ documents

  /** A slot's document publishes an address under a type: a list of objects, one of them with the address. */
  predicate Publishes(v: Value, ty: string, ip: string)
  {
    && v.Doc? && v.json.JObj? && ty in v.json.fields && v.json.fields[ty].JArr?
    && JObj(map["ip" := JStr(ip), "ttl" := JNum(3600)]) in v.json.fields[ty].items
  }

  lemma PublishedAddresses(rs: RecordMap, ip: string)
    requires WellFiled(rs)
    ensures Publishes(RecordsDoc(rs), "a", ip) <==> A(ip, 3600) in List(rs, "a")
    ensures Publishes(RecordsDoc(rs), "aaaa", ip) <==> AAAA(ip, 3600) in List(rs, "aaaa")
  {
    PublishedUnder(rs, "a", A(ip, 3600));
    PublishedUnder(rs, "aaaa", AAAA(ip, 3600));
    assert A(ip, 3600).Type() == "a" && AAAA(ip, 3600).Type() == "aaaa";
  }

  lemma PublishedUnder(rs: RecordMap, ty: string, r: Record)
    requires WellFiled(rs) && ty in KNOWN_TYPES && !r.Empty? && r.Type() == ty && (r.A? || r.AAAA?)
    ensures var items := EncodeList(List(rs, ty));
            EncodeRecord(r) in items <==> r in List(rs, ty)
    ensures ty in EncodeRecords(rs).fields <==> ty in rs
    ensures ty in rs ==> EncodeRecords(rs).fields[ty] == JArr(EncodeList(rs[ty]))
  {
    var l := List(rs, ty);
    var items := EncodeList(l);
    forall i | 0 <= i < |l| ensures items[i] == EncodeRecord(r) <==> l[i] == r {
      assert Filed(ty, l[i]);
      RecordRoundTripIff(ty, l[i]);
      RecordRoundTripIff(ty, r);
    }
    if r in l {
      var i :| 0 <= i < |l| && l[i] == r;
      assert items[i] == EncodeRecord(r);
    }
  }

  /**
   * What an addition writes: the user under the domain in the hash of reservations, and in the hash of
   * the zone, under the label, a document with each address under its type. In a slot that was empty
   * these are all its addresses.
   */
  lemma AdditionInRedis(id: string, s: Store, user: string, d: string, ips: seq<IP>)
    requires WellLaid(s) && AfterAdd(id, s, user, d, ips).1.None?
    ensures var t := AfterAdd(id, s, user, d, ips).0;
            var slot := HGet(t, SplitDomain(d).1 + ".", SplitDomain(d).0);
            && HGet(t, "managed_domains", d) == Got(Text(user))
            && slot.Got?
            && (forall ip :: V4(ip) in ips ==> Publishes(slot.value, "a", ip))
            && (forall ip :: V6(ip) in ips ==> Publishes(slot.value, "aaaa", ip))
            && (RecordsAt(s, d) == map[] ==>
                 && (forall ip :: Publishes(slot.value, "a", ip) ==> V4(ip) in ips)
                 && (forall ip :: Publishes(slot.value, "aaaa", ip) ==> V6(ip) in ips))
  {
    hide *;
    AdditionWrites(id, s, user, d, ips);
    FiledSlot(s, d);
    var rs := RecordsAt(s, d);
    forall ip
      ensures Publishes(RecordsDoc(AddAll(rs, ips)), "a", ip) <==> V4(ip) in ips || A(ip, 3600) in List(rs, "a")
      ensures Publishes(RecordsDoc(AddAll(rs, ips)), "aaaa", ip) <==>
              V6(ip) in ips || AAAA(ip, 3600) in List(rs, "aaaa")
    {
      PublishedAfter(rs, ips, ip);
    }
    NothingListed();
  }

  lemma NothingListed()
    ensures forall ty :: List(map[], ty) == []
  {}

  lemma PublishedAfter(rs: RecordMap, ips: seq<IP>, ip: string)
    requires WellFiled(rs) && NoEmptyList(rs)
    ensures Publishes(RecordsDoc(AddAll(rs, ips)), "a", ip) <==> V4(ip) in ips || A(ip, 3600) in List(rs, "a")
    ensures Publishes(RecordsDoc(AddAll(rs, ips)), "aaaa", ip) <==> V6(ip) in ips || AAAA(ip, 3600) in List(rs, "aaaa")
  {
    hide *;
    AddAllKeepsTyping(rs, ips);
    PublishedAddresses(AddAll(rs, ips), ip);
    AddedAddresses(rs, ips, "a", A(ip, 3600));
    AddedAddresses(rs, ips, "aaaa", AAAA(ip, 3600));
  }

  lemma FiledSlot(s: Store, d: string)
    requires WellLaid(s) && WellFormed(d)
    ensures WellFiled(RecordsAt(s, d)) && NoEmptyList(RecordsAt(s, d))
  {
    hide WellLaid, WellFormed, SplitDomain, ReadSlot, WellFiled, NoEmptyList;
    ReadsSucceed(s, d);
  }

  lemma AdditionWrites(id: string, s: Store, user: string, d: string, ips: seq<IP>)
    requires WellLaid(s) && AfterAdd(id, s, user, d, ips).1.None?
    ensures var t := AfterAdd(id, s, user, d, ips).0;
            && WellFormed(d)
            && HGet(t, "managed_domains", d) == Got(Text(user))
            && HGet(t, SplitDomain(d).1 + ".", SplitDomain(d).0) == Got(RecordsDoc(AddAll(RecordsAt(s, d), ips)))
  {
    hide WellFormed, ValidateDomain, WellLaid, SplitDomain, AddAll, RecordsDoc, RecordsKey, RefuseAdd, ReadSlot;
    var zone := SplitDomain(d).1;
    AdditionAnswers(id, s, user, d, ips);
    ZoneIsWellFormed(d);
    RecordsKeyOfZone(zone);
    RecordsKeyIsApart(zone);
    KindsFit(s);
    ReserveKeepsSlots(s, d, user, d);
    assert AfterAdd(id, s, user, d, ips).0 == Publish(Reserve(s, d, user), d, AddAll(RecordsAt(s, d), ips));
  }

  // ------------------------------------------------------------ names with a final dot

  /** The manager reads a zone the same under its name with and without the final dot. */
  lemma FinalDotIsIgnored(s: Store, z: string, name: string)
    requires WellFormed(z)
    ensures ReadOwner(s, z + ".") == ReadOwner(s, z) && ReadRecords(s, z + ".", name) == ReadRecords(s, z, name)
  {
    hide WellFormed, DecodeOwner, DecodeValue;
    RecordsKeyOfZone(z);
  }

  // ------------------------------------------------------------ the ownership record

  /** The ownership record reads back, field by field, as who runs the gateway and who owns the zone. */
  lemma OwnerRecordReads(gateway: string, owner: string)
    ensures var r := OwnerRecord(gateway, owner);
            && r.TXT? && r.ttl == 600
            && ReadObject(r.text) == Some(map["identity" := gateway, "owner" := owner])
  {
    hide Member, ReadObject;
    TwoFieldsRead("identity", gateway, "owner", owner);
    assert map["identity" := gateway] + map["owner" := owner] == map["identity" := gateway, "owner" := owner];
    assert "{" + Member("identity", gateway) + "," + Member("owner", owner) + "}" == OwnerText(gateway, owner);
  }

  /** What is read from the ownership slot after a delegation: one text record, for ten minutes, that says so. */
  lemma DelegationPublishes(id: string, s: Store, gateway: string, user: string, z: string)
    requires WellLaid(s) && DnsSpec.RefuseDelegate(s, user, z).None?
    ensures var (t, err) := DnsSpec.After(id, s, AddDelegate(gateway, user, z));
            var slot := ReadSlot(t, "__owner__." + z);
            && err.None? && slot.Ok?
            && exists text ::
                 && slot.value == map["txt" := [TXT(text, 600)]]
                 && ReadObject(text) == Some(map["identity" := gateway, "owner" := user])
  {
    hide WellLaid, DnsSpec.RefuseDelegate, DnsSpec.After, ReadSlot, ReadOwner, ReadObject, OwnerText;
    Delegated(id, s, gateway, user, z);
    OwnerRecordReads(gateway, user);
    assert DomainOf(OWNER_LABEL, z) == "__owner__." + z;
    TextAlone(OwnerText(gateway, user));
    assert OwnerRecord(gateway, user) == TXT(OwnerText(gateway, user), 600);
  }

  /** What a delegation writes: the owner's document under the zone, and the record's in the hash of the zone. */
  lemma DelegationInRedis(id: string, s: Store, gateway: string, user: string, z: string)
    requires WellLaid(s) && DnsSpec.RefuseDelegate(s, user, z).None?
    ensures var t := DnsSpec.After(id, s, AddDelegate(gateway, user, z)).0;
            && HGet(t, "zone", z) == Got(Doc(JObj(map["Owner" := JStr(user)])))
            && exists text ::
                 && HGet(t, z + ".", "__owner__")
                    == Got(Doc(JObj(map["txt" := JArr([JObj(map["text" := JStr(text), "ttl" := JNum(600)])])])))
                 && ReadObject(text) == Some(map["identity" := gateway, "owner" := user])
  {
    hide WellLaid, WellFormed, ValidateDomain, ReadOwner, OwnerText, ReadObject, RecordsKey;
    var text := OwnerText(gateway, user);
    KindsFit(s);
    RecordsKeyOfZone(z);
    RecordsKeyIsApart(z);
    OwnerRecordReads(gateway, user);
    OwnerDocument(text);
    TextAlone(text);
  }

  lemma TextAlone(text: string)
    ensures Add(map[], TXT(text, 600)) == map["txt" := [TXT(text, 600)]]
  {
    assert List(map[], "txt") + [TXT(text, 600)] == [TXT(text, 600)];
  }

  lemma OwnerDocument(text: string)
    ensures RecordsDoc(map["txt" := [TXT(text, 600)]])
            == Doc(JObj(map["txt" := JArr([JObj(map["text" := JStr(text), "ttl" := JNum(600)])])]))
  {
    var rs: RecordMap := map["txt" := [TXT(text, 600)]];
    assert EncodeList(rs["txt"]) == [EncodeRecord(TXT(text, 600))];
    assert EncodeRecords(rs).fields == map["txt" := JArr([EncodeRecord(TXT(text, 600))])];
  }
}
