/** DNS records and the record container, as values: what `dns_zone.go` computes. */
module Records {
  import opened Json

  datatype Record =
    | Empty   // the nil interface that an unknown type tag decodes to
    | A(ip4: string, ttl: Int64)
    | AAAA(ip6: string, ttl: Int64)
    | CNAME(host: string, ttl: Int64)
    | TXT(text: string, ttl: Int64)
  {
    function Type(): string
      requires !Empty?
    {
      match this
      case A(_, _) => "a"
      case AAAA(_, _) => "aaaa"
      case CNAME(_, _) => "cname"
      case TXT(_, _) => "txt"
    }
  }

  const KNOWN_TYPES: set<string> := {"a", "aaaa", "cname", "txt"}

  type RecordMap = map<string, seq<Record>>

  /** The list filed under a type, empty when there is none. */
  function List(rs: RecordMap, t: string): seq<Record>
  {
    if t in rs then rs[t] else []
  }

  /** Puts a list under a type; the type goes when the list is empty. */
  function PutList(rs: RecordMap, t: string, l: seq<Record>): RecordMap
  {
    if l == [] then rs - {t} else rs[t := l]
  }

  function Add(rs: RecordMap, r: Record): RecordMap
    requires !r.Empty?
  {
    rs[r.Type() := List(rs, r.Type()) + [r]]
  }

  /** `s` without the records of `gone`, in order. */
  function Without(s: seq<Record>, gone: set<Record>): seq<Record>
  {
    if s == [] then []
    else Without(s[..|s| - 1], gone) + (if s[|s| - 1] in gone then [] else [s[|s| - 1]])
  }

  function Remove(rs: RecordMap, r: Record): RecordMap
    requires !r.Empty?
  {
    if r.Type() in rs then PutList(rs, r.Type(), Without(rs[r.Type()], {r})) else rs
  }

  predicate IsEmpty(rs: RecordMap)
  {
    forall t :: t in rs ==> rs[t] == []
  }

  /** Every record is filed under its own type; unknown types hold only nil records. */
  predicate WellFiled(rs: RecordMap)
  {
    forall t, i :: t in rs && 0 <= i < |rs[t]| ==> Filed(t, rs[t][i])
  }

  predicate Filed(t: string, r: Record)
  {
    if t in KNOWN_TYPES then !r.Empty? && r.Type() == t else r.Empty?
  }

  predicate NoEmptyList(rs: RecordMap)
  {
    forall t :: t in rs ==> rs[t] != []
  }

  function DropEmpty(rs: RecordMap): RecordMap
  {
    map t | t in rs && rs[t] != [] :: rs[t]
  }

  // ------------------------------------------------------------ addresses

  /** A `net.IP`, by its family and its canonical text. */
  datatype IP = V4(addr: string) | V6(addr: string)

  function RecordFromIP(ip: IP): (r: Record)
    ensures !r.Empty?
  {
    match ip
    case V4(addr) => A(addr, 3600)
    case V6(addr) => AAAA(addr, 3600)
  }

  function RecordSet(ips: seq<IP>): set<Record>
  {
    set i | 0 <= i < |ips| :: RecordFromIP(ips[i])
  }

  function AddAll(rs: RecordMap, ips: seq<IP>): RecordMap
  {
    if ips == [] then rs
    else Add(AddAll(rs, ips[..|ips| - 1]), RecordFromIP(ips[|ips| - 1]))
  }

  function RemoveAll(rs: RecordMap, ips: seq<IP>): RecordMap
  {
    if ips == [] then rs
    else Remove(RemoveAll(rs, ips[..|ips| - 1]), RecordFromIP(ips[|ips| - 1]))
  }

  /** The records of `ips` that have type `t`, in order. */
  function OfType(ips: seq<IP>, t: string): seq<Record>
  {
    if ips == [] then []
    else
      var r := RecordFromIP(ips[|ips| - 1]);
      OfType(ips[..|ips| - 1], t) + (if r.Type() == t then [r] else [])
  }

  /** The container without the records of `gone`, and without the types that leaves empty. */
  function Minus(rs: RecordMap, gone: set<Record>): RecordMap
  {
    map t | t in rs && Without(rs[t], gone) != [] :: Without(rs[t], gone)
  }

  // ------------------------------------------------------------ laws of Add and Remove

  lemma {:induction false} WithoutMembers(s: seq<Record>, gone: set<Record>)
    ensures forall r :: r in Without(s, gone) <==> r in s && r !in gone
    ensures |Without(s, gone)| <= |s|
    ensures (forall r :: r in s ==> r !in gone) <==> Without(s, gone) == s
  {
    if s != [] {
      var front, last := s[..|s| - 1], s[|s| - 1];
      WithoutMembers(front, gone);
      assert s == front + [last];
      if last in gone {
        assert |Without(s, gone)| < |s|;
      }
    }
  }

  lemma {:induction false} WithoutTwice(s: seq<Record>, a: set<Record>, b: set<Record>)
    ensures Without(Without(s, a), b) == Without(s, a + b)
  {
    if s != [] {
      var front, last := s[..|s| - 1], s[|s| - 1];
      WithoutTwice(front, a, b);
      if last !in a {
        assert (Without(front, a) + [last])[..|Without(front, a)|] == Without(front, a);
      } else {
        assert Without(front, a) + [] == Without(front, a);
      }
    }
  }

  /** The filter distributes over concatenation. */
  lemma {:induction false} WithoutConcat(s: seq<Record>, t: seq<Record>, gone: set<Record>)
    ensures Without(s + t, gone) == Without(s, gone) + Without(t, gone)
  {
    if t == [] {
      assert s + t == s;
    } else {
      WithoutConcat(s, t[..|t| - 1], gone);
      assert (s + t)[..|s + t| - 1] == s + t[..|t| - 1];
    }
  }

  /** Removing what was just added leaves nothing of it behind: `Remove` drops every equal record. */
  lemma RemoveAfterAdd(rs: RecordMap, r: Record)
    requires !r.Empty?
    ensures r.Type() in rs ==> Remove(Add(rs, r), r) == Remove(rs, r)
    ensures r.Type() !in rs ==> Remove(Add(rs, r), r) == rs
    ensures r !in List(Remove(rs, r), r.Type())
  {
    var l := List(rs, r.Type());
    WithoutConcat(l, [r], {r});
    EmptyWhenAllGone([r], {r});
    WithoutMembers(l, {r});
    assert Add(rs, r) - {r.Type()} == rs - {r.Type()};
    assert Without(l + [r], {r}) == Without(l, {r});
    if r.Type() in rs {
      assert PutList(Add(rs, r), r.Type(), Without(l, {r})) == PutList(rs, r.Type(), Without(l, {r}));
    } else {
      assert rs - {r.Type()} == rs;
    }
  }

  /** `Remove` changes nothing exactly when the record is absent and its list is not an empty one. */
  lemma RemoveIsIdentityIff(rs: RecordMap, r: Record)
    requires !r.Empty?
    ensures Remove(rs, r) == rs <==>
            r.Type() !in rs || (rs[r.Type()] != [] && r !in rs[r.Type()])
  {
    if r.Type() in rs {
      WithoutMembers(rs[r.Type()], {r});
      if Remove(rs, r) == rs {
        assert r.Type() in Remove(rs, r);
      }
    }
  }

  lemma {:induction false} AddAllLists(rs: RecordMap, ips: seq<IP>, t: string)
    ensures List(AddAll(rs, ips), t) == List(rs, t) + OfType(ips, t)
    ensures t in AddAll(rs, ips) <==> t in rs || OfType(ips, t) != []
  {
    if ips != [] {
      AddAllLists(rs, ips[..|ips| - 1], t);
    }
  }

  lemma {:induction false} OfTypeMembers(ips: seq<IP>, t: string)
    ensures forall r :: r in OfType(ips, t) <==> r in RecordSet(ips) && r.Type() == t
  {
    if ips != [] {
      var front, last := ips[..|ips| - 1], ips[|ips| - 1];
      OfTypeMembers(front, t);
      RecordSetSnoc(ips);
    }
  }

  lemma RecordSetSnoc(ips: seq<IP>)
    requires ips != []
    ensures RecordSet(ips) == RecordSet(ips[..|ips| - 1]) + {RecordFromIP(ips[|ips| - 1])}
  {
    var front, last := ips[..|ips| - 1], ips[|ips| - 1];
    forall r | r in RecordSet(ips) ensures r in RecordSet(front) + {RecordFromIP(last)} {
      var i :| 0 <= i < |ips| && r == RecordFromIP(ips[i]);
      if i < |front| {
        assert r == RecordFromIP(front[i]);
      }
    }
    forall r | r in RecordSet(front) ensures r in RecordSet(ips) {
      var i :| 0 <= i < |front| && r == RecordFromIP(front[i]);
      assert r == RecordFromIP(ips[i]);
    }
    assert RecordFromIP(ips[|ips| - 1]) in RecordSet(ips);
  }

  /** Adding and removing keep every record under its own type, and no list empty. */
  lemma AddKeepsTyping(rs: RecordMap, r: Record)
    requires !r.Empty? && WellFiled(rs) && NoEmptyList(rs)
    ensures WellFiled(Add(rs, r)) && NoEmptyList(Add(rs, r)) && !IsEmpty(Add(rs, r))
  {
    assert r.Type() in KNOWN_TYPES;
    assert Add(rs, r)[r.Type()] != [];
  }

  lemma RemoveKeepsTyping(rs: RecordMap, r: Record)
    requires !r.Empty? && WellFiled(rs) && NoEmptyList(rs)
    ensures WellFiled(Remove(rs, r)) && NoEmptyList(Remove(rs, r))
  {
    if r.Type() in rs {
      var l := rs[r.Type()];
      WithoutMembers(l, {r});
      var m := Without(l, {r});
      forall i | 0 <= i < |m| ensures Filed(r.Type(), m[i]) {
        assert m[i] in l;
      }
    }
  }

  lemma {:induction false} AddAllKeepsTyping(rs: RecordMap, ips: seq<IP>)
    requires WellFiled(rs) && NoEmptyList(rs)
    ensures WellFiled(AddAll(rs, ips)) && NoEmptyList(AddAll(rs, ips))
    ensures ips != [] ==> !IsEmpty(AddAll(rs, ips))
  {
    if ips != [] {
      AddAllKeepsTyping(rs, ips[..|ips| - 1]);
      AddKeepsTyping(AddAll(rs, ips[..|ips| - 1]), RecordFromIP(ips[|ips| - 1]));
    }
  }

  /**
   * Removing addresses one by one takes away exactly the set they form: order and repetition
   * of the addresses do not matter.
   */
  lemma {:induction false} RemoveAllIsMinus(rs: RecordMap, ips: seq<IP>)
    requires WellFiled(rs) && NoEmptyList(rs)
    ensures RemoveAll(rs, ips) == Minus(rs, RecordSet(ips))
    ensures WellFiled(RemoveAll(rs, ips)) && NoEmptyList(RemoveAll(rs, ips))
  {
    if ips == [] {
      assert RecordSet(ips) == {};
      forall t | t in rs ensures Without(rs[t], {}) == rs[t] {
        WithoutMembers(rs[t], {});
      }
    } else {
      var front, r := ips[..|ips| - 1], RecordFromIP(ips[|ips| - 1]);
      RemoveAllIsMinus(rs, front);
      RecordSetSnoc(ips);
      RemoveKeepsTyping(RemoveAll(rs, front), r);
      MinusThenRemove(rs, RecordSet(front), r);
    }
  }

  lemma MinusThenRemove(rs: RecordMap, gone: set<Record>, r: Record)
    requires !r.Empty? && WellFiled(rs)
    ensures Remove(Minus(rs, gone), r) == Minus(rs, gone + {r})
  {
    var x, y := Remove(Minus(rs, gone), r), Minus(rs, gone + {r});
    forall t ensures t in x <==> t in y
             ensures t in x && t in y ==> x[t] == y[t]
    {
      if t in rs {
        MinusThenRemoveAt(rs, gone, r, t);
      }
    }
  }

  lemma MinusThenRemoveAt(rs: RecordMap, gone: set<Record>, r: Record, t: string)
    requires !r.Empty? && WellFiled(rs) && t in rs
    ensures t == r.Type() ==> Without(Without(rs[t], gone), {r}) == Without(rs[t], gone + {r})
    ensures t != r.Type() ==> Without(rs[t], gone) == Without(rs[t], gone + {r})
    ensures Without(rs[t], gone) == [] ==> Without(rs[t], gone + {r}) == []
  {
    WithoutTwice(rs[t], gone, {r});
    WithoutMembers(Without(rs[t], gone), {r});
    if t != r.Type() {
      WithoutMembers(rs[t], gone);
      forall i | 0 <= i < |rs[t]| ensures rs[t][i] != r {
        assert Filed(t, rs[t][i]);
      }
    }
  }

  lemma MinusFromNothing(gone: set<Record>)
    ensures Minus(map[], gone) == map[]
  {}

  lemma {:induction false} EmptyWhenAllGone(s: seq<Record>, gone: set<Record>)
    requires forall r :: r in s ==> r in gone
    ensures Without(s, gone) == []
  {
    if s != [] {
      EmptyWhenAllGone(s[..|s| - 1], gone);
      assert s[|s| - 1] in s;
    }
  }

  /** Whatever is added to an empty container is gone again once its addresses are removed, and only then. */
  lemma RemoveAllAfterAddAll(ips: seq<IP>, gone: seq<IP>)
    ensures IsEmpty(RemoveAll(AddAll(map[], ips), gone)) <==> RecordSet(ips) <= RecordSet(gone)
  {
    var rs := AddAll(map[], ips);
    AddAllKeepsTyping(map[], ips);
    RemoveAllIsMinus(rs, gone);
    forall t ensures rs.Keys <= {t} + rs.Keys && List(rs, t) == OfType(ips, t) {
      AddAllLists(map[], ips, t);
    }
    if RecordSet(ips) <= RecordSet(gone) {
      forall t | t in rs ensures Without(rs[t], RecordSet(gone)) == [] {
        OfTypeMembers(ips, t);
        WithoutMembers(rs[t], RecordSet(gone));
        EmptyWhenAllGone(rs[t], RecordSet(gone));
      }
    } else {
      var r :| r in RecordSet(ips) && r !in RecordSet(gone);
      OfTypeMembers(ips, r.Type());
      assert r in List(rs, r.Type());
      WithoutMembers(rs[r.Type()], RecordSet(gone));
      assert r.Type() in Minus(rs, RecordSet(gone));
    }
  }

  // ------------------------------------------------------------ which record an address becomes

  /** An IPv4 address is an A record and an IPv6 address an AAAA record, both for an hour. */
  lemma SetOfAddresses(ips: seq<IP>, r: Record)
    ensures r in RecordSet(ips) <==>
            match r
            case A(addr, ttl) => ttl == 3600 && V4(addr) in ips
            case AAAA(addr, ttl) => ttl == 3600 && V6(addr) in ips
            case _ => false
  {
    forall i | 0 <= i < |ips| ensures RecordFromIP(ips[i]) in RecordSet(ips) {}
  }

  /** Adding addresses adds just these records, each under its own type, and no others. */
  lemma AddedAddresses(rs: RecordMap, ips: seq<IP>, t: string, r: Record)
    ensures r in List(AddAll(rs, ips), t) <==>
            || r in List(rs, t)
            || (t == "a" && r.A? && r.ttl == 3600 && V4(r.ip4) in ips)
            || (t == "aaaa" && r.AAAA? && r.ttl == 3600 && V6(r.ip6) in ips)
  {
    AddAllLists(rs, ips, t);
    OfTypeMembers(ips, t);
    SetOfAddresses(ips, r);
    assert r in OfType(ips, t) <==> r in RecordSet(ips) && r.Type() == t;
  }

  /** Removing addresses takes just these records. */
  lemma RemovedAddresses(rs: RecordMap, ips: seq<IP>, t: string, r: Record)
    ensures r in List(Minus(rs, RecordSet(ips)), t) <==>
            && r in List(rs, t)
            && !(r.A? && r.ttl == 3600 && V4(r.ip4) in ips)
            && !(r.AAAA? && r.ttl == 3600 && V6(r.ip6) in ips)
  {
    SetOfAddresses(ips, r);
    if t in rs {
      WithoutMembers(rs[t], RecordSet(ips));
    }
  }

  // ------------------------------------------------------------ text records

  /** The container holds a text record. */
  predicate HasText(rs: RecordMap)
  {
    exists r :: r in List(rs, "txt") && r.TXT?
  }

  /** Adding and removing addresses leave text records where they are. */
  lemma AddressesKeepText(rs: RecordMap, ips: seq<IP>)
    requires HasText(rs)
    ensures HasText(AddAll(rs, ips)) && HasText(Minus(rs, RecordSet(ips)))
  {
    var r :| r in List(rs, "txt") && r.TXT?;
    AddAllLists(rs, ips, "txt");
    assert r in List(AddAll(rs, ips), "txt");
    WithoutMembers(rs["txt"], RecordSet(ips));
    assert r in List(Minus(rs, RecordSet(ips)), "txt");
  }
}
