/** The JSON form of a record container: an object from type tag to a list of records. */
module RecordCodec {
  import opened Json
  import opened Records

  // ------------------------------------------------------------ encoding

  function EncodeRecord(r: Record): Json
  {
    match r
    case Empty => JNull
    case A(ip, ttl) => JObj(map["ip" := JStr(ip), "ttl" := JNum(ttl)])
    case AAAA(ip, ttl) => JObj(map["ip" := JStr(ip), "ttl" := JNum(ttl)])
    case CNAME(host, ttl) => JObj(map["host" := JStr(host), "ttl" := JNum(ttl)])
    case TXT(text, ttl) => JObj(map["text" := JStr(text), "ttl" := JNum(ttl)])
  }

  function EncodeList(l: seq<Record>): seq<Json>
  {
    seq(|l|, i requires 0 <= i < |l| => EncodeRecord(l[i]))
  }

  function EncodeRecords(rs: RecordMap): Json
  {
    JObj(map t | t in rs :: JArr(EncodeList(rs[t])))
  }

  // ------------------------------------------------------------ decoding

  /** The two fields every record has: one text named by its type, and the time to live. */
  function DecodeFields(j: Json, key: string): Option<(string, Int64)>
  {
    match j
    case JNull => Some(("", 0))
    case JObj(m) =>
      (match (StrField(m, key), IntField(m, "ttl"))
       case (Some(s), Some(n)) => Some((s, n))
       case _ => None)
    case _ => None
  }

  function DecodeRecord(t: string, j: Json): Option<Record>
  {
    if t == "a" then (match DecodeFields(j, "ip") case Some((s, n)) => Some(A(s, n)) case None => None)
    else if t == "aaaa" then (match DecodeFields(j, "ip") case Some((s, n)) => Some(AAAA(s, n)) case None => None)
    else if t == "cname" then (match DecodeFields(j, "host") case Some((s, n)) => Some(CNAME(s, n)) case None => None)
    else if t == "txt" then (match DecodeFields(j, "text") case Some((s, n)) => Some(TXT(s, n)) case None => None)
    else Some(Empty)
  }

  function DecodeList(t: string, items: seq<Json>): Option<seq<Record>>
  {
    if items == [] then Some([])
    else
      match (DecodeList(t, items[..|items| - 1]), DecodeRecord(t, items[|items| - 1]))
      case (Some(l), Some(r)) => Some(l + [r])
      case _ => None
  }

  /** The elements of a JSON value decoded as a Go slice; `null` is the nil slice. */
  function Elements(j: Json): Option<seq<Json>>
  {
    match j
    case JNull => Some([])
    case JArr(items) => Some(items)
    case _ => None
  }

  function DecodeEntry(t: string, j: Json): Option<seq<Record>>
  {
    match Elements(j)
    case Some(items) => DecodeList(t, items)
    case None => None
  }

  predicate Decodable(m: map<string, Json>)
  {
    forall t :: t in m ==> DecodeEntry(t, m[t]).Some?
  }

  /** What decoding into an empty container yields, or `None` for a decoding error. */
  function DecodeRecords(j: Json): Option<RecordMap>
  {
    match j
    case JNull => Some(map[])
    case JObj(m) =>
      if Decodable(m)
      then Some(map t | t in m && DecodeEntry(t, m[t]).value != [] :: DecodeEntry(t, m[t]).value)
      else None
    case _ => None
  }

  // ------------------------------------------------------------ laws

  /** A record survives the round trip under the tag `t` exactly when it is filed there properly. */
  lemma RecordRoundTripIff(t: string, r: Record)
    ensures DecodeRecord(t, EncodeRecord(r)) == Some(r) <==> Filed(t, r)
  {
    if Filed(t, r) && !r.Empty? {
      assert t == r.Type();
    }
  }

  lemma {:induction false} ListRoundTrip(t: string, l: seq<Record>)
    ensures DecodeList(t, EncodeList(l)) == Some(l) <==> forall i :: 0 <= i < |l| ==> Filed(t, l[i])
  {
    if l != [] {
      var front, last := l[..|l| - 1], l[|l| - 1];
      ListRoundTrip(t, front);
      RecordRoundTripIff(t, last);
      assert EncodeList(l)[..|l| - 1] == EncodeList(front);
      assert l == front + [last];
    }
  }

  lemma EntryRoundTrip(rs: RecordMap, t: string)
    requires t in rs
    ensures t in EncodeRecords(rs).fields
    ensures DecodeEntry(t, EncodeRecords(rs).fields[t]) == Some(rs[t]) <==>
            forall i :: 0 <= i < |rs[t]| ==> Filed(t, rs[t][i])
  {
    ListRoundTrip(t, rs[t]);
  }

  /** Decoding an encoded container gives it back without its empty lists exactly when it is well filed. */
  lemma RoundTripIff(rs: RecordMap)
    ensures DecodeRecords(EncodeRecords(rs)) == Some(DropEmpty(rs)) <==> WellFiled(rs)
  {
    if WellFiled(rs) {
      WellFiledRoundTrip(rs);
    } else {
      var t, i :| t in rs && 0 <= i < |rs[t]| && !Filed(t, rs[t][i]);
      MisfiledIsLost(rs, t, i);
    }
  }

  lemma WellFiledRoundTrip(rs: RecordMap)
    requires WellFiled(rs)
    ensures DecodeRecords(EncodeRecords(rs)) == Some(DropEmpty(rs))
  {
    var m := EncodeRecords(rs).fields;
    assert m.Keys == rs.Keys;
    forall t | t in rs ensures DecodeEntry(t, m[t]) == Some(rs[t]) {
      EntryRoundTrip(rs, t);
    }
    DecodeEntries(m, rs);
  }

  lemma DecodeEntries(m: map<string, Json>, rs: RecordMap)
    requires m.Keys == rs.Keys
    requires forall t :: t in rs ==> DecodeEntry(t, m[t]) == Some(rs[t])
    ensures DecodeRecords(JObj(m)) == Some(DropEmpty(rs))
  {
    assert Decodable(m);
    var out := DecodeRecords(JObj(m)).value;
    assert out == DropEmpty(rs);
  }

  lemma MisfiledIsLost(rs: RecordMap, t: string, i: nat)
    requires t in rs && i < |rs[t]| && !Filed(t, rs[t][i])
    ensures DecodeRecords(EncodeRecords(rs)) != Some(DropEmpty(rs))
  {
    var m := EncodeRecords(rs).fields;
    EntryRoundTrip(rs, t);
    assert rs[t] != [];
    if Decodable(m) {
      var out := DecodeRecords(EncodeRecords(rs)).value;
      assert t in DropEmpty(rs) && DropEmpty(rs)[t] == rs[t];
      assert t in out ==> out[t] == DecodeEntry(t, m[t]).value;
    }
  }

  /** With no empty list the round trip is the identity. */
  lemma RoundTrip(rs: RecordMap)
    requires WellFiled(rs) && NoEmptyList(rs)
    ensures DecodeRecords(EncodeRecords(rs)) == Some(rs)
  {
    RoundTripIff(rs);
    assert DropEmpty(rs) == rs;
  }

  /** Whatever decodes is well filed and has no empty list. */
  lemma DecodedIsWellFiled(j: Json)
    requires DecodeRecords(j).Some?
    ensures WellFiled(DecodeRecords(j).value) && NoEmptyList(DecodeRecords(j).value)
  {
    if j.JObj? {
      forall t | t in j.fields
        ensures forall i :: 0 <= i < |DecodeEntry(t, j.fields[t]).value| ==>
                              Filed(t, DecodeEntry(t, j.fields[t]).value[i])
      {
        ListIsFiled(t, Elements(j.fields[t]).value);
      }
    }
  }

  lemma {:induction false} ListIsFiled(t: string, items: seq<Json>)
    requires DecodeList(t, items).Some?
    ensures forall i :: 0 <= i < |DecodeList(t, items).value| ==> Filed(t, DecodeList(t, items).value[i])
  {
    if items != [] {
      ListIsFiled(t, items[..|items| - 1]);
    }
  }

  // ------------------------------------------------------------ documents of other writers

  /** Missing and null fields, null records and null lists decode to what Go's zero values are. */
  lemma ZeroValues(t: string)
    ensures forall j | j == JNull || j == JObj(map[]) || j == JObj(map["ttl" := JNull]) ::
              DecodeRecord(t, j) == Some(if t == "a" then A("", 0) else if t == "aaaa" then AAAA("", 0)
                                         else if t == "cname" then CNAME("", 0) else if t == "txt" then TXT("", 0)
                                         else Empty)
    ensures DecodeEntry(t, JNull) == Some([])
    ensures DecodeRecords(JNull) == Some(map[]) && DecodeRecords(JObj(map[t := JNull])) == Some(map[])
  {
    assert forall u :: u in map[t := JNull] ==> DecodeEntry(u, map[t := JNull][u]) == Some([]);
  }

  /** The fields a record is read from, type by type. */
  lemma FieldsRead(text: string, ttl: Int64)
    ensures var ip := JObj(map["ip" := JStr(text), "ttl" := JNum(ttl)]);
            DecodeRecord("a", ip) == Some(A(text, ttl)) && DecodeRecord("aaaa", ip) == Some(AAAA(text, ttl))
    ensures DecodeRecord("cname", JObj(map["host" := JStr(text), "ttl" := JNum(ttl)])) == Some(CNAME(text, ttl))
    ensures DecodeRecord("txt", JObj(map["text" := JStr(text), "ttl" := JNum(ttl)])) == Some(TXT(text, ttl))
  {}

  /** A container decodes exactly when each of its types has a list, or null, of records that all decode. */
  lemma DecodesExactly(m: map<string, Json>)
    ensures DecodeRecords(JObj(m)).Some? <==>
            forall t :: t in m ==>
              || m[t].JNull?
              || (m[t].JArr? && forall i :: 0 <= i < |m[t].items| ==> DecodeRecord(t, m[t].items[i]).Some?)
  {
    forall t | t in m && m[t].JArr?
      ensures DecodeEntry(t, m[t]).Some? <==>
              forall i :: 0 <= i < |m[t].items| ==> DecodeRecord(t, m[t].items[i]).Some?
    {
      ListDecodesExactly(t, m[t].items);
    }
  }

  lemma {:induction false} ListDecodesExactly(t: string, items: seq<Json>)
    ensures DecodeList(t, items).Some? <==> forall i :: 0 <= i < |items| ==> DecodeRecord(t, items[i]).Some?
  {
    hide DecodeRecord;
    if items != [] {
      var front := items[..|items| - 1];
      ListDecodesExactly(t, front);
      assert forall i :: 0 <= i < |front| ==> front[i] == items[i];
    }
  }
}
