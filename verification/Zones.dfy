/** The record container of `dns_zone.go` as it works: an object changed in place. */
module Zones {
  import opened Json
  import opened Records
  import opened RecordCodec

  class Zone {
    var records: RecordMap

    constructor ()
      ensures records == map[]
    {
      records := map[];
    }

    method Add(r: Record)
      requires !r.Empty?
      modifies this
      ensures records == Records.Add(old(records), r)
    {
      records := records[r.Type() := List(records, r.Type()) + [r]];
    }

    /** Drops every record equal to `r`: the list is rewritten in its own buffer. */
    method Remove(r: Record)
      requires !r.Empty?
      modifies this
      ensures records == Records.Remove(old(records), r)
    {
      if r.Type() !in records {
        return;
      }
      var list := records[r.Type()];
      var buffer := new Record[|list|](i requires 0 <= i < |list| => list[i]);
      assert buffer[..] == list;
      var n := Compact(buffer, r);
      if n == 0 {
        records := records - {r.Type()};
      } else {
        records := records[r.Type() := buffer[..n]];
      }
    }

    method IsEmpty() returns (empty: bool)
      ensures empty == Records.IsEmpty(records)
    {
      var rest := records.Keys;
      while rest != {}
        invariant rest <= records.Keys
        invariant forall t :: t in records && t !in rest ==> records[t] == []
        decreases |rest|
      {
        var t :| t in rest;
        if |records[t]| > 0 {
          return false;
        }
        rest := rest - {t};
      }
      return true;
    }

    /**
     * Decodes a JSON document into the container, visiting its types in any order.
     * It fails exactly when the document does not decode, and what a successful run leaves
     * does not depend on the order.
     */
    method UnmarshalJSON(j: Json) returns (ok: bool)
      modifies this
      ensures ok <==> DecodeRecords(j).Some?
      ensures ok ==> records == Merge(old(records), DecodeRecords(j).value)
    {
      var m: map<string, Json>;
      match j {
        case JNull => m := map[];
        case JObj(fields) => m := fields;
        case _ => return false;
      }
      ok := AppendTypes(m);
      if ok {
        VisitedAll(old(records), m, j);
      }
    }

    /** The loop over the document's types, in any order. */
    method AppendTypes(m: map<string, Json>) returns (ok: bool)
      modifies this
      ensures ok <==> Decodable(m)
      ensures ok ==> records == Visited(old(records), m, m.Keys)
    {
      ghost var was := records;
      var rest := m.Keys;
      VisitedNone(was, m);
      while rest != {}
        invariant rest <= m.Keys
        invariant forall t :: t in m && t !in rest ==> DecodeEntry(t, m[t]).Some?
        invariant records == Visited(was, m, m.Keys - rest)
        decreases |rest|
      {
        var t :| t in rest;
        var items := Elements(m[t]);
        if items.None? {
          return false;
        }
        var done := AppendDecoded(t, items.value);
        if !done {
          return false;
        }
        VisitOneMore(was, m, m.Keys - rest, t);
        assert m.Keys - rest + {t} == m.Keys - (rest - {t});
        rest := rest - {t};
      }
      assert m.Keys - rest == m.Keys;
      return true;
    }

    /** The inner loop of the decoder: one type's records, in order. */
    method AppendDecoded(t: string, items: seq<Json>) returns (ok: bool)
      modifies this
      ensures ok <==> DecodeList(t, items).Some?
      ensures ok ==> records == PutMore(old(records), t, DecodeList(t, items).value)
    {
      for i := 0 to |items|
        invariant DecodeList(t, items[..i]).Some?
        invariant records == PutMore(old(records), t, DecodeList(t, items[..i]).value)
      {
        assert items[..i + 1][..i] == items[..i];
        var r := DecodeRecord(t, items[i]);
        if r.None? {
          NoPrefixNoList(t, items, i + 1);
          return false;
        }
        ghost var soFar := DecodeList(t, items[..i]).value;
        PutOneMore(old(records), t, soFar, r.value);
        records := records[t := List(records, t) + [r.value]];
        assert DecodeList(t, items[..i + 1]) == Some(soFar + [r.value]);
      }
      assert items[..|items|] == items;
      return true;
    }
  }

  /** The slice loop of `Remove`: a read index ahead of the write index, both in one buffer. */
  method Compact(buffer: array<Record>, r: Record) returns (n: nat)
    modifies buffer
    ensures n <= buffer.Length
    ensures buffer[..n] == Without(old(buffer[..]), {r})
  {
    ghost var was := buffer[..];
    n := 0;
    for i := 0 to buffer.Length
      invariant n <= i
      invariant buffer[..n] == Without(was[..i], {r})
      invariant forall k :: i <= k < buffer.Length ==> buffer[k] == was[k]
    {
      assert was[..i + 1][..i] == was[..i];
      if buffer[i] != r {
        buffer[n] := buffer[i];
        n := n + 1;
      }
    }
    assert was[..buffer.Length] == was;
  }

  // ------------------------------------------------------------ the decoder's partial results

  /** The container with more records at the end of one list; no list appears for no records. */
  ghost function PutMore(rs: RecordMap, t: string, l: seq<Record>): RecordMap
  {
    if l == [] then rs else rs[t := List(rs, t) + l]
  }

  /** Two containers, list by list. */
  ghost function Merge(rs: RecordMap, more: RecordMap): RecordMap
  {
    map t | t in rs.Keys + more.Keys :: List(rs, t) + List(more, t)
  }

  ghost function Decoded(m: map<string, Json>, t: string): seq<Record>
  {
    if t in m && DecodeEntry(t, m[t]).Some? then DecodeEntry(t, m[t]).value else []
  }

  /** The container once the types in `seen` have been visited. */
  ghost function Visited(rs: RecordMap, m: map<string, Json>, seen: set<string>): RecordMap
  {
    map t | t in rs.Keys + seen && (t in rs || Decoded(m, t) != []) ::
      List(rs, t) + (if t in seen then Decoded(m, t) else [])
  }

  lemma PutOneMore(rs: RecordMap, t: string, l: seq<Record>, r: Record)
    ensures var sofar := PutMore(rs, t, l);
            sofar[t := List(sofar, t) + [r]] == PutMore(rs, t, l + [r])
  {
    assert List(rs, t) + l + [r] == List(rs, t) + (l + [r]);
    assert l == [] ==> List(rs, t) + [r] == List(rs, t) + (l + [r]);
  }

  lemma VisitOneMore(rs: RecordMap, m: map<string, Json>, seen: set<string>, t: string)
    requires t !in seen
    ensures PutMore(Visited(rs, m, seen), t, Decoded(m, t)) == Visited(rs, m, seen + {t})
  {
    hide Decoded;
    assert List(Visited(rs, m, seen), t) == List(rs, t);
  }

  lemma VisitedNone(rs: RecordMap, m: map<string, Json>)
    ensures Visited(rs, m, m.Keys - m.Keys) == rs
  {
    assert forall t :: t in rs ==> List(rs, t) + [] == rs[t];
  }

  lemma DecodedLists(m: map<string, Json>, t: string)
    requires Decodable(m)
    ensures List(DecodeRecords(JObj(m)).value, t) == Decoded(m, t)
    ensures t in DecodeRecords(JObj(m)).value <==> Decoded(m, t) != []
  {}

  lemma VisitedAll(rs: RecordMap, m: map<string, Json>, j: Json)
    requires j == JObj(m) || (j.JNull? && m == map[])
    requires Decodable(m)
    ensures Visited(rs, m, m.Keys) == Merge(rs, DecodeRecords(j).value)
  {
    assert DecodeRecords(j) == DecodeRecords(JObj(m));
    var v, a := Visited(rs, m, m.Keys), Merge(rs, DecodeRecords(j).value);
    forall t ensures t in v <==> t in a
             ensures t in v && t in a ==> v[t] == a[t]
    {
      DecodedLists(m, t);
    }
  }

  lemma MergeIntoNothing(rs: RecordMap)
    ensures Merge(map[], rs) == rs
  {
    assert forall t :: t in rs ==> List(map[], t) + List(rs, t) == rs[t];
  }

  lemma {:induction false} NoPrefixNoList(t: string, items: seq<Json>, i: nat)
    requires i <= |items| && DecodeList(t, items[..i]).None?
    ensures DecodeList(t, items).None?
    decreases |items| - i
  {
    if i == |items| {
      assert items[..i] == items;
    } else {
      assert items[..i + 1][..i] == items[..i];
      NoPrefixNoList(t, items, i + 1);
    }
  }
}
