/** What `Cleanup` does to the key space: blank fields of dotted hashes go. */
module Cleaning {
  import opened Json
  import opened Strings
  import opened Keyspace

  /** A value whose text is empty or `{}`. */
  predicate Blank(v: Value)
  {
    v == Text("") || v == Text("{}") || v == Doc(JObj(map[]))
  }

  /** A key that CoreDNS would take for a zone. */
  predicate ZoneLike(s: Store, key: string)
  {
    key in s && EndsWithDot(key) && s[key].Hash?
  }

  function Kept(fields: map<string, Value>): map<string, Value>
  {
    map f | f in fields && !Blank(fields[f]) :: fields[f]
  }

  function CleanStore(s: Store): Store
  {
    map k | k in s && !(ZoneLike(s, k) && Kept(Fields(s, k)) == map[]) ::
      if ZoneLike(s, k) then Hash(Kept(Fields(s, k))) else s[k]
  }

  /** `t` is `s` with some of the blank fields of its zone-like hashes gone, and nothing else. */
  ghost predicate PartlyCleaned(s: Store, t: Store)
  {
    && t.Keys <= s.Keys
    && (forall k :: k in s && !ZoneLike(s, k) ==> SameAt(s, t, k))
    && (forall k :: k in s && ZoneLike(s, k) ==> HashKey(t, k))
    && (forall k, f :: k in s && ZoneLike(s, k) && f in Fields(t, k) ==>
          f in Fields(s, k) && Fields(t, k)[f] == Fields(s, k)[f])
    && (forall k, f :: k in s && ZoneLike(s, k) && f in Fields(s, k) && f !in Fields(t, k) ==>
          Blank(Fields(s, k)[f]))
  }

  lemma CleanFields(s: Store, k: string)
    ensures Fields(CleanStore(s), k) == if ZoneLike(s, k) then Kept(Fields(s, k)) else Fields(s, k)
    ensures HashKey(CleanStore(s), k) || (k in s && !s[k].Hash?)
  {}

  /** A field goes exactly when its hash has a key with a final dot and its own text is empty or `{}`. */
  lemma CleanExactly(s: Store, k: string, f: string)
    requires f in Fields(s, k)
    ensures f !in Fields(CleanStore(s), k) <==>
            EndsWithDot(k) && Fields(s, k)[f] in [Text(""), Text("{}"), Doc(JObj(map[]))]
    ensures f in Fields(CleanStore(s), k) ==> Fields(CleanStore(s), k)[f] == Fields(s, k)[f]
  {
    CleanFields(s, k);
  }

  lemma CleanIsPartlyCleaned(s: Store)
    ensures PartlyCleaned(s, CleanStore(s))
  {
    forall k ensures Fields(CleanStore(s), k) == if ZoneLike(s, k) then Kept(Fields(s, k)) else Fields(s, k) {
      CleanFields(s, k);
    }
  }

  /** A second cleanup changes nothing. */
  lemma CleanIsIdempotent(s: Store)
    ensures CleanStore(CleanStore(s)) == CleanStore(s)
  {
    var t := CleanStore(s);
    forall k | k in t
      ensures k in CleanStore(t) && CleanStore(t)[k] == t[k]
    {
      CleanFields(s, k);
      if ZoneLike(t, k) {
        assert Kept(Fields(t, k)) == Fields(t, k);
      }
    }
  }

  /** Removing one more blank field. */
  lemma DropOneMore(s: Store, t: Store, k: string, f: string)
    requires PartlyCleaned(s, t) && ZoneLike(s, k)
    requires f in Fields(s, k) ==> Blank(Fields(s, k)[f])
    ensures PartlyCleaned(s, HDel(t, k, f))
  {
    hide HDel, Blank, Fields, EndsWithDot;
    var u := HDel(t, k, f);
    FieldGone(t, k, f);
    forall l | l in s && !ZoneLike(s, l) ensures SameAt(s, u, l) {
      assert SameAt(s, t, l) && SameAt(t, u, l);
    }
    forall l | l in s && ZoneLike(s, l) ensures HashKey(u, l) {
      assert l != k ==> SameAt(t, u, l) && HashKey(t, l);
    }
  }

  lemma FieldGone(t: Store, k: string, f: string)
    requires HashKey(t, k)
    ensures HDel(t, k, f).Keys <= t.Keys && HashKey(HDel(t, k, f), k)
    ensures forall l :: l != k ==> SameAt(t, HDel(t, k, f), l) && Fields(HDel(t, k, f), l) == Fields(t, l)
    ensures Fields(HDel(t, k, f), k) == Fields(t, k) - {f}
  {}

  /** A store cleaned of every blank field of every zone-like hash is the clean store. */
  lemma FullyCleaned(s: Store, t: Store)
    requires PartlyCleaned(s, t)
    requires forall k, f :: k in s && ZoneLike(s, k) && f in Fields(t, k) ==> !Blank(Fields(t, k)[f])
    ensures t == CleanStore(s)
  {
    var c := CleanStore(s);
    forall k | k in s && ZoneLike(s, k) ensures Fields(t, k) == Kept(Fields(s, k)) {
    }
    forall k ensures SameAt(c, t, k) {
      if k in s && ZoneLike(s, k) {
        CleanFields(s, k);
      }
    }
    assert c.Keys == t.Keys by {
      forall k ensures k in c <==> k in t { assert SameAt(c, t, k); }
    }
    forall k | k in c ensures c[k] == t[k] { assert SameAt(c, t, k); }
  }
}
