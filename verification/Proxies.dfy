/** The TCP proxy manager of `proxy/tcp_router.go`: one redis string per domain. */
module Proxies {
  import opened Json
  import opened Keyspace
  import opened Layout
  import Base64
  import Redis

  /** What the TCP router reads for a domain. */
  datatype Service = Service(addr: string, secret: string, tlsPort: int, httpPort: int, user: string)

  /** The JSON text of a service, as Go's encoder and decoder make it. */
  datatype Codec = Codec(marshal: Service -> seq<Base64.byte>, unmarshal: seq<Base64.byte> -> Option<Service>)
  {
    ghost predicate Faithful()
    {
      forall s :: unmarshal(marshal(s)) == Some(s)
    }
  }

  datatype ProxyOp =
    | AddProxy(user: string, domain: string, addr: string, port: int, portTLS: int)
    | RemoveProxy(user: string, domain: string)
    | AddReverseProxy(user: string, domain: string, secret: string)
    | RemoveReverseProxy(user: string, domain: string)

  function Key(domain: string): string
  {
    PROXY_PREFIX + domain
  }

  // ------------------------------------------------------------ the stored form

  /** `valkyrieEncode`: the key, and the JSON of the value in base 64. */
  function ValkyrieEncode(codec: Codec, key: string, s: Service): Value
  {
    Doc(JObj(map["Key" := JStr(key), "Value" := JStr(Base64.Encode(codec.marshal(s)))]))
  }

  function ValkyrieDecode(codec: Codec, v: Value): Option<Service>
  {
    match v
    case Doc(JNull) => Unwrap(codec, "")
    case Doc(JObj(m)) =>
      (match (StrField(m, "Key"), StrField(m, "Value"))
       case (Some(_), Some(text)) => Unwrap(codec, text)
       case _ => None)
    case _ => None
  }

  function Unwrap(codec: Codec, text: string): Option<Service>
  {
    match Base64.Decode(text)
    case Some(bytes) => codec.unmarshal(bytes)
    case None => None
  }

  /** Decoding an encoded service gives it back, for every key and service. */
  lemma ValkyrieRoundTrip(codec: Codec, key: string, s: Service)
    requires codec.Faithful()
    ensures ValkyrieDecode(codec, ValkyrieEncode(codec, key, s)) == Some(s)
  {
    hide Base64.Encode, Base64.Decode;
    Base64.RoundTrip(codec.marshal(s));
  }

  // ------------------------------------------------------------ whole operations

  /** The entry an operation writes, or `None` when it deletes the key. */
  function Written(codec: Codec, op: ProxyOp): Option<Value>
  {
    match op
    case AddProxy(user, domain, addr, port, portTLS) =>
      Some(ValkyrieEncode(codec, Key(domain), Service(addr, "", portTLS, port, user)))
    case AddReverseProxy(user, domain, secret) =>
      Some(ValkyrieEncode(codec, Key(domain), Service("", secret, 0, 0, user)))
    case _ => None
  }

  /** Whether a user may change a domain's service: it is free, or the user's own. */
  function CanUse(codec: Codec, s: Store, user: string, domain: string): Result<bool, Error>
  {
    match Get(s, Key(domain))
    case Nil => Ok(true)
    case Got(v) =>
      (match ValkyrieDecode(codec, v)
       case Some(service) => Ok(service.user == user)
       case None => Err(Malformed))
    case _ => Err(KindMismatch)
  }

  function Write(codec: Codec, s: Store, op: ProxyOp): Store
  {
    match Written(codec, op)
    case Some(v) => Set(s, Key(op.domain), v)
    case None => Del(s, Key(op.domain))
  }

  /** The store and the error that an operation ends with when no command fails. */
  function After(codec: Codec, s: Store, op: ProxyOp): (Store, Option<Error>)
  {
    match CanUse(codec, s, op.user, op.domain)
    case Ok(true) => (Write(codec, s, op), None)
    case Ok(false) => (s, Some(NotAllowed))
    case Err(e) => (s, Some(e))
  }

  /** Every store an operation can leave, whichever command fails. */
  ghost predicate Visits(codec: Codec, s: Store, op: ProxyOp, t: Store)
  {
    t == s || (CanUse(codec, s, op.user, op.domain) == Ok(true) && t == Write(codec, s, op))
  }

  // ------------------------------------------------------------ ownership

  /** The service of a domain belongs to a user: what is stored decodes to one of theirs. */
  ghost predicate BelongsTo(codec: Codec, s: Store, domain: string, user: string)
  {
    && Key(domain) in s && s[Key(domain)].Bytes?
    && ValkyrieDecode(codec, s[Key(domain)].value).Some?
    && ValkyrieDecode(codec, s[Key(domain)].value).value.user == user
  }

  lemma KeysAreApart(d: string, e: string)
    ensures Key(d) == Key(e) <==> d == e
  {
    assert Key(d)[|PROXY_PREFIX|..] == d;
    assert Key(e)[|PROXY_PREFIX|..] == e;
  }

  /** Other users' operations leave a service as it is; its owner's may change it but not its owner. */
  lemma ServiceKept(codec: Codec, s: Store, op: ProxyOp, t: Store, domain: string, user: string)
    requires Visits(codec, s, op, t) && BelongsTo(codec, s, domain, user)
    requires op.domain != domain || op.user != user
    ensures SameAt(s, t, Key(domain)) && BelongsTo(codec, t, domain, user)
  {
    KeysAreApart(op.domain, domain);
  }

  /** An allowed addition hands the domain to its user. */
  lemma AdditionOwns(codec: Codec, s: Store, op: ProxyOp)
    requires codec.Faithful() && (op.AddProxy? || op.AddReverseProxy?)
    requires CanUse(codec, s, op.user, op.domain) == Ok(true)
    ensures BelongsTo(codec, After(codec, s, op).0, op.domain, op.user)
    ensures forall u :: CanUse(codec, After(codec, s, op).0, u, op.domain) == Ok(u == op.user)
  {
    match op
    case AddProxy(user, domain, addr, port, portTLS) =>
      ValkyrieRoundTrip(codec, Key(domain), Service(addr, "", portTLS, port, user));
    case AddReverseProxy(user, domain, secret) =>
      ValkyrieRoundTrip(codec, Key(domain), Service("", secret, 0, 0, user));
  }

  /** The service that is stored for a domain, as the TCP router reads it. */
  function StoredService(codec: Codec, s: Store, domain: string): Option<Service>
  {
    match Get(s, "/tcprouter/service/" + domain)
    case Got(v) => ValkyrieDecode(codec, v)
    case _ => None
  }

  /** An allowed addition stores the service asked for, field by field. */
  lemma AdditionStores(codec: Codec, s: Store, op: ProxyOp)
    requires codec.Faithful() && (op.AddProxy? || op.AddReverseProxy?)
    requires CanUse(codec, s, op.user, op.domain) == Ok(true)
    ensures var stored := StoredService(codec, After(codec, s, op).0, op.domain);
            && stored.Some?
            && stored.value.user == op.user
            && (op.AddProxy? ==>
                 && stored.value.addr == op.addr && stored.value.secret == ""
                 && stored.value.httpPort == op.port && stored.value.tlsPort == op.portTLS)
            && (op.AddReverseProxy? ==>
                 && stored.value.secret == op.secret && stored.value.addr == ""
                 && stored.value.httpPort == 0 && stored.value.tlsPort == 0)
  {
    AdditionOwns(codec, s, op);
    match op
    case AddProxy(user, domain, addr, port, portTLS) =>
      ValkyrieRoundTrip(codec, Key(domain), Service(addr, "", portTLS, port, user));
    case AddReverseProxy(user, domain, secret) =>
      ValkyrieRoundTrip(codec, Key(domain), Service("", secret, 0, 0, user));
  }

  /** The document itself has two fields: the key it is stored under, and the service in base 64. */
  lemma StoredDocument(codec: Codec, s: Store, op: ProxyOp)
    requires codec.Faithful() && (op.AddProxy? || op.AddReverseProxy?)
    requires CanUse(codec, s, op.user, op.domain) == Ok(true)
    ensures var key := "/tcprouter/service/" + op.domain;
            var t := After(codec, s, op).0;
            exists text, bytes ::
              && Get(t, key) == Got(Doc(JObj(map["Key" := JStr(key), "Value" := JStr(text)])))
              && Base64.Decode(text) == Some(bytes)
              && codec.unmarshal(bytes) == StoredService(codec, t, op.domain)
  {
    var service := match op
      case AddProxy(user, domain, addr, port, portTLS) => Service(addr, "", portTLS, port, user)
      case AddReverseProxy(user, domain, secret) => Service("", secret, 0, 0, user);
    var bytes := codec.marshal(service);
    hide Base64.Encode, Base64.Decode;
    Base64.RoundTrip(bytes);
    ValkyrieRoundTrip(codec, Key(op.domain), service);
    var text := Base64.Encode(bytes);
    assert Base64.Decode(text) == Some(bytes);
  }

  /** Exactly who may change a domain's service: anybody where nothing is stored, else the user of what is stored. */
  lemma AllowedExactly(codec: Codec, s: Store, op: ProxyOp)
    ensures var key := "/tcprouter/service/" + op.domain;
            var (t, err) := After(codec, s, op);
            var stored := StoredService(codec, s, op.domain);
            && (err.None? <==> key !in s || (stored.Some? && stored.value.user == op.user))
            && (err == Some(NotAllowed) <==> stored.Some? && stored.value.user != op.user)
            && (err.Some? ==> t == s)
  {
    hide ValkyrieDecode;
  }

  /** An allowed removal leaves nothing under the key, and everything else. */
  lemma RemovalFrees(codec: Codec, s: Store, op: ProxyOp)
    requires (op.RemoveProxy? || op.RemoveReverseProxy?) && After(codec, s, op).1.None?
    ensures "/tcprouter/service/" + op.domain !in After(codec, s, op).0
    ensures forall k :: k != "/tcprouter/service/" + op.domain ==> SameAt(s, After(codec, s, op).0, k)
  {
    hide ValkyrieDecode;
  }

  /** A user who adds a service to a free domain and removes it leaves the store as it was. */
  lemma AddThenRemove(codec: Codec, s: Store, add: ProxyOp, remove: ProxyOp)
    requires codec.Faithful() && (add.AddProxy? || add.AddReverseProxy?)
    requires (remove.RemoveProxy? || remove.RemoveReverseProxy?) && remove.domain == add.domain
    requires Key(add.domain) !in s
    ensures After(codec, s, add).1.None?
    ensures After(codec, After(codec, s, add).0, remove) ==
            if remove.user == add.user then (s, None) else (After(codec, s, add).0, Some(NotAllowed))
  {
    AdditionOwns(codec, s, add);
    assert Del(After(codec, s, add).0, Key(add.domain)) == s;
  }

  /** Operations on different domains commute, errors included. */
  lemma DistinctDomainsCommute(codec: Codec, s: Store, a: ProxyOp, b: ProxyOp)
    requires a.domain != b.domain
    ensures After(codec, After(codec, s, a).0, b).0 == After(codec, After(codec, s, b).0, a).0
    ensures After(codec, After(codec, s, a).0, b).1 == After(codec, s, b).1
    ensures After(codec, After(codec, s, b).0, a).1 == After(codec, s, a).1
  {
    hide Write, CanUse;
    KeysAreApart(a.domain, b.domain);
    OtherKeyUnchanged(codec, s, a, b);
    OtherKeyUnchanged(codec, s, b, a);
    WritesCommute(codec, s, a, b);
  }

  lemma OtherKeyUnchanged(codec: Codec, s: Store, a: ProxyOp, b: ProxyOp)
    requires a.domain != b.domain
    ensures CanUse(codec, Write(codec, s, a), b.user, b.domain) == CanUse(codec, s, b.user, b.domain)
  {
    hide Written, ValkyrieDecode;
    KeysAreApart(a.domain, b.domain);
  }

  lemma WritesCommute(codec: Codec, s: Store, a: ProxyOp, b: ProxyOp)
    requires Key(a.domain) != Key(b.domain)
    ensures Write(codec, Write(codec, s, a), b) == Write(codec, Write(codec, s, b), a)
  {
    hide Written, Key;
    var x, y := Write(codec, Write(codec, s, a), b), Write(codec, Write(codec, s, b), a);
    forall k ensures k in x <==> k in y
             ensures k in x && k in y ==> x[k] == y[k]
    {}
  }

  // ------------------------------------------------------------ the manager

  class Mgr {
    const redis: Redis.Server
    const codec: Codec

    constructor (redis: Redis.Server, codec: Codec)
      ensures this.redis == redis && this.codec == codec
    {
      this.redis := redis;
      this.codec := codec;
    }

    method CanUseDomain(user: string, domain: string) returns (r: Result<bool, Error>)
      modifies redis`trace, redis`faults
      ensures redis.trace == old(redis.trace) + [redis.store]
      ensures if r == Err(RedisDown) then redis.faults == old(redis.faults) + 1
              else redis.faults == old(redis.faults) && r == CanUse(codec, redis.store, user, domain)
    {
      var reply := redis.Get(Key(domain));
      match reply {
        case Down => return Err(RedisDown);
        case WrongKind => return Err(KindMismatch);
        case Nil => return Ok(true);
        case Got(data) =>
          var service := ValkyrieDecode(codec, data);
          if service.None? {
            return Err(Malformed);
          }
          return Ok(service.value.user == user);
      }
    }

    method AddProxy(user: string, domain: string, addr: string, port: int, portTLS: int)
      returns (err: Option<Error>)
      modifies redis
      ensures Ran(codec, ProxyOp.AddProxy(user, domain, addr, port, portTLS), old(redis.store), redis.store, err,
                  old(redis.trace), redis.trace, redis.faults == old(redis.faults))
    {
      var can := CanUseDomain(user, domain);
      if can.Err? {
        return Some(can.error);
      }
      if !can.value {
        return Some(NotAllowed);
      }
      var service := Service(addr, "", portTLS, port, user);
      err := redis.Set(Key(domain), ValkyrieEncode(codec, Key(domain), service));
    }

    method RemoveProxy(user: string, domain: string) returns (err: Option<Error>)
      modifies redis
      ensures Ran(codec, ProxyOp.RemoveProxy(user, domain), old(redis.store), redis.store, err,
                  old(redis.trace), redis.trace, redis.faults == old(redis.faults))
    {
      var can := CanUseDomain(user, domain);
      if can.Err? {
        return Some(can.error);
      }
      if !can.value {
        return Some(NotAllowed);
      }
      err := redis.Del(Key(domain));
    }

    method AddReverseProxy(user: string, domain: string, secret: string) returns (err: Option<Error>)
      modifies redis
      ensures Ran(codec, ProxyOp.AddReverseProxy(user, domain, secret), old(redis.store), redis.store, err,
                  old(redis.trace), redis.trace, redis.faults == old(redis.faults))
    {
      var can := CanUseDomain(user, domain);
      if can.Err? {
        return Some(can.error);
      }
      if !can.value {
        return Some(NotAllowed);
      }
      var service := Service("", secret, 0, 0, user);
      err := redis.Set(Key(domain), ValkyrieEncode(codec, Key(domain), service));
    }

    method RemoveReverseProxy(user: string, domain: string) returns (err: Option<Error>)
      modifies redis
      ensures Ran(codec, ProxyOp.RemoveReverseProxy(user, domain), old(redis.store), redis.store, err,
                  old(redis.trace), redis.trace, redis.faults == old(redis.faults))
    {
      var can := CanUseDomain(user, domain);
      if can.Err? {
        return Some(can.error);
      }
      if !can.value {
        return Some(NotAllowed);
      }
      err := redis.Del(Key(domain));
    }
  }

  /**
   * How an operation may end: without a fault, or with success, in the fault-free outcome; with an
   * error in the store it began with; and after every command in a store it may visit.
   */
  ghost predicate Ran(codec: Codec, op: ProxyOp, s: Store, t: Store, err: Option<Error>,
                      before: seq<Store>, after: seq<Store>, noFault: bool)
  {
    && (err.None? || noFault ==> (t, err) == After(codec, s, op))
    && (err.Some? ==> t == s)
    && before <= after
    && forall i :: |before| <= i < |after| ==> Visits(codec, s, op, after[i])
  }
}
