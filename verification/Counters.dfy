/** The workload counters of `counters.go`. */
module Counters {
  import opened Reservations

  const WORD := 0x1_0000_0000_0000_0000   // 64-bit counters wrap around
  const HALFWORD := 0x1_0000              // and are reported in 16 bits

  type uint64 = x: int | 0 <= x < WORD
  type uint16 = x: int | 0 <= x < HALFWORD

  datatype Tally = Tally(proxy: uint64, reverseProxy: uint64, subdomain: uint64, delegateDomain: uint64)
  {
    /** The counter of a kind of workload; other kinds have none. */
    function Of(kind: Kind): int
    {
      match kind
      case Proxy => proxy
      case ReverseProxy => reverseProxy
      case SubDomain => subdomain
      case DomainDelegate => delegateDomain
      case _ => 0
    }
  }

  datatype WorkloadAmount = WorkloadAmount(
    proxy: uint16,
    reverseProxy: uint16,
    subdomain: uint16,
    delegateDomain: uint16)

  predicate Counted(kind: Kind)
  {
    kind.Proxy? || kind.ReverseProxy? || kind.SubDomain? || kind.DomainDelegate?
  }

  /** `after` counts `n` more (or fewer, when negative) workloads of a kind than `before`. */
  ghost predicate Moved(before: Tally, after: Tally, kind: Kind, n: int)
  {
    forall k :: Counted(k) ==> after.Of(k) == if k == kind then (before.Of(k) + n) % WORD else before.Of(k)
  }

  class Counters {
    var proxy: uint64
    var reverseProxy: uint64
    var subdomain: uint64
    var delegateDomain: uint64

    constructor ()
      ensures Tallied() == Tally(0, 0, 0, 0)
    {
      proxy, reverseProxy, subdomain, delegateDomain := 0, 0, 0, 0;
    }

    function Tallied(): Tally
      reads this
    {
      Tally(proxy, reverseProxy, subdomain, delegateDomain)
    }

    method Increment(r: Reservation)
      modifies this
      ensures Moved(old(Tallied()), Tallied(), r.kind, 1)
    {
      match r.kind {
        case Proxy => proxy := (proxy + 1) % WORD;
        case ReverseProxy => reverseProxy := (reverseProxy + 1) % WORD;
        case SubDomain => subdomain := (subdomain + 1) % WORD;
        case DomainDelegate => delegateDomain := (delegateDomain + 1) % WORD;
        case _ =>
      }
    }

    method Decrement(r: Reservation)
      modifies this
      ensures Moved(old(Tallied()), Tallied(), r.kind, -1)
    {
      match r.kind {
        case Proxy => proxy := (proxy - 1) % WORD;
        case ReverseProxy => reverseProxy := (reverseProxy - 1) % WORD;
        case SubDomain => subdomain := (subdomain - 1) % WORD;
        case DomainDelegate => delegateDomain := (delegateDomain - 1) % WORD;
        case _ =>
      }
    }

    method CurrentWorkloads() returns (amount: WorkloadAmount)
      ensures amount == Narrow(Tallied())
    {
      amount := WorkloadAmount(
        proxy % HALFWORD, reverseProxy % HALFWORD, subdomain % HALFWORD, delegateDomain % HALFWORD);
    }
  }

  /** The counters as reported: the low 16 bits. */
  function Narrow(t: Tally): WorkloadAmount
  {
    WorkloadAmount(t.proxy % HALFWORD, t.reverseProxy % HALFWORD, t.subdomain % HALFWORD, t.delegateDomain % HALFWORD)
  }

  /** A count that wrapped in 64 bits has the same low 16 bits. */
  lemma LowBits(n: int)
    ensures n % WORD % HALFWORD == n % HALFWORD
  {
    var q := n / WORD;
    assert n == WORD * q + n % WORD;
    assert n == HALFWORD * (0x1_0000_0000_0000 * q) + n % WORD;
    ModOfMultiple(n % WORD, 0x1_0000_0000_0000 * q);
  }

  lemma ModOfMultiple(a: int, q: int)
    ensures (HALFWORD * q + a) % HALFWORD == a % HALFWORD
  {
    var b := a / HALFWORD;
    assert HALFWORD * q + a == HALFWORD * (q + b) + a % HALFWORD;
  }

  /** Counting a workload and taking it away again restores every counter, wrap-around included. */
  lemma IncrementThenDecrement(a: Tally, b: Tally, c: Tally, kind: Kind)
    requires Moved(a, b, kind, 1) && Moved(b, c, kind, -1)
    ensures c == a
  {
    BackAgain(a, b, c, kind, Proxy);
    BackAgain(a, b, c, kind, ReverseProxy);
    BackAgain(a, b, c, kind, SubDomain);
    BackAgain(a, b, c, kind, DomainDelegate);
  }

  lemma BackAgain(a: Tally, b: Tally, c: Tally, kind: Kind, k: Kind)
    requires Moved(a, b, kind, 1) && Moved(b, c, kind, -1) && Counted(k)
    ensures c.Of(k) == a.Of(k)
  {
    WrapBack(a.Of(k));
  }

  lemma WrapBack(n: int)
    requires 0 <= n < WORD
    ensures ((n + 1) % WORD - 1) % WORD == n
  {}
}
