/** Printed identities of reservations and users, and the check that binds a secret to its user. */
module Identities {
  import opened Json
  import opened Strings

  /** The id printed for a workload: "%d-%d". */
  function PrintedID(id: int, workload: int): string
  {
    Itoa(id) + "-" + Itoa(workload)
  }

  /** The id of a reservation: an old workload keeps the reference it already has. */
  function ReservationID(id: int, workload: int, reference: string): string
  {
    if reference != "" then reference else PrintedID(id, workload)
  }

  /** The user of a reservation: "%d". */
  function PrintedUser(tid: int): string
  {
    Itoa(tid)
  }

  datatype Refusal = NoDomain | NoSecret | WrongFormat

  /** The check on a reverse proxy: a domain, and a secret that starts with the user and a colon. */
  function Validate(domain: string, secret: string, user: string): Option<Refusal>
  {
    if domain == "" then Some(NoDomain)
    else if secret == "" then Some(NoSecret)
    else if !HasPrefix(secret, user + ":") then Some(WrongFormat)
    else None
  }

  /** After its first character a printed integer has only digits. */
  lemma PrintedShape(n: int)
    ensures Itoa(n) != ""
    ensures forall i :: 1 <= i < |Itoa(n)| ==> '0' <= Itoa(n)[i] <= '9'
    ensures forall i :: 0 <= i < |Itoa(n)| ==> Itoa(n)[i] != ':'
  {
    hide Digits;
    if n < 0 {
      assert forall i :: 1 <= i < |Itoa(n)| ==> Itoa(n)[i] == Digits(-n)[i - 1];
    }
  }

  /** The dash between two printed integers is found again, whatever their signs. */
  lemma DashIsFound(m: int, rest: string, n: int, more: string)
    requires Itoa(m) + "-" + rest == Itoa(n) + "-" + more
    ensures Itoa(m) == Itoa(n) && rest == more
  {
    hide Itoa;
    PrintedShape(m);
    PrintedShape(n);
    var s, a, b := Itoa(m) + "-" + rest, |Itoa(m)|, |Itoa(n)|;
    assert s[a] == '-' && s[b] == '-';
    forall i | 1 <= i < b ensures s[i] != '-' { assert s[i] == Itoa(n)[i]; }
    forall i | 1 <= i < a ensures s[i] != '-' { assert s[i] == Itoa(m)[i]; }
    assert s[..a] == Itoa(m) && s[..b] == Itoa(n);
    assert s[a + 1..] == rest && s[b + 1..] == more;
  }

  /** Different pairs of integers, negative ones included, print to different ids. */
  lemma PrintedIDInjective(id: int, workload: int, id': int, workload': int)
    requires PrintedID(id, workload) == PrintedID(id', workload')
    ensures id == id' && workload == workload'
  {
    hide Itoa;
    DashIsFound(id, Itoa(workload), id', Itoa(workload'));
    ItoaInjective(id, id');
    ItoaInjective(workload, workload');
  }

  /** Reads a decimal integer, with a dash in front of a negative one. */
  function ReadInt(s: string): Option<int>
  {
    if s != "" && AllDigits(s) then Some(Number(s))
    else if |s| > 1 && s[0] == '-' && AllDigits(s[1..]) then Some(0 - Number(s[1..]))
    else None
  }

  predicate AllDigits(s: string)
  {
    forall i :: 0 <= i < |s| ==> '0' <= s[i] <= '9'
  }

  /** A printed id reads back as two integers at every dash that leaves two, and at just one: workload after id. */
  lemma PrintedIDReads(id: int, workload: int)
    ensures var s := PrintedID(id, workload);
            && (exists k :: 0 <= k < |s| && ReadsAt(s, k, id, workload))
            && forall k, m, n :: 0 <= k < |s| && ReadsAt(s, k, m, n) ==> m == id && n == workload
  {
    var s, k := PrintedID(id, workload), |Itoa(id)|;
    ReadPrinted(id);
    ReadPrinted(workload);
    PrintedShape(id);
    assert s[..k] == Itoa(id) && s[k + 1..] == Itoa(workload);
    assert ReadsAt(s, k, id, workload);
    forall j, m, n | 0 <= j < |s| && ReadsAt(s, j, m, n) ensures m == id && n == workload {
      DashIsWhereItIs(id, workload, j, m, n);
    }
  }

  /** A dash at `k`, an integer before it and one after it. */
  predicate ReadsAt(s: string, k: nat, m: int, n: int)
    requires k < |s|
  {
    s[k] == '-' && ReadInt(s[..k]) == Some(m) && ReadInt(s[k + 1..]) == Some(n)
  }

  lemma DashIsWhereItIs(id: int, workload: int, j: nat, m: int, n: int)
    requires j < |PrintedID(id, workload)| && ReadsAt(PrintedID(id, workload), j, m, n)
    ensures m == id && n == workload
  {
    hide Itoa;
    var s, k := PrintedID(id, workload), |Itoa(id)|;
    PrintedShape(id);
    PrintedShape(workload);
    assert s[k] == '-' && s[..k] == Itoa(id) && s[k + 1..] == Itoa(workload);
    ReadPrinted(id);
    ReadPrinted(workload);
  }

  lemma ReadPrinted(n: int)
    ensures ReadInt(Itoa(n)) == Some(n)
  {
    if n < 0 {
      NumberOfDigits(-n);
      assert Itoa(n)[1..] == Digits(-n);
    } else {
      NumberOfDigits(n);
    }
  }

  lemma PrintedUserReads(tid: int)
    ensures ReadInt(PrintedUser(tid)) == Some(tid)
  {
    ReadPrinted(tid);
  }

  /**
   * Two workloads get one reservation id exactly when both have the same reference, or neither has
   * one and they are the same workload, or the reference of one is the id printed for the other.
   */
  lemma SharedIDIff(id: int, workload: int, reference: string, id': int, workload': int, reference': string)
    ensures ReservationID(id, workload, reference) == ReservationID(id', workload', reference') <==>
            if reference == "" && reference' == "" then id == id' && workload == workload'
            else if reference == "" then reference' == PrintedID(id, workload)
            else if reference' == "" then reference == PrintedID(id', workload')
            else reference == reference'
  {
    if PrintedID(id, workload) == PrintedID(id', workload') {
      PrintedIDInjective(id, workload, id', workload');
    }
  }

  /** What passes: a domain, and a secret made of the user, a colon and any text. What is missing first is reported. */
  lemma ValidateExactly(domain: string, secret: string, user: string)
    ensures Validate(domain, secret, user).None? <==> domain != "" && exists rest :: secret == user + ":" + rest
    ensures Validate(domain, secret, user) == Some(NoDomain) <==> domain == ""
    ensures Validate(domain, secret, user) == Some(NoSecret) <==> domain != "" && secret == ""
  {
    if user + ":" <= secret {
      assert secret == user + ":" + secret[|user| + 1..];
    }
  }

  /** No secret passes for two users: the text before its first colon names the only one. */
  lemma SecretNamesOneUser(domain: string, domain': string, secret: string, tid: int, tid': int)
    requires Validate(domain, secret, PrintedUser(tid)).None?
    requires Validate(domain', secret, PrintedUser(tid')).None?
    ensures tid == tid'
  {
    hide Itoa;
    var u, v := PrintedUser(tid), PrintedUser(tid');
    PrintedShape(tid);
    PrintedShape(tid');
    assert secret[|u|] == ':' && secret[|v|] == ':';
    assert secret[..|u|] == u && secret[..|v|] == v;
    forall i | 0 <= i < |v| ensures secret[i] != ':' { assert secret[i] == v[i]; }
    forall i | 0 <= i < |u| ensures secret[i] != ':' { assert secret[i] == u[i]; }
    ItoaInjective(tid, tid');
  }
}
