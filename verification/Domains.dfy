/** Domain names: validation, and the split of a domain into its slot (label, zone). */
module Domains {
  import opened Strings

  predicate DnsChar(c: char)
  {
    'a' <= c <= 'z' || 'A' <= c <= 'Z' || '0' <= c <= '9' || c == '_' || c == '-'
  }

  /** What `SplitDomain` can find before a dot: one DNS character or more. */
  predicate IsLabel(name: string)
  {
    name != "" && forall i :: 0 <= i < |name| ==> DnsChar(name[i])
  }

  // ------------------------------------------------------------ validation

  /** `net.ParseIP` accepts the text. An IPv6 text has a colon, so no name check lets it come this far. */
  predicate IsIP(s: string)
  {
    var parts := Split(s);
    |parts| == 4 && forall i :: 0 <= i < 4 ==> IsOctet(parts[i])
  }

  predicate IsOctet(s: string)
  {
    s != "" && (forall i :: 0 <= i < |s| ==> '0' <= s[i] <= '9') && Number(s) <= 255
  }

  predicate DNSLabel(l: string)
  {
    IsLabel(l) && l[0] != '-' && |l| <= 63
  }

  predicate DNSLabels(labels: seq<string>)
  {
    forall i :: 0 <= i < |labels| ==> DNSLabel(labels[i])
  }

  /** The expression of `govalidator.IsDNSName`: labels between dots, then one more dot or underscore, or none. */
  predicate MatchesDNSName(s: string)
  {
    DNSLabels(Split(s)) || (s != "" && (s[|s| - 1] == '.' || s[|s| - 1] == '_') && DNSLabels(Split(s[..|s| - 1])))
  }

  /** `govalidator.IsDNSName`. */
  predicate IsDNSName(s: string)
  {
    s != "" && |s| - CountDots(s) <= 255 && !IsIP(s) && MatchesDNSName(s)
  }

  /** The shape of a domain, which validation guarantees and a zone inherits: two labels or more. */
  predicate WellFormed(d: string)
  {
    var labels := Split(d);
    |labels| >= 2 && forall i :: 0 <= i < |labels| ==> IsLabel(labels[i])
  }

  predicate ValidateDomain(domain: string): (valid: bool)
    ensures valid ==> WellFormed(domain)
  {
    && IsDNSName(domain)
    && |domain| != 0
    && CountDots(domain) >= 1
    && domain[|domain| - 1] != '.'
    && !HasDoubleDot(domain)
    && (LabelsOfMatch(domain); true)
  }

  /** A label the name check accepts; the last one may have an underscore more. */
  predicate LabelFits(l: string, last: bool)
  {
    IsLabel(l) && l[0] != '-' && (|l| <= 63 || (last && |l| == 64 && l[63] == '_'))
  }

  predicate LabelsFit(labels: seq<string>)
  {
    forall i :: 0 <= i < |labels| ==> LabelFits(labels[i], i == |labels| - 1)
  }

  /** Without a final dot, the expression says that every label fits. */
  lemma LabelsOfMatch(d: string)
    requires d != "" && d[|d| - 1] != '.'
    ensures MatchesDNSName(d) <==> LabelsFit(Split(d))
    ensures MatchesDNSName(d) && CountDots(d) >= 1 ==> WellFormed(d)
  {
    hide *;
    var front, c := d[..|d| - 1], d[|d| - 1];
    LastCharacterOf(d);
    MatchEitherWay(d);
    SplitLength(d);
    FittingLabels(d);
    if c == '_' {
      UnderscoreMore(Split(front), Split(d));
    } else {
      LastCharacter(Split(front), Split(d), c);
    }
  }

  lemma LastCharacterOf(d: string)
    requires d != "" && d[|d| - 1] != '.'
    ensures var short := Split(d[..|d| - 1]);
            var n := |short| - 1;
            n >= 0 && Split(d) == short[..n] + [short[n] + [d[|d| - 1]]]
  {
    hide Split;
    SplitSnoc(d[..|d| - 1], d[|d| - 1]);
    assert d == d[..|d| - 1] + [d[|d| - 1]];
  }

  lemma MatchEitherWay(d: string)
    requires d != "" && d[|d| - 1] != '.'
    ensures MatchesDNSName(d) <==> DNSLabels(Split(d)) || (d[|d| - 1] == '_' && DNSLabels(Split(d[..|d| - 1])))
  {
    hide DNSLabels, Split;
  }

  lemma FittingLabels(d: string)
    ensures |Split(d)| >= 2 && LabelsFit(Split(d)) ==> WellFormed(d)
  {
    hide IsLabel;
  }

  lemma UnderscoreMore(short: seq<string>, labels: seq<string>)
    requires var n := |short| - 1; n >= 0 && labels == short[..n] + [short[n] + "_"]
    ensures DNSLabels(labels) || DNSLabels(short) <==> LabelsFit(labels)
  {
    var n := |short| - 1;
    var l, m := short[n], labels[n];
    assert m[|l|] == '_' && m[..|l|] == l;
    LastWithUnderscore(l, m);
    assert forall i :: 0 <= i < n ==> labels[i] == short[i];
    hide DNSLabel, LabelFits;
    FitInTheMiddle(labels);
    if DNSLabels(short) {
      assert forall i :: 0 <= i < n ==> DNSLabel(short[i]);
    }
    if LabelsFit(labels) {
      assert forall i :: 0 <= i < n ==> LabelFits(labels[i], false);
    }
  }

  lemma FitInTheMiddle(labels: seq<string>)
    ensures forall i :: 0 <= i < |labels| ==> (LabelFits(labels[i], false) <==> DNSLabel(labels[i]))
  {}

  lemma LastWithUnderscore(l: string, m: string)
    requires m == l + "_"
    ensures DNSLabel(m) || DNSLabel(l) <==> LabelFits(m, true)
  {
    assert forall i :: 0 <= i < |l| ==> m[i] == l[i];
    assert m[|l|] == '_';
  }

  lemma LastCharacter(short: seq<string>, labels: seq<string>, c: char)
    requires var n := |short| - 1; n >= 0 && labels == short[..n] + [short[n] + [c]]
    requires c != '_'
    ensures DNSLabels(labels) <==> LabelsFit(labels)
  {
    var n := |short| - 1;
    assert labels[n][|short[n]|] == c;
  }

  /** Validation, label by label. */
  lemma ValidExactly(d: string)
    ensures ValidateDomain(d) <==>
            |Split(d)| >= 2 && LabelsFit(Split(d)) && |d| - CountDots(d) <= 255 && !IsIP(d)
  {
    SplitLength(d);
    LastLabel(d);
    if d != "" && d[|d| - 1] != '.' {
      LabelsOfMatch(d);
      if LabelsFit(Split(d)) {
        NoEmptyLabelNoDoubleDot(d);
      }
    }
  }

  /** The zone of a validated domain passes validation too, unless it is an IP address. */
  lemma ZoneIsValidIff(d: string)
    requires ValidateDomain(d)
    ensures ValidateDomain(SplitDomain(d).1) <==> !IsIP(SplitDomain(d).1)
  {
    var zone := SplitDomain(d).1;
    SplitRebuilds(d);
    ValidExactly(d);
    ValidExactly(zone);
    SplitLength(d);
    SplitLength(zone);
    if |Split(d)| >= 3 {
      assert forall i :: 0 <= i < |Split(zone)| ==> Split(zone)[i] == Split(d)[i + 1];
    }
  }

  /** Such zones exist: an address has the shape of a zone, and is refused; a name in front of it is not. */
  lemma AddressAsZone(name: string, a: string, b: string, c: string, d: string)
    requires DNSLabel(name)
    requires IsOctet(a) && IsOctet(b) && IsOctet(c) && IsOctet(d)
    requires |a| <= 3 && |b| <= 3 && |c| <= 3 && |d| <= 3
    ensures var address := a + "." + (b + "." + (c + "." + d));
            && !ValidateDomain(address) && ValidateDomain(name + "." + address)
            && SplitDomain(name + "." + address) == (name, address)
  {
    var address := a + "." + (b + "." + (c + "." + d));
    FourOctets(a, b, c, d);
    ShortAddress(name, address);
  }

  lemma ShortAddress(name: string, address: string)
    requires DNSLabel(name) && IsIP(address) && |address| <= 15
    ensures !ValidateDomain(address) && ValidateDomain(name + "." + address)
    ensures SplitDomain(name + "." + address) == (name, address)
  {
    var d := name + "." + address;
    LabelLength(address);
    forall i | 0 <= i < 4 ensures DNSLabel(Split(address)[i]) {
      assert IsOctet(Split(address)[i]);
    }
    assert WellFormed(address);
    LabelSlot(name, address);
    SplitAtDot(name, address);
    SplitLength(d);
    ValidExactly(d);
    assert forall i :: 0 <= i < 4 ==> Split(d)[i + 1] == Split(address)[i];
  }

  lemma FourOctets(a: string, b: string, c: string, d: string)
    requires IsOctet(a) && IsOctet(b) && IsOctet(c) && IsOctet(d)
    ensures IsIP(a + "." + (b + "." + (c + "." + d)))
  {
    SplitAtDot(a, b + "." + (c + "." + d));
    SplitAtDot(b, c + "." + d);
    SplitAtDot(c, d);
    SplitNoDot(d);
  }

  /** A printed number is a part of an address exactly up to 255. */
  lemma OctetExactly(n: nat)
    ensures IsOctet(Itoa(n)) <==> n <= 255
  {
    NumberOfDigits(n);
  }

  /** Which labels make a valid domain in front of a valid zone. */
  lemma LabelledIsValidIff(name: string, zone: string)
    requires ValidateDomain(zone) && '.' !in name
    ensures ValidateDomain(name + "." + zone) <==>
            && Spelled(name)
            && |name| + |zone| - CountDots(zone) <= 255 && !IsIP(name + "." + zone)
  {
    var d := name + "." + zone;
    LabelsSpelled(name);
    hide Spelled;
    SplitAtDot(name, zone);
    SplitLength(d);
    SplitLength(zone);
    ValidExactly(d);
    ValidExactly(zone);
    assert Split(d)[0] == name;
    assert forall i :: 0 <= i < |Split(zone)| ==> Split(d)[i + 1] == Split(zone)[i];
  }

  /** One to 63 letters, digits, dashes and underscores, and no dash first. */
  predicate Spelled(name: string)
  {
    && 1 <= |name| <= 63 && name[0] != '-'
    && forall c | c in name ::
         'a' <= c <= 'z' || 'A' <= c <= 'Z' || '0' <= c <= '9' || c == '_' || c == '-'
  }

  lemma LabelsSpelled(name: string)
    ensures DNSLabel(name) <==> Spelled(name)
  {
    if Spelled(name) {
      forall i | 0 <= i < |name| ensures DnsChar(name[i]) {
        assert name[i] in name;
      }
    }
  }

  // ------------------------------------------------------------ slots

  /** The slot of a domain: the label it has inside its zone, and the zone. */
  function SplitDomain(d: string): (slot: (string, string))
  {
    var labels := Split(d);
    if |labels| < 3 then ("", d) else (labels[0], Join(labels[1..]))
  }

  /** The domain a slot stands for. */
  function DomainOf(name: string, zone: string): string
  {
    if name == "" then zone else name + "." + zone
  }

  lemma SplitRebuilds(d: string)
    ensures |Split(d)| >= 3 ==>
              && d == SplitDomain(d).0 + "." + SplitDomain(d).1
              && '.' !in SplitDomain(d).0
              && Split(d) == [SplitDomain(d).0] + Split(SplitDomain(d).1)
    ensures |Split(d)| < 3 ==> SplitDomain(d) == ("", d)
  {
    JoinSplit(d);
    LabelsHaveNoDot(d);
    if |Split(d)| >= 3 {
      SplitAtDot(SplitDomain(d).0, SplitDomain(d).1);
    }
  }

  /**
   * The only two different strings with one slot are a two-label name and the same
   * name after a leading dot.
   */
  lemma SplitCollision(d: string, e: string)
    ensures SplitDomain(d) == SplitDomain(e) && d != e <==>
            (d == "." + e && |Split(e)| == 2) || (e == "." + d && |Split(d)| == 2)
  {
    SplitRebuilds(d);
    SplitRebuilds(e);
    LeadingDot(d);
    LeadingDot(e);
  }

  lemma LeadingDot(d: string)
    ensures Split("." + d) == [""] + Split(d)
    ensures |Split(d)| == 2 ==> SplitDomain("." + d) == ("", d)
    ensures d != "." + d
  {
    assert ("." + d)[1..] == d;
    JoinSplit(d);
    assert ([""] + Split(d))[1..] == Split(d);
    assert |"." + d| == |d| + 1;
  }

  /** Well-formed domains and slots match one to one. */
  lemma SlotsAreDistinct(d: string, e: string)
    requires WellFormed(d) && WellFormed(e)
    requires SplitDomain(d) == SplitDomain(e)
    ensures d == e
  {
    SplitCollision(d, e);
    LeadingDot(d);
    LeadingDot(e);
  }

  lemma SlotRebuilds(d: string)
    requires WellFormed(d)
    ensures DomainOf(SplitDomain(d).0, SplitDomain(d).1) == d
    ensures SplitDomain(d).0 == "" || IsLabel(SplitDomain(d).0)
  {
    SplitRebuilds(d);
  }

  /** The zone of a well-formed domain is one itself. */
  lemma ZoneIsWellFormed(d: string)
    requires WellFormed(d)
    ensures WellFormed(SplitDomain(d).1)
  {
    SplitRebuilds(d);
    if |Split(d)| >= 3 {
      var zone := SplitDomain(d).1;
      assert forall i :: 0 <= i < |Split(zone)| ==> Split(zone)[i] == Split(d)[i + 1];
    }
  }

  lemma EndsOfDomain(d: string)
    requires WellFormed(d)
    ensures '.' in d && DnsChar(d[0]) && d[|d| - 1] != '.'
  {
    JoinSplit(d);
    LastLabel(d);
    var labels := Split(d);
    assert d == labels[0] + "." + Join(labels[1..]);
    assert d[|labels[0]|] == '.' && d[0] == labels[0][0];
  }

  /** Every label in front of a well-formed zone is the slot of a well-formed domain of its own. */
  lemma LabelSlot(name: string, zone: string)
    requires IsLabel(name) && WellFormed(zone)
    ensures WellFormed(DomainOf(name, zone))
    ensures SplitDomain(DomainOf(name, zone)) == (name, zone)
  {
    SplitAtDot(name, zone);
    JoinSplit(zone);
    assert ([name] + Split(zone))[1..] == Split(zone);
  }
}
