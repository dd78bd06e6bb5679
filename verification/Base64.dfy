/** Base 64 with the standard alphabet and padding, as in section 4 of RFC 4648. */
module Base64 {
  import opened Json

  type byte = x: int | 0 <= x < 256

  /** The character of a 6-bit group. */
  function Symbol(n: nat): (c: char)
    requires n < 64
  {
    if n < 26 then 'A' + n as char
    else if n < 52 then 'a' + (n - 26) as char
    else if n < 62 then '0' + (n - 52) as char
    else if n == 62 then '+'
    else '/'
  }

  /** The 6-bit group of a character; padding and everything else has none. */
  function Group(c: char): (n: Option<nat>)
    ensures n.Some? ==> n.value < 64
  {
    if 'A' <= c <= 'Z' then Some((c - 'A') as nat)
    else if 'a' <= c <= 'z' then Some((c - 'a') as nat + 26)
    else if '0' <= c <= '9' then Some((c - '0') as nat + 52)
    else if c == '+' then Some(62)
    else if c == '/' then Some(63)
    else None
  }

  /** Three bytes as four characters. */
  function Characters(x: byte, y: byte, z: byte): (q: string)
    ensures |q| == 4
  {
    [Symbol(x / 4), Symbol(x % 4 * 16 + y / 16), Symbol(y % 16 * 4 + z / 64), Symbol(z % 64)]
  }

  function Encode(bytes: seq<byte>): string
  {
    if bytes == [] then ""
    else if |bytes| == 1 then Characters(bytes[0], 0, 0)[..2] + "=="
    else if |bytes| == 2 then Characters(bytes[0], bytes[1], 0)[..3] + "="
    else Characters(bytes[0], bytes[1], bytes[2]) + Encode(bytes[3..])
  }

  /** The decoder skips line breaks wherever they are. */
  function SkipLineBreaks(text: string): string
  {
    if text == "" then ""
    else (if text[0] == '\n' || text[0] == '\r' then "" else [text[0]]) + SkipLineBreaks(text[1..])
  }

  /** Four characters decoded; only the last four may be padded. */
  function Quantum(q: string, last: bool): Option<seq<byte>>
    requires |q| == 4
  {
    match (Group(q[0]), Group(q[1]), Group(q[2]), Group(q[3]))
    case (Some(a), Some(b), Some(c), Some(d)) => Some([a * 4 + b / 16, b % 16 * 16 + c / 4, c % 4 * 64 + d])
    case (Some(a), Some(b), Some(c), None) =>
      if last && q[3] == '=' then Some([a * 4 + b / 16, b % 16 * 16 + c / 4]) else None
    case (Some(a), Some(b), None, None) =>
      if last && q[2] == '=' && q[3] == '=' then Some([a * 4 + b / 16]) else None
    case _ => None
  }

  function DecodeQuanta(text: string): Option<seq<byte>>
  {
    if text == "" then Some([])
    else if |text| < 4 then None
    else
      match (Quantum(text[..4], |text| == 4), DecodeQuanta(text[4..]))
      case (Some(bytes), Some(rest)) => Some(bytes + rest)
      case _ => None
  }

  function Decode(text: string): Option<seq<byte>>
  {
    DecodeQuanta(SkipLineBreaks(text))
  }

  lemma SymbolRoundTrip(n: nat)
    requires n < 64
    ensures Group(Symbol(n)) == Some(n)
    ensures Symbol(n) != '=' && Symbol(n) != '\n' && Symbol(n) != '\r'
  {}

  lemma {:induction false} NothingToSkip(text: string)
    requires forall i :: 0 <= i < |text| ==> text[i] != '\n' && text[i] != '\r'
    ensures SkipLineBreaks(text) == text
  {
    if text != "" {
      NothingToSkip(text[1..]);
    }
  }

  lemma {:induction false} EncodedHasNoLineBreak(bytes: seq<byte>)
    ensures forall i :: 0 <= i < |Encode(bytes)| ==> Encode(bytes)[i] != '\n' && Encode(bytes)[i] != '\r'
  {
    if bytes != [] {
      CharactersHaveNoLineBreak(bytes[0], if |bytes| > 1 then bytes[1] else 0, if |bytes| > 2 then bytes[2] else 0);
      hide Characters;
      if |bytes| > 2 {
        EncodedHasNoLineBreak(bytes[3..]);
      }
    }
  }

  lemma CharactersHaveNoLineBreak(x: byte, y: byte, z: byte)
    ensures forall i :: 0 <= i < 4 ==> Characters(x, y, z)[i] != '\n' && Characters(x, y, z)[i] != '\r'
  {
    SymbolRoundTrip(x / 4);
    SymbolRoundTrip(x % 4 * 16 + y / 16);
    SymbolRoundTrip(y % 16 * 4 + z / 64);
    SymbolRoundTrip(z % 64);
  }

  lemma GroupsRoundTrip(a: nat, b: nat, c: nat, d: nat, last: bool)
    requires a < 64 && b < 64 && c < 64 && d < 64
    ensures Quantum([Symbol(a), Symbol(b), Symbol(c), Symbol(d)], last)
            == Some([a * 4 + b / 16, b % 16 * 16 + c / 4, c % 4 * 64 + d])
    ensures Quantum([Symbol(a), Symbol(b), Symbol(c), '='], true) == Some([a * 4 + b / 16, b % 16 * 16 + c / 4])
    ensures Quantum([Symbol(a), Symbol(b), '=', '='], true) == Some([a * 4 + b / 16])
  {
    SymbolRoundTrip(a);
    SymbolRoundTrip(b);
    SymbolRoundTrip(c);
    SymbolRoundTrip(d);
    assert Group('=') == None;
  }

  /** Regrouping three bytes into four groups and back. */
  lemma Regroup(x: byte, y: byte, z: byte)
    ensures x / 4 * 4 + (x % 4 * 16 + y / 16) / 16 == x
    ensures (x % 4 * 16 + y / 16) % 16 * 16 + (y % 16 * 4 + z / 64) / 4 == y
    ensures (y % 16 * 4 + z / 64) % 4 * 64 + z % 64 == z
  {}

  lemma QuantumRoundTrip(x: byte, y: byte, z: byte, last: bool)
    ensures Quantum(Characters(x, y, z), last) == Some([x, y, z])
    ensures z == 0 ==> Quantum(Characters(x, y, z)[..3] + "=", true) == Some([x, y])
    ensures y == 0 && z == 0 ==> Quantum(Characters(x, y, z)[..2] + "==", true) == Some([x])
  {
    hide Quantum, Group, Symbol;
    Regroup(x, y, z);
    GroupsRoundTrip(x / 4, x % 4 * 16 + y / 16, y % 16 * 4 + z / 64, z % 64, last);
    var c := Characters(x, y, z);
    assert c[..3] + "=" == [c[0], c[1], c[2], '='];
    assert c[..2] + "==" == [c[0], c[1], '=', '='];
  }

  /** The first one to three bytes go to one quantum, the last one if there are no more bytes. */
  lemma HeadRoundTrip(bytes: seq<byte>)
    requires bytes != []
    ensures |Encode(bytes)| >= 4
    ensures var n := if |bytes| < 3 then |bytes| else 3;
            && Encode(bytes)[4..] == Encode(bytes[n..])
            && Quantum(Encode(bytes)[..4], |Encode(bytes)| == 4) == Some(bytes[..n])
  {
    hide Quantum, Characters;
    if |bytes| == 1 {
      QuantumRoundTrip(bytes[0], 0, 0, true);
      assert bytes[..1] == [bytes[0]] && bytes[1..] == [];
      assert Encode(bytes) == Characters(bytes[0], 0, 0)[..2] + "==";
      assert Encode(bytes)[..4] == Encode(bytes) && Encode(bytes)[4..] == "";
    } else if |bytes| == 2 {
      QuantumRoundTrip(bytes[0], bytes[1], 0, true);
      assert bytes[..2] == [bytes[0], bytes[1]] && bytes[2..] == [];
      assert Encode(bytes) == Characters(bytes[0], bytes[1], 0)[..3] + "=";
      assert Encode(bytes)[..4] == Encode(bytes) && Encode(bytes)[4..] == "";
    } else {
      QuantumRoundTrip(bytes[0], bytes[1], bytes[2], |Encode(bytes)| == 4);
      assert bytes[..3] == [bytes[0], bytes[1], bytes[2]];
    }
  }

  lemma {:induction false} QuantaRoundTrip(bytes: seq<byte>)
    ensures DecodeQuanta(Encode(bytes)) == Some(bytes)
  {
    hide Quantum, Encode;
    if bytes == [] {
      assert Encode([]) == "" by { NothingEncoded(); }
    } else {
      HeadRoundTrip(bytes);
      var n := if |bytes| < 3 then |bytes| else 3;
      QuantaRoundTrip(bytes[n..]);
      assert bytes == bytes[..n] + bytes[n..];
    }
  }

  lemma NothingEncoded()
    ensures Encode([]) == ""
  {}

  /** Decoding an encoding gives the bytes back, whichever of the three paddings it ends with. */
  lemma RoundTrip(bytes: seq<byte>)
    ensures Decode(Encode(bytes)) == Some(bytes)
  {
    EncodedHasNoLineBreak(bytes);
    NothingToSkip(Encode(bytes));
    QuantaRoundTrip(bytes);
  }

  // ------------------------------------------------------------ the standard's own terms

  const UPPER := "ABCDEFGHIJKLMNOPQRSTUVWXYZ"
  const LOWER := "abcdefghijklmnopqrstuvwxyz"
  const OTHERS := "0123456789+/"

  /** The symbols are those of table 1, in its order. */
  lemma SymbolsOfTheStandard(n: nat)
    requires n < 64
    ensures |UPPER + LOWER + OTHERS| == 64
    ensures Symbol(n) == (UPPER + LOWER + OTHERS)[n]
  {
    if n < 26 {
      assert Symbol(n) == UPPER[n];
    } else if n < 52 {
      assert Symbol(n) == LOWER[n - 26];
    } else {
      assert Symbol(n) == OTHERS[n - 52];
    }
  }

  /** Four characters stand for the 24 bits of three bytes, most significant bits first. */
  lemma BitsInOrder(x: byte, y: byte, z: byte)
    ensures var q := Characters(x, y, z);
            && Group(q[0]).Some? && Group(q[1]).Some? && Group(q[2]).Some? && Group(q[3]).Some?
            && ((Group(q[0]).value * 64 + Group(q[1]).value) * 64 + Group(q[2]).value) * 64 + Group(q[3]).value
               == (x * 256 + y) * 256 + z
  {
    hide Group, Symbol;
    SymbolRoundTrip(x / 4);
    SymbolRoundTrip(x % 4 * 16 + y / 16);
    SymbolRoundTrip(y % 16 * 4 + z / 64);
    SymbolRoundTrip(z % 64);
  }

  /** The decoder does not see line breaks. */
  lemma {:induction false} LineBreaksDoNotMatter(before: string, after: string, c: char)
    requires c == '\n' || c == '\r'
    ensures SkipLineBreaks(before + [c] + after) == SkipLineBreaks(before + after)
    ensures Decode(before + [c] + after) == Decode(before + after)
  {
    var s, t := before + [c] + after, before + after;
    if before == "" {
      assert s[1..] == after && t == after;
    } else {
      LineBreaksDoNotMatter(before[1..], after, c);
      assert s[1..] == before[1..] + [c] + after && t[1..] == before[1..] + after;
    }
  }
}
