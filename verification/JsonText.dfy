/** JSON text: flat objects of strings as `encoding/json` writes them, and a reader of such text by field name. */
module JsonText {
  import opened Json

  function HexDigit(n: nat): char
    requires n < 16
  {
    if n < 10 then '0' + n as char else 'a' + (n - 10) as char
  }

  function HexValue(c: char): (n: Option<nat>)
    ensures n.Some? ==> n.value < 16
  {
    if '0' <= c <= '9' then Some((c - '0') as nat)
    else if 'a' <= c <= 'f' then Some((c - 'a') as nat + 10)
    else if 'A' <= c <= 'F' then Some((c - 'A') as nat + 10)
    else None
  }

  function Hex4(n: nat): string
    requires n < 0x1_0000
  {
    [HexDigit(n / 0x1000), HexDigit(n / 0x100 % 16), HexDigit(n / 16 % 16), HexDigit(n % 16)]
  }

  /** The encoder's escapes, those for text inside HTML included. */
  function Escaped(c: char): string
  {
    if c == '"' || c == '\\' then ['\\', c]
    else if c == '\n' then "\\n"
    else if c == '\r' then "\\r"
    else if c == '\t' then "\\t"
    else if c < ' ' || c == '<' || c == '>' || c == '&' || c == '\U{2028}' || c == '\U{2029}'
    then "\\u" + Hex4(c as int)
    else [c]
  }

  function Body(s: string): string
  {
    if s == "" then "" else Escaped(s[0]) + Body(s[1..])
  }

  function Member(key: string, value: string): string
  {
    "\"" + Body(key) + "\":\"" + Body(value) + "\""
  }

  /** A character that the encoder never writes as it is. */
  predicate NeverRaw(c: char)
  {
    c < ' ' || c == '<' || c == '>' || c == '&' || c == '\U{2028}' || c == '\U{2029}'
  }

  // ------------------------------------------------------------ reading

  function ReadHex4(s: string): Option<char>
    requires |s| >= 4
  {
    match (HexValue(s[0]), HexValue(s[1]), HexValue(s[2]), HexValue(s[3]))
    case (Some(a), Some(b), Some(c), Some(d)) =>
      var n := a * 0x1000 + b * 0x100 + c * 16 + d;
      if 0xD800 <= n < 0xE000 then None else Some(n as char)
    case _ => None
  }

  function Unescape(c: char): Option<char>
  {
    if c == '"' || c == '\\' || c == '/' then Some(c)
    else if c == 'n' then Some('\n')
    else if c == 'r' then Some('\r')
    else if c == 't' then Some('\t')
    else None
  }

  /** The first character of a string's body, and the text after it. */
  function ReadChar(s: string): (r: Option<(char, string)>)
    requires s != ""
    ensures r.Some? ==> |r.value.1| < |s|
  {
    if s[0] < ' ' then None
    else if s[0] != '\\' then Some((s[0], s[1..]))
    else if |s| >= 6 && s[1] == 'u' then
      (match ReadHex4(s[2..6]) case Some(c) => Some((c, s[6..])) case None => None)
    else if |s| >= 2 then (match Unescape(s[1]) case Some(c) => Some((c, s[2..])) case None => None)
    else None
  }

  /** A string up to its closing quote, and the text after it. */
  function ReadBody(s: string): (r: Option<(string, string)>)
    ensures r.Some? ==> |r.value.1| < |s|
    decreases |s|
  {
    if s == "" then None
    else if s[0] == '"' then Some(("", s[1..]))
    else
      match ReadChar(s)
      case None => None
      case Some((c, rest)) =>
        match ReadBody(rest)
        case None => None
        case Some((t, more)) => Some(([c] + t, more))
  }

  /** A string with its quotes, and the text after the character that must follow it. */
  function ReadString(s: string, follow: char): (r: Option<(string, string)>)
    ensures r.Some? ==> |r.value.1| < |s|
  {
    if s == "" || s[0] != '"' then None
    else
      match ReadBody(s[1..])
      case Some((t, more)) => if more != "" && more[0] == follow then Some((t, more[1..])) else None
      case None => None
  }

  /** The members of an object up to its end, which must be the end of the text. */
  function ReadMembers(s: string): Option<map<string, string>>
    decreases |s|
  {
    match ReadString(s, ':')
    case None => None
    case Some((key, rest)) =>
      match ReadString(rest, '}')
      case Some((value, more)) => if more == "" then Some(map[key := value]) else None
      case None =>
        match ReadString(rest, ',')
        case None => None
        case Some((value, more)) =>
          match ReadMembers(more)
          case None => None
          case Some(m) => Some(map[key := value] + m)
  }

  /** The fields of a flat object of strings. */
  function ReadObject(s: string): Option<map<string, string>>
  {
    if s == "" || s[0] != '{' then None else ReadMembers(s[1..])
  }

  // ------------------------------------------------------------ what is written is read

  lemma HexRoundTrip(n: nat)
    requires n < 0xD800
    ensures ReadHex4(Hex4(n)) == Some(n as char)
  {
    DigitRoundTrip(n / 0x1000);
    DigitRoundTrip(n / 0x100 % 16);
    DigitRoundTrip(n / 16 % 16);
    DigitRoundTrip(n % 16);
    hide HexDigit, HexValue;
    HexSum(n);
  }

  lemma HexSum(n: nat)
    ensures n == n / 0x1000 * 0x1000 + n / 0x100 % 16 * 0x100 + n / 16 % 16 * 16 + n % 16
  {
    assert n / 0x100 == n / 0x1000 * 16 + n / 0x100 % 16;
    assert n / 16 == n / 0x100 * 16 + n / 16 % 16;
  }

  lemma DigitRoundTrip(n: nat)
    requires n < 16
    ensures HexValue(HexDigit(n)) == Some(n)
  {}

  lemma CharRoundTrip(c: char, rest: string)
    ensures ReadChar(Escaped(c) + rest) == Some((c, rest))
    ensures Escaped(c)[0] != '"'
  {
    var s := Escaped(c) + rest;
    if (c as int) < 0x1_0000 && Escaped(c) == "\\u" + Hex4(c as int) {
      HexRoundTrip(c as int);
      hide Hex4, ReadHex4;
      assert s[2..6] == Hex4(c as int) && s[6..] == rest;
    } else {
      hide Hex4, ReadHex4;
      assert s[|Escaped(c)|..] == rest;
    }
  }

  lemma {:induction false} BodyIsClean(s: string)
    ensures forall i :: 0 <= i < |Body(s)| ==> !NeverRaw(Body(s)[i])
  {
    if s != "" {
      EscapeIsClean(s[0]);
      BodyIsClean(s[1..]);
      hide Escaped, NeverRaw;
      assert Body(s) == Escaped(s[0]) + Body(s[1..]);
    }
  }

  /** The escapes as the encoder spells them. */
  lemma EscapesSpelled()
    ensures Escaped('"') == "\\\"" && Escaped('\\') == "\\\\"
    ensures Escaped('\n') == "\\n" && Escaped('\r') == "\\r" && Escaped('\t') == "\\t"
    ensures Escaped('<') == "\\u003c" && Escaped('>') == "\\u003e" && Escaped('&') == "\\u0026"
    ensures Escaped('\U{2028}') == "\\u2028" && Escaped('\U{2029}') == "\\u2029"
  {}

  lemma EscapeIsClean(c: char)
    ensures forall i :: 0 <= i < |Escaped(c)| ==> !NeverRaw(Escaped(c)[i])
  {
    HexIsClean();
    hide HexDigit;
  }

  lemma HexIsClean()
    ensures forall n: nat :: n < 16 ==> !NeverRaw(HexDigit(n))
  {}

  lemma {:induction false} BodyRoundTrip(s: string, rest: string)
    ensures ReadBody(Body(s) + "\"" + rest) == Some((s, rest))
  {
    hide Escaped, ReadChar;
    if s != "" {
      BodyRoundTrip(s[1..], rest);
      var tail := Body(s[1..]) + "\"" + rest;
      CharRoundTrip(s[0], tail);
      assert Body(s) + "\"" + rest == Escaped(s[0]) + tail;
      assert [s[0]] + s[1..] == s;
    } else {
      assert Body(s) + "\"" + rest == "\"" + rest;
    }
  }

  lemma StringRoundTrip(s: string, follow: char, rest: string)
    ensures forall c :: ReadString("\"" + Body(s) + "\"" + [follow] + rest, c)
                        == if c == follow then Some((s, rest)) else None
  {
    hide Body, ReadBody;
    var text := "\"" + Body(s) + "\"" + [follow] + rest;
    BodyRoundTrip(s, [follow] + rest);
    assert text[1..] == Body(s) + "\"" + ([follow] + rest);
    assert ([follow] + rest)[1..] == rest;
  }

  /** Two fields written are two fields read, whatever their texts. */
  lemma TwoFieldsRead(key: string, value: string, key': string, value': string)
    ensures ReadObject("{" + Member(key, value) + "," + Member(key', value') + "}")
            == Some(map[key := value] + map[key' := value'])
  {
    hide Body, ReadString;
    var last := Member(key', value') + "}";
    OneFieldRead(key', value');
    var text := Member(key, value) + "," + last;
    var rest := "\"" + Body(value) + "\"" + "," + last;
    StringRoundTrip(key, ':', rest);
    StringRoundTrip(value, ',', last);
    assert text == "\"" + Body(key) + "\"" + ":" + rest;
    assert ("{" + Member(key, value) + "," + Member(key', value') + "}")[1..] == text;
  }

  lemma OneFieldRead(key: string, value: string)
    ensures ReadMembers(Member(key, value) + "}") == Some(map[key := value])
  {
    hide Body, ReadString;
    var rest := "\"" + Body(value) + "\"" + "}" + "";
    StringRoundTrip(key, ':', rest);
    StringRoundTrip(value, '}', "");
    assert Member(key, value) + "}" == "\"" + Body(key) + "\"" + ":" + rest;
  }
}
