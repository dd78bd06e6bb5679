/** The string operations the gateway takes from Go's `strings` and `fmt` packages. */
module Strings {

  /** `strings.Split(s, ".")`: the labels of `s`, empty ones included. */
  function Split(s: string): (labels: seq<string>)
    ensures |labels| >= 1
  {
    if s == "" then [""]
    else
      var rest := Split(s[1..]);
      if s[0] == '.' then [""] + rest else [[s[0]] + rest[0]] + rest[1..]
  }

  /** `strings.Join(labels, ".")`. */
  function Join(labels: seq<string>): string
  {
    if labels == [] then ""
    else if |labels| == 1 then labels[0]
    else labels[0] + "." + Join(labels[1..])
  }

  /** `strings.Count(s, ".")`. */
  function CountDots(s: string): nat
  {
    if s == "" then 0 else (if s[0] == '.' then 1 else 0) + CountDots(s[1..])
  }

  /** `strings.Contains(s, "..")`. */
  predicate HasDoubleDot(s: string)
  {
    exists i :: 0 <= i < |s| - 1 && s[i] == '.' && s[i + 1] == '.'
  }

  predicate EndsWithDot(s: string)
  {
    s != "" && s[|s| - 1] == '.'
  }

  /** `strings.TrimSuffix(s, ".")`. */
  function TrimDot(s: string): string
  {
    if EndsWithDot(s) then s[..|s| - 1] else s
  }

  /** `strings.HasPrefix(s, prefix)`. */
  predicate HasPrefix(s: string, prefix: string)
  {
    prefix <= s
  }

  /** Splitting and joining again gives the string back. */
  lemma {:induction false} JoinSplit(s: string)
    ensures Join(Split(s)) == s
  {
    if s != "" {
      JoinSplit(s[1..]);
      var rest := Split(s[1..]);
      if s[0] == '.' {
        assert ([""] + rest)[1..] == rest;
      } else {
        var labels := [[s[0]] + rest[0]] + rest[1..];
        assert labels[1..] == rest[1..];
        if |rest| > 1 {
          assert rest[0] + "." + Join(rest[1..]) == s[1..];
        }
      }
    }
  }

  lemma {:induction false} SplitLength(s: string)
    ensures |Split(s)| == CountDots(s) + 1
  {
    if s != "" {
      SplitLength(s[1..]);
    }
  }

  /** The text before the first dot is the first label; the labels of the text after it are the others. */
  lemma {:induction false} SplitAtDot(head: string, rest: string)
    requires '.' !in head
    ensures Split(head + "." + rest) == [head] + Split(rest)
  {
    var s := head + "." + rest;
    if head == "" {
      assert s[1..] == rest;
    } else {
      SplitAtDot(head[1..], rest);
      assert s[1..] == head[1..] + "." + rest;
      assert [head[0]] + head[1..] == head;
    }
  }

  lemma {:induction false} SplitNoDot(head: string)
    requires '.' !in head
    ensures Split(head) == [head]
  {
    if head != "" {
      SplitNoDot(head[1..]);
      assert [head[0]] + head[1..] == head;
    }
  }

  lemma {:induction false} LabelsHaveNoDot(s: string)
    ensures forall i :: 0 <= i < |Split(s)| ==> '.' !in Split(s)[i]
  {
    if s != "" {
      LabelsHaveNoDot(s[1..]);
    }
  }

  lemma {:induction false} LabelLength(s: string)
    ensures forall i :: 0 <= i < |Split(s)| ==> |Split(s)[i]| <= |s|
  {
    if s != "" {
      LabelLength(s[1..]);
    }
  }

  lemma SplitStep(s: string)
    requires s != ""
    ensures var rest := Split(s[1..]);
            Split(s) == if s[0] == '.' then [""] + rest else [[s[0]] + rest[0]] + rest[1..]
  {}

  /** A character other than a dot goes to the last label. */
  lemma {:induction false} SplitSnoc(s: string, c: char)
    requires c != '.'
    ensures var labels := Split(s);
            Split(s + [c]) == labels[..|labels| - 1] + [labels[|labels| - 1] + [c]]
  {
    if s == "" {
      assert s + [c] == [c] && [c] + "" == "" + [c];
    } else {
      hide Split;
      SplitStep(s);
      SplitStep(s + [c]);
      SplitSnoc(s[1..], c);
      assert (s + [c])[1..] == s[1..] + [c];
      SnocBehind(s[0], Split(s[1..]), Split(s[1..] + [c]), c);
    }
  }

  lemma SnocBehind(first: char, rest: seq<string>, more: seq<string>, c: char)
    requires var n := |rest| - 1; n >= 0 && more == rest[..n] + [rest[n] + [c]]
    ensures var labels := if first == '.' then [""] + rest else [[first] + rest[0]] + rest[1..];
            labels[..|labels| - 1] + [labels[|labels| - 1] + [c]]
            == if first == '.' then [""] + more else [[first] + more[0]] + more[1..]
  {
    var n := |rest| - 1;
    if first != '.' && n == 0 {
      assert [first] + (rest[0] + [c]) == [first] + rest[0] + [c];
    }
  }

  /** Only a final dot leaves the last label empty. */
  lemma {:induction false} LastLabel(s: string)
    ensures Split(s)[|Split(s)| - 1] == "" <==> s == "" || s[|s| - 1] == '.'
  {
    if s != "" {
      LastLabel(s[1..]);
      if |Split(s[1..])| == 1 {
        JoinSplit(s[1..]);
      }
    }
  }

  lemma {:induction false} NoEmptyLabelNoDoubleDot(s: string)
    requires forall i :: 1 <= i < |Split(s)| ==> Split(s)[i] != ""
    ensures !HasDoubleDot(s)
  {
    if s != "" {
      hide Split;
      SplitStep(s);
      var rest := Split(s[1..]);
      assert s[0] == '.' ==> rest[0] == Split(s)[1];
      assert forall i :: 1 <= i < |rest| ==> rest[i] == Split(s)[if s[0] == '.' then i + 1 else i];
      NoEmptyLabelNoDoubleDot(s[1..]);
      forall i | 0 <= i < |s| - 1 ensures !(s[i] == '.' && s[i + 1] == '.') {
        if i == 0 {
          SplitStep(s[1..]);
        } else {
          assert s[1..][i - 1] == s[i] && s[1..][i] == s[i + 1];
        }
      }
    }
  }

  /** `fmt.Sprintf("%d", n)`. */
  function Itoa(n: int): string
  {
    if n < 0 then "-" + Digits(-n) else Digits(n)
  }

  function Digit(n: nat): (c: char)
    requires n < 10
    ensures '0' <= c <= '9'
  {
    '0' + n as char
  }

  function Digits(n: nat): (s: string)
    ensures s != "" && forall i :: 0 <= i < |s| ==> '0' <= s[i] <= '9'
  {
    if n < 10 then [Digit(n)] else Digits(n / 10) + [Digit(n % 10)]
  }

  function Number(s: string): nat
    requires forall i :: 0 <= i < |s| ==> '0' <= s[i] <= '9'
  {
    if s == "" then 0 else 10 * Number(s[..|s| - 1]) + (s[|s| - 1] - '0') as nat
  }

  lemma {:induction false} NumberOfDigits(n: nat)
    ensures Number(Digits(n)) == n
  {
    if n >= 10 {
      NumberOfDigits(n / 10);
      assert Digits(n)[..|Digits(n)| - 1] == Digits(n / 10);
    } else {
      assert Digits(n)[..0] == "";
    }
  }

  /** Two integers with the same decimal text are equal. */
  lemma ItoaInjective(m: int, n: int)
    requires Itoa(m) == Itoa(n)
    ensures m == n
  {
    var a, b := if m < 0 then -m else m, if n < 0 then -n else n;
    NumberOfDigits(a);
    NumberOfDigits(b);
    assert Itoa(m)[0] == '-' <==> m < 0;
    assert Itoa(n)[0] == '-' <==> n < 0;
    if m < 0 {
      assert Itoa(m)[1..] == Digits(a);
      assert Itoa(n)[1..] == Digits(b);
    }
  }
}
