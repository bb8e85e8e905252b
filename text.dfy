/** Strings as the dashboard and the graph builder use them: ASCII case folding, Python's
    substring test `needle in hay`, `str(n)` for integers and `sep.join(items)`. */
module Text {

  /** ASCII lower-casing of one character. */
  function LowerChar(c: char): char {
    if 'A' <= c <= 'Z' then (c as int + 32) as char else c
  }

  /** `s.lower()`, restricted to ASCII letters. */
  function Lower(s: string): (r: string)
    ensures |r| == |s|
  {
    seq(|s|, i requires 0 <= i < |s| => LowerChar(s[i]))
  }

  /** Lower-casing twice is lower-casing once. */
  lemma LowerIdempotent(s: string)
    ensures Lower(Lower(s)) == Lower(s)
  {
    assert forall i :: 0 <= i < |s| ==> LowerChar(LowerChar(s[i])) == LowerChar(s[i]);
  }

  /** Python's `needle in hay` on strings: `needle` occurs at some offset of `hay`. */
  predicate IsSubstring(needle: string, hay: string)
    decreases |hay|
  {
    needle <= hay || (|hay| > 0 && IsSubstring(needle, hay[1..]))
  }

  /** A substring of `hay` is a substring of `pre + hay`. */
  lemma {:induction false} SubstringOfSuffix(needle: string, pre: string, hay: string)
    requires IsSubstring(needle, hay)
    ensures IsSubstring(needle, pre + hay)
    decreases |pre|
  {
    if pre == [] {
      assert pre + hay == hay;
    } else {
      assert (pre + hay)[1..] == pre[1..] + hay;
      SubstringOfSuffix(needle, pre[1..], hay);
    }
  }

  /** The middle part of `a + b + c` is a substring of it. */
  lemma {:induction false} SubstringOfMiddle(a: string, b: string, c: string)
    ensures IsSubstring(b, a + b + c)
  {
    assert b <= b + c;
    assert a + b + c == a + (b + c);
    SubstringOfSuffix(b, a, b + c);
  }

  /** A substring of a prefix of `c` is a substring of `c`. */
  lemma {:induction false} SubstringOfPrefix(a: string, b: string, c: string)
    requires IsSubstring(a, b) && b <= c
    ensures IsSubstring(a, c)
    decreases |b|
  {
    if !(a <= b) {
      SubstringOfPrefix(a, b[1..], c[1..]);
    }
  }

  /** Being a substring is transitive. */
  lemma {:induction false} SubstringTransitive(a: string, b: string, c: string)
    requires IsSubstring(a, b) && IsSubstring(b, c)
    ensures IsSubstring(a, c)
    decreases |c|
  {
    if b <= c {
      SubstringOfPrefix(a, b, c);
    } else {
      SubstringTransitive(a, b, c[1..]);
    }
  }

  /** Lower-casing both sides keeps an occurrence. */
  lemma {:induction false} SubstringLower(needle: string, hay: string)
    requires IsSubstring(needle, hay)
    ensures IsSubstring(Lower(needle), Lower(hay))
    decreases |hay|
  {
    if needle <= hay {
      assert Lower(needle) == Lower(hay)[..|needle|];
    } else {
      assert Lower(hay[1..]) == Lower(hay)[1..];
      SubstringLower(needle, hay[1..]);
    }
  }

  /** The decimal digit for `d`. */
  function DigitChar(d: nat): char
    requires d < 10
  {
    ('0' as int + d) as char
  }

  /** The value of a decimal digit character (0 for any other character). */
  function DigitValue(c: char): nat {
    if '0' <= c <= '9' then c as int - '0' as int else 0
  }

  /** `str(n)` for a non-negative integer: decimal digits, no leading zeros. */
  function NatToString(n: nat): (s: string)
    ensures |s| >= 1
    ensures forall i :: 0 <= i < |s| ==> '0' <= s[i] <= '9'
    decreases n
  {
    if n < 10 then [DigitChar(n)] else NatToString(n / 10) + [DigitChar(n % 10)]
  }

  /** The value of a string of decimal digits. */
  function ParseDigits(s: string): nat
    decreases |s|
  {
    if s == [] then 0 else ParseDigits(s[..|s| - 1]) * 10 + DigitValue(s[|s| - 1])
  }

  /** Reading back the digits of `str(n)` gives `n`. */
  lemma {:induction false} ParseNatToString(n: nat)
    ensures ParseDigits(NatToString(n)) == n
    decreases n
  {
    var s := NatToString(n);
    if n < 10 {
      assert s[..0] == [];
    } else {
      ParseNatToString(n / 10);
      assert s[..|s| - 1] == NatToString(n / 10);
    }
  }

  /** Distinct numbers have distinct decimal representations. */
  lemma NatToStringInjective(a: nat, b: nat)
    requires NatToString(a) == NatToString(b)
    ensures a == b
  {
    ParseNatToString(a);
    ParseNatToString(b);
  }

  /** `str(i)` for any integer, with a leading '-' for negative values. */
  function IntToString(i: int): string {
    if i < 0 then "-" + NatToString(-i) else NatToString(i)
  }

  /** `s[:n]` in Python: the first `n` characters, or all of `s` when it is shorter. */
  function Take(s: string, n: nat): (r: string)
    ensures r <= s
    ensures |r| == if |s| < n then |s| else n
  {
    if |s| <= n then s else s[..n]
  }

  /** `sep.join(items)`. */
  function Join(sep: string, items: seq<string>): string
    decreases |items|
  {
    if items == [] then ""
    else if |items| == 1 then items[0]
    else items[0] + sep + Join(sep, items[1..])
  }

  /** Every item of a join occurs in the joined string. */
  lemma {:induction false} JoinContainsItem(sep: string, items: seq<string>, k: nat)
    requires k < |items|
    ensures IsSubstring(items[k], Join(sep, items))
    decreases |items|
  {
    if |items| == 1 {
      SubstringOfMiddle("", items[0], "");
      assert "" + items[0] + "" == items[0];
    } else if k == 0 {
      SubstringOfMiddle("", items[0], sep + Join(sep, items[1..]));
      assert "" + items[0] + (sep + Join(sep, items[1..])) == Join(sep, items);
    } else {
      JoinContainsItem(sep, items[1..], k - 1);
      SubstringOfSuffix(items[k], items[0] + sep, Join(sep, items[1..]));
      assert items[0] + sep + Join(sep, items[1..]) == Join(sep, items);
    }
  }
}
