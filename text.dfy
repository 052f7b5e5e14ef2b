/** String operations the pipeline relies on: Python's `str.split(sep)` and `sep.join`,
    `str.zfill`, and the decimal conversions of `int(s)` and `str(n)`. */
module Text {

  /** Python's `list.index(x)`: the position of the first occurrence of `x`. */
  function FirstIndex<T(==)>(s: seq<T>, x: T): (k: nat)
    requires x in s
    ensures k < |s| && s[k] == x && x !in s[..k]
  {
    if s[0] == x then 0 else
      var k := 1 + FirstIndex(s[1..], x);
      assert s[..k] == [s[0]] + s[1..][..k - 1];
      k
  }

  /** `s.split(d)` for a one-character separator: the maximal separator-free pieces, in order. */
  function SplitOn(s: string, d: char): (parts: seq<string>)
    ensures |parts| >= 1
    ensures forall p :: p in parts ==> d !in p
    decreases |s|
  {
    if d !in s then [s]
    else
      var k := FirstIndex(s, d);
      [s[..k]] + SplitOn(s[k + 1..], d)
  }

  /** `d.join(parts)` */
  function Join(parts: seq<string>, d: string): string
    requires |parts| >= 1
  {
    if |parts| == 1 then parts[0] else parts[0] + d + Join(parts[1..], d)
  }

  /** Joining the pieces of a split with the same separator gives back the string. */
  lemma {:induction false} JoinSplit(s: string, d: char)
    ensures Join(SplitOn(s, d), [d]) == s
    decreases |s|
  {
    if d in s {
      var k := FirstIndex(s, d);
      JoinSplit(s[k + 1..], d);
      assert s == s[..k] + [d] + s[k + 1..];
    }
  }

  /** Splitting a join of separator-free pieces gives back the pieces. */
  lemma {:induction false} SplitJoin(parts: seq<string>, d: char)
    requires |parts| >= 1
    requires forall p :: p in parts ==> d !in p
    ensures SplitOn(Join(parts, [d]), d) == parts
  {
    if |parts| > 1 {
      var p := parts[0];
      var s := Join(parts, [d]);
      var rest := Join(parts[1..], [d]);
      assert s == p + [d] + rest;
      assert d !in p by { assert p in parts; }
      assert s[|p|] == d;
      assert d in s;
      assert s[..|p|] == p;
      var k := FirstIndex(s, d);
      assert k == |p|;
      assert s[k + 1..] == rest;
      forall q | q in parts[1..] ensures d !in q { assert q in parts; }
      SplitJoin(parts[1..], d);
    }
  }

  function Zeros(n: nat): (z: string)
    ensures |z| == n && forall i :: 0 <= i < n ==> z[i] == '0'
  {
    seq(n, _ => '0')
  }

  /** Python's `s.zfill(width)`: left-pad with '0' to `width`, keeping a leading sign in front. */
  function ZFill(s: string, width: nat): (r: string)
    ensures |r| == if |s| >= width then |s| else width
    ensures |s| >= width ==> r == s
    ensures (|s| == 0 || (s[0] != '+' && s[0] != '-')) ==>
              r[|r| - |s|..] == s && forall i :: 0 <= i < |r| - |s| ==> r[i] == '0'
  {
    if |s| >= width then s
    else if |s| > 0 && (s[0] == '+' || s[0] == '-') then [s[0]] + Zeros(width - |s|) + s[1..]
    else Zeros(width - |s|) + s
  }

  predicate IsDigit(c: char)
  {
    '0' <= c <= '9'
  }

  /** A non-empty string of decimal digits. */
  predicate IsDigits(s: string)
  {
    |s| > 0 && forall i :: 0 <= i < |s| ==> IsDigit(s[i])
  }

  function DigitChar(n: nat): (c: char)
    requires n < 10
    ensures IsDigit(c)
  {
    ('0' as int + n) as char
  }

  function DigitValue(c: char): (n: nat)
    requires IsDigit(c)
    ensures n < 10 && DigitChar(n) == c
  {
    c as int - '0' as int
  }

  /** The number a (possibly empty) digit string denotes, as `int(s)` reads it. */
  function ParseDigits(s: string): nat
    requires forall i :: 0 <= i < |s| ==> IsDigit(s[i])
  {
    if |s| == 0 then 0 else 10 * ParseDigits(s[..|s| - 1]) + DigitValue(s[|s| - 1])
  }

  /** `str(n)` for a natural number: its decimal digits, without leading zeros. */
  function NatText(n: nat): (s: string)
    ensures IsDigits(s)
    ensures |s| > 1 ==> s[0] != '0'
  {
    if n < 10 then [DigitChar(n)] else NatText(n / 10) + [DigitChar(n % 10)]
  }

  /** `str(i)` for an integer. */
  function IntText(i: int): string
  {
    if i < 0 then "-" + NatText(-i) else NatText(i)
  }

  /** Printing then parsing a natural number gives it back. */
  lemma {:induction false} ParseNatText(n: nat)
    ensures ParseDigits(NatText(n)) == n
  {
    if n >= 10 {
      ParseNatText(n / 10);
      var s := NatText(n);
      assert s[..|s| - 1] == NatText(n / 10);
    }
  }

  lemma {:induction false} ParsePositive(s: string)
    requires IsDigits(s) && s[0] != '0'
    ensures ParseDigits(s) >= 1
  {
    if |s| > 1 {
      ParsePositive(s[..|s| - 1]);
    }
  }

  /** Parsing then printing a digit string without a leading zero gives it back. */
  lemma {:induction false} NatTextParse(s: string)
    requires IsDigits(s) && (|s| == 1 || s[0] != '0')
    ensures NatText(ParseDigits(s)) == s
  {
    if |s| > 1 {
      var init := s[..|s| - 1];
      ParsePositive(init);
      NatTextParse(init);
      var n := ParseDigits(s);
      assert n / 10 == ParseDigits(init) && n % 10 == DigitValue(s[|s| - 1]);
      assert s == init + [s[|s| - 1]];
    }
  }

  /** A leading '0' does not change the number a digit string denotes. */
  lemma {:induction false} ParseLeadingZero(t: string)
    requires forall i :: 0 <= i < |t| ==> IsDigit(t[i])
    ensures ParseDigits("0" + t) == ParseDigits(t)
  {
    if |t| > 0 {
      var s := "0" + t;
      assert s[..|s| - 1] == "0" + t[..|t| - 1];
      ParseLeadingZero(t[..|t| - 1]);
    }
  }

  lemma ZFillDigits(r: string, w: nat)
    requires IsDigits(r) && |r| < w
    ensures ZFill(r, w) == Zeros(w - |r|) + r
  {
  }

  lemma ZerosCons(n: nat)
    ensures Zeros(n + 1) == "0" + Zeros(n)
  {
  }

  /** `str(int(s)).zfill(len(s)) == s` for every digit string `s`: the leading zeros that
      `int` drops are exactly the ones `zfill` puts back. */
  lemma {:induction false} ZFillParse(s: string)
    requires IsDigits(s)
    ensures ZFill(NatText(ParseDigits(s)), |s|) == s
    decreases |s|
  {
    if s[0] != '0' || |s| == 1 {
      NatTextParse(s);
    } else {
      var t := s[1..];
      assert s == "0" + t;
      ParseLeadingZero(t);
      var r := NatText(ParseDigits(t));
      ZFillParse(t);
      assert ZFill(r, |t|) == t;
      assert |r| <= |t|;
      ZFillDigits(r, |s|);
      if |r| < |t| {
        ZFillDigits(r, |t|);
      }
      ZerosCons(|t| - |r|);
    }
  }
}
