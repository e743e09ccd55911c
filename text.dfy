/** The few `str` operations of Python that the modelled code uses. */
module Text {
  import opened Results

  /** `s.startswith(prefix)` */
  predicate StartsWith(s: string, prefix: string) {
    |prefix| <= |s| && s[..|prefix|] == prefix
  }

  /** `s.endswith(suffix)` */
  predicate EndsWith(s: string, suffix: string) {
    |suffix| <= |s| && s[|s| - |suffix|..] == suffix
  }

  /** `s + suffix` ends with `suffix`. */
  lemma {:induction false} EndsWithAppend(s: string, suffix: string)
    ensures EndsWith(s + suffix, suffix)
  {
    assert (s + suffix)[|s + suffix| - |suffix|..] == suffix;
  }

  /** A suffix of a suffix is a suffix. */
  lemma {:induction false} EndsWithTrans(s: string, t: string, u: string)
    requires EndsWith(s, t) && EndsWith(t, u)
    ensures EndsWith(s, u)
  {
    assert s[|s| - |u|..] == s[|s| - |t|..][|t| - |u|..];
  }

  /** `s.split(c)` for a one-character separator `c`. */
  function Split(s: string, c: char): (parts: seq<string>)
    ensures |parts| >= 1
    ensures forall i :: 0 <= i < |parts| ==> c !in parts[i]
  {
    if s == [] then [""]
    else
      var rest := Split(s[1..], c);
      if s[0] == c then [""] + rest
      else [[s[0]] + rest[0]] + rest[1..]
  }

  /** `c.join(parts)` */
  function Join(parts: seq<string>, c: char): string
    requires |parts| >= 1
  {
    if |parts| == 1 then parts[0] else Join(parts[..|parts| - 1], c) + [c] + parts[|parts| - 1]
  }

  /** A string without the separator is one piece. */
  lemma {:induction false} SplitNoSeparator(s: string, c: char)
    requires c !in s
    ensures Split(s, c) == [s]
  {
    if s != [] {
      SplitNoSeparator(s[1..], c);
      assert [s[0]] + s[1..] == s;
    }
  }

  /** Splitting `a + c + b`, where `b` holds no separator, adds `b` as the last piece. */
  lemma {:induction false} SplitAppend(a: string, b: string, c: char)
    requires c !in b
    ensures Split(a + [c] + b, c) == Split(a, c) + [b]
    decreases |a|
  {
    if a == [] {
      assert a + [c] + b == [c] + b;
      assert ([c] + b)[1..] == b;
      SplitNoSeparator(b, c);
    } else {
      assert (a + [c] + b)[1..] == a[1..] + [c] + b;
      SplitAppend(a[1..], b, c);
    }
  }

  /** Splitting undoes joining pieces that hold no separator. */
  lemma {:induction false} SplitJoin(parts: seq<string>, c: char)
    requires |parts| >= 1
    requires forall i :: 0 <= i < |parts| ==> c !in parts[i]
    ensures Split(Join(parts, c), c) == parts
  {
    if |parts| == 1 {
      SplitNoSeparator(parts[0], c);
    } else {
      var init := parts[..|parts| - 1];
      SplitJoin(init, c);
      SplitAppend(Join(init, c), parts[|parts| - 1], c);
      assert init + [parts[|parts| - 1]] == parts;
    }
  }

  /** The index of the first occurrence of `c` in `s`. */
  function IndexOf(s: string, c: char): (i: nat)
    requires c in s
    ensures i < |s| && s[i] == c && c !in s[..i]
  {
    if s[0] == c then 0
    else
      var j := IndexOf(s[1..], c);
      assert s[..j + 1] == [s[0]] + s[1..][..j];
      1 + j
  }

  /** The first occurrence of `c` in `a + [c] + b` is just after `a` when `a` holds no `c`. */
  lemma {:induction false} IndexOfAfter(a: string, b: string, c: char)
    requires c !in a
    ensures c in a + [c] + b && IndexOf(a + [c] + b, c) == |a|
  {
    var s := a + [c] + b;
    assert s[|a|] == c;
    assert s[..|a|] == a;
  }

  /** `s.replace(from, to)` for one-character strings. */
  function ReplaceChar(s: string, from: char, to: char): (r: string)
    ensures |r| == |s|
    ensures forall i :: 0 <= i < |s| ==> r[i] == if s[i] == from then to else s[i]
  {
    seq(|s|, i requires 0 <= i < |s| => if s[i] == from then to else s[i])
  }

  /** The last `n` characters removed, as the slice `s[:-n]` does: too short a string gives "". */
  function DropLast(s: string, n: nat): (r: string)
    requires n > 0
  {
    if |s| >= n then s[..|s| - n] else ""
  }

  // ----- decimal digits -----

  function DigitChar(d: int): char
    requires 0 <= d < 10
  {
    "0123456789"[d]
  }

  function DigitValue(ch: char): Option<int> {
    if '0' <= ch <= '9' then Some(ch as int - '0' as int) else None
  }

  lemma {:induction false} DigitRoundTrip(d: int)
    requires 0 <= d < 10
    ensures DigitValue(DigitChar(d)) == Some(d)
  {
  }

  function Pow10(k: nat): (p: nat)
    ensures p >= 1
  {
    if k == 0 then 1 else 10 * Pow10(k - 1)
  }

  /** `str(n)` for a non-negative integer. */
  function NatToString(n: nat): (s: string)
    ensures |s| >= 1
  {
    if n < 10 then [DigitChar(n)] else NatToString(n / 10) + [DigitChar(n % 10)]
  }

  /** `str(n)` for any integer. */
  function IntToString(n: int): (s: string)
    ensures n >= 0 ==> s == NatToString(n)
    ensures n < 0 ==> s == "-" + NatToString(-n)
  {
    if n < 0 then "-" + NatToString(-n) else NatToString(n)
  }

  /** `str(n)` has at most `k` digits exactly when `n < 10^k`. */
  lemma {:induction false} NatToStringLength(n: nat, k: nat)
    requires k >= 1
    ensures |NatToString(n)| <= k <==> n < Pow10(k)
  {
    if n >= 10 && k > 1 {
      NatToStringLength(n / 10, k - 1);
    } else if n >= 10 {
      assert |NatToString(n)| >= 2 by {
        assert |NatToString(n / 10)| >= 1;
      }
    }
  }

  /** `str(n)` has exactly `k + 1` digits when `10^k <= n < 10^(k + 1)`. */
  lemma {:induction false} DigitCount(n: nat, k: nat)
    requires k >= 1
    ensures |NatToString(n)| == k + 1 <==> Pow10(k) <= n < Pow10(k + 1)
  {
    NatToStringLength(n, k + 1);
    NatToStringLength(n, k);
  }

  /** `'%02d' % n` */
  function Pad2(n: int): (s: string)
    requires 0 <= n < 100
    ensures |s| == 2
  {
    [DigitChar(n / 10), DigitChar(n % 10)]
  }

  /** `'%04d' % n` */
  function Pad4(n: int): (s: string)
    requires 0 <= n < 10000
    ensures |s| == 4
  {
    [DigitChar(n / 1000), DigitChar(n / 100 % 10), DigitChar(n / 10 % 10), DigitChar(n % 10)]
  }

  /** The value of a string of decimal digits, `None` when some character is not a digit. */
  function ParseDigits(s: string): Option<nat>
    requires |s| > 0
  {
    match DigitValue(s[|s| - 1])
    case None => None
    case Some(d) =>
      if |s| == 1 then Some(d)
      else
        match ParseDigits(s[..|s| - 1])
        case None => None
        case Some(v) => Some(10 * v + d)
  }

  lemma {:induction false} Pad2RoundTrip(n: int)
    requires 0 <= n < 100
    ensures ParseDigits(Pad2(n)) == Some(n)
  {
    var s := Pad2(n);
    assert s[..1] == [DigitChar(n / 10)];
    DigitRoundTrip(n / 10);
    DigitRoundTrip(n % 10);
  }

  /** Appending a digit multiplies the value by ten and adds the digit. */
  lemma {:induction false} ParseDigitsSnoc(s: string, d: int)
    requires |s| > 0 && 0 <= d < 10 && ParseDigits(s).Some?
    ensures ParseDigits(s + [DigitChar(d)]) == Some(10 * ParseDigits(s).value + d)
  {
    var t := s + [DigitChar(d)];
    var v := ParseDigits(s).value;
    assert t[..|t| - 1] == s;
    DigitRoundTrip(d);
    assert DigitValue(t[|t| - 1]) == Some(d);
    assert ParseDigits(t) == Some(10 * v + d);
  }

  /** The four decimal digits of `n`, recombined from the left. */
  lemma {:induction false} FourDigits(n: int)
    requires 0 <= n < 10000
    ensures 0 <= n / 1000 < 10
    ensures n / 100 == 10 * (n / 1000) + n / 100 % 10
    ensures n / 10 == 10 * (n / 100) + n / 10 % 10
    ensures n == 10 * (n / 10) + n % 10
  {
    var q := n / 10;
    var h := q / 10;
    assert n / 100 == h;
    assert n / 1000 == h / 10;
  }

  lemma {:induction false} Pad4RoundTrip(n: int)
    requires 0 <= n < 10000
    ensures ParseDigits(Pad4(n)) == Some(n)
  {
    FourDigits(n);
    var a, b, c, d := n / 1000, n / 100 % 10, n / 10 % 10, n % 10;
    DigitRoundTrip(a);
    var s1, s2, s3 := [DigitChar(a)], [DigitChar(a), DigitChar(b)], [DigitChar(a), DigitChar(b), DigitChar(c)];
    assert ParseDigits(s1) == Some(a);
    ParseDigitsSnoc(s1, b);
    assert s1 + [DigitChar(b)] == s2;
    ParseDigitsSnoc(s2, c);
    assert s2 + [DigitChar(c)] == s3;
    ParseDigitsSnoc(s3, d);
    assert s3 + [DigitChar(d)] == Pad4(n);
  }
}
