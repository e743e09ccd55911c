/** List comprehensions over Python lists, as functions on sequences. */
module Seqs {
  import opened Results

  /** `a` is `b` with some elements left out and the rest in their original order. */
  ghost predicate IsSubseq<T>(a: seq<T>, b: seq<T>)
    decreases |b|
  {
    a == [] || (b != [] && ((a[0] == b[0] && IsSubseq(a[1..], b[1..])) || IsSubseq(a, b[1..])))
  }

  /** Every sequence is a subsequence of itself. */
  lemma {:induction false} SubseqRefl<T>(a: seq<T>)
    ensures IsSubseq(a, a)
  {
    if a != [] {
      SubseqRefl(a[1..]);
    }
  }

  /** A subsequence of a subsequence is a subsequence: the filters of a listing compose. */
  lemma {:induction false} SubseqTrans<T>(a: seq<T>, b: seq<T>, c: seq<T>)
    requires IsSubseq(a, b) && IsSubseq(b, c)
    ensures IsSubseq(a, c)
    decreases |c|
  {
    if a == [] {
    } else if b[0] == c[0] && IsSubseq(b[1..], c[1..]) {
      if a[0] == b[0] && IsSubseq(a[1..], b[1..]) {
        SubseqTrans(a[1..], b[1..], c[1..]);
      } else {
        SubseqTrans(a, b[1..], c[1..]);
      }
    } else {
      SubseqTrans(a, b, c[1..]);
    }
  }

  /** The comprehension `[x for x in s if p(x)]`. */
  function Keep<T(!new)>(s: seq<T>, p: T -> bool): (r: seq<T>)
    ensures |r| <= |s|
    ensures forall x :: x in r <==> x in s && p(x)
    ensures (forall i :: 0 <= i < |s| ==> p(s[i])) ==> r == s
  {
    if s == [] then []
    else if p(s[0]) then [s[0]] + Keep(s[1..], p)
    else Keep(s[1..], p)
  }

  /** The comprehension keeps the order of what it keeps. */
  lemma {:induction false} KeepIsSubseq<T(!new)>(s: seq<T>, p: T -> bool)
    ensures IsSubseq(Keep(s, p), s)
  {
    if s != [] {
      KeepIsSubseq(s[1..], p);
    }
  }

  /** The comprehension `[x for x in s if test(x)]` where evaluating `test` may raise:
      the first element whose test raises makes the whole comprehension raise. */
  function FilterR<T(!new)>(s: seq<T>, test: T -> Result<bool>): (r: Result<seq<T>>)
    ensures r.Ok? <==> forall i :: 0 <= i < |s| ==> test(s[i]).Ok?
    ensures r.Ok? ==> forall x :: x in r.value <==> x in s && test(x) == Ok(true)
    ensures r.Ok? ==> IsSubseq(r.value, s)
    ensures r.Ok? ==> |r.value| <= |s|
    ensures (forall i :: 0 <= i < |s| ==> test(s[i]) == Ok(true)) ==> r == Ok(s)
    ensures r.Err? ==> exists i :: 0 <= i < |s| && test(s[i]) == Err(r.error) &&
                                   forall j :: 0 <= j < i ==> test(s[j]).Ok?
  {
    if s == [] then Ok([])
    else
      match test(s[0])
      case Err(e) => Err(e)
      case Ok(keep) =>
        match FilterR(s[1..], test)
        case Err(e) =>
          assert forall i :: 1 <= i < |s| ==> s[i] == s[1..][i - 1];
          Err(e)
        case Ok(rest) =>
          assert (forall i :: 0 <= i < |s| ==> test(s[i]) == Ok(true)) ==>
                 forall i :: 0 <= i < |s[1..]| ==> test(s[1..][i]) == Ok(true);
          assert s == [s[0]] + s[1..];
          Ok(if keep then [s[0]] + rest else rest)
  }

  /** The comprehension `[f(x) for x in s]` where evaluating `f` may raise. */
  function MapR<T, U>(s: seq<T>, f: T -> Result<U>): (r: Result<seq<U>>)
    ensures r.Ok? <==> forall i :: 0 <= i < |s| ==> f(s[i]).Ok?
    ensures r.Ok? ==> |r.value| == |s| && forall i :: 0 <= i < |s| ==> r.value[i] == f(s[i]).value
    ensures r.Err? ==> exists i :: 0 <= i < |s| && f(s[i]) == Err(r.error)
  {
    if s == [] then Ok([])
    else
      match f(s[0])
      case Err(e) => Err(e)
      case Ok(v) =>
        match MapR(s[1..], f)
        case Err(e) =>
          assert forall i :: 1 <= i < |s| ==> s[i] == s[1..][i - 1];
          Err(e)
        case Ok(rest) => Ok([v] + rest)
  }

  /** Python's `min` of a non-empty list. */
  function Min(s: seq<int>): (m: int)
    requires |s| > 0
    ensures m in s && forall x :: x in s ==> m <= x
  {
    if |s| == 1 then s[0]
    else
      var m := Min(s[1..]);
      assert forall x :: x in s ==> x == s[0] || x in s[1..];
      if s[0] <= m then s[0] else m
  }

  /** Python's `max` of a non-empty list. */
  function Max(s: seq<int>): (m: int)
    requires |s| > 0
    ensures m in s && forall x :: x in s ==> x <= m
  {
    if |s| == 1 then s[0]
    else
      var m := Max(s[1..]);
      assert forall x :: x in s ==> x == s[0] || x in s[1..];
      if s[0] >= m then s[0] else m
  }
}
