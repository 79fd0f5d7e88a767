/** Taking from and filtering sequences. */
module Seqs {
  /** The first n elements, or all of them. */
  function Take<T>(l: seq<T>, n: nat): (r: seq<T>)
    ensures |r| <= n && r <= l
  {
    if |l| <= n then l else l[..n]
  }

  function Filter<T>(s: seq<T>, p: T -> bool): (r: seq<T>)
    ensures |r| <= |s|
    ensures forall i | 0 <= i < |r| :: r[i] in s && p(r[i])
  {
    if s == [] then []
    else if p(s[0]) then [s[0]] + Filter(s[1..], p)
    else Filter(s[1..], p)
  }

  lemma FilterHead<T>(x: T, t: seq<T>, p: T -> bool)
    ensures Filter([x] + t, p) == (if p(x) then [x] else []) + Filter(t, p)
  {
    assert ([x] + t)[1..] == t;
  }

  lemma Regroup<T>(a: seq<T>, b: seq<T>, c: seq<T>)
    ensures a + (b + c) == a + b + c
  {
  }

  lemma {:induction false} FilterConcat<T>(a: seq<T>, b: seq<T>, p: T -> bool)
    ensures Filter(a + b, p) == Filter(a, p) + Filter(b, p)
  {
    if a == [] {
      assert a + b == b;
    } else {
      var x, t := a[0], a[1..];
      FilterConcat(t, b, p);
      FilterHead(x, t, p);
      FilterHead(x, t + b, p);
      Regroup(if p(x) then [x] else [], Filter(t, p), Filter(b, p));
      assert a == [x] + t && a + b == [x] + (t + b);
    }
  }

  lemma FilterAround<T>(a: seq<T>, x: T, b: seq<T>, p: T -> bool)
    ensures Filter(a + [x] + b, p) == Filter(a, p) + (if p(x) then [x] else []) + Filter(b, p)
  {
    FilterConcat(a, [x] + b, p);
    FilterHead(x, b, p);
    assert a + [x] + b == a + ([x] + b);
  }

  lemma {:induction false} FilterKeepsMembers<T>(s: seq<T>, p: T -> bool, x: T)
    requires x in s && p(x)
    ensures x in Filter(s, p)
  {
    if x != s[0] {
      FilterKeepsMembers(s[1..], p, x);
    }
  }

  lemma {:induction false} FilterAll<T>(s: seq<T>, p: T -> bool)
    requires forall x | x in s :: p(x)
    ensures Filter(s, p) == s
  {
    if s != [] {
      FilterAll(s[1..], p);
    }
  }

  lemma {:induction false} FilterNone<T>(s: seq<T>, p: T -> bool)
    requires forall x | x in s :: !p(x)
    ensures Filter(s, p) == []
  {
    if s != [] {
      FilterNone(s[1..], p);
    }
  }

  lemma {:induction false} FilterAgree<T>(s: seq<T>, p: T -> bool, q: T -> bool)
    requires forall x | x in s :: p(x) == q(x)
    ensures Filter(s, p) == Filter(s, q)
  {
    if s != [] {
      FilterAgree(s[1..], p, q);
    }
  }

  ghost predicate Distinct<T(!new)>(s: seq<T>) {
    forall i, j | 0 <= i < j < |s| :: s[i] != s[j]
  }

  lemma {:induction false} FilterDistinct<T(!new)>(s: seq<T>, p: T -> bool)
    requires Distinct(s)
    ensures Distinct(Filter(s, p))
  {
    if s != [] {
      FilterDistinct(s[1..], p);
      assert forall x | x in s[1..] :: x != s[0];
    }
  }
}
