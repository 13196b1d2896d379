/** Sequences without repetition, and removal of one entry. */
module Sequences {
  datatype Option<+T> = None | Some(value: T)

  ghost predicate Distinct<T>(s: seq<T>) {
    forall i, j :: 0 <= i < j < |s| ==> s[i] != s[j]
  }

  /** `s` without its first occurrence of `x`. */
  ghost function Without<T>(s: seq<T>, x: T): (r: seq<T>)
    ensures |r| <= |s|
  {
    if s == [] then [] else if s[0] == x then s[1..] else [s[0]] + Without(s[1..], x)
  }

  lemma {:induction false} WithoutMembers<T>(s: seq<T>, x: T, y: T)
    requires Distinct(s)
    ensures y in Without(s, x) <==> y in s && y != x
  {
    if s != [] {
      assert s == [s[0]] + s[1..];
      assert s[0] !in s[1..];
      if s[0] != x {
        WithoutMembers(s[1..], x, y);
      }
    }
  }

  lemma {:induction false} WithoutFacts<T>(s: seq<T>, x: T)
    requires Distinct(s)
    ensures Distinct(Without(s, x))
    ensures forall y {:trigger y in Without(s, x)} :: y in Without(s, x) <==> y in s && y != x
  {
    if s != [] && s[0] != x {
      WithoutFacts(s[1..], x);
      WithoutMembers(s[1..], x, s[0]);
    }
    forall y: T
      ensures y in Without(s, x) <==> y in s && y != x
    {
      WithoutMembers(s, x, y);
    }
  }

  /** Different numbers below `n` are at most `n`. */
  lemma {:induction false} Pigeonhole(s: seq<nat>, n: nat)
    requires Distinct(s) && forall x :: x in s ==> x < n
    ensures |s| <= n
    decreases n
  {
    assert s != [] ==> s[0] in s && s[0] < n;
    if s != [] {
      var t := Without<nat>(s, n - 1);
      WithoutFacts<nat>(s, n - 1);
      WithoutLength<nat>(s, n - 1);
      assert forall x :: x in t ==> x in s && x != n - 1;
      Pigeonhole(t, n - 1);
    }
  }

  lemma {:induction false} WithoutLength<T>(s: seq<T>, x: T)
    ensures |Without(s, x)| == if x in s then |s| - 1 else |s|
  {
    if s != [] && s[0] != x {
      WithoutLength(s[1..], x);
    }
  }

  lemma {:induction false} WithoutOther<T>(s: seq<T>, x: T, y: T)
    requires y in s && y != x
    ensures y in Without(s, x)
  {
    if s[0] != x && s[0] != y {
      WithoutOther(s[1..], x, y);
    }
  }

  lemma CutTail<T>(l: seq<T>, i: nat)
    requires 0 < i < |l|
    ensures [l[0]] + (l[1..][..i - 1] + l[1..][i..]) == l[..i] + l[i + 1..]
  {
  }

  lemma {:induction false} WithoutAt<T>(l: seq<T>, i: nat)
    requires Distinct(l) && i < |l|
    ensures Without(l, l[i]) == l[..i] + l[i + 1..]
  {
    if i == 0 {
      assert l[..0] == [];
    } else {
      CutTail(l, i);
      WithoutAt(l[1..], i - 1);
    }
  }

  lemma {:induction false} WithoutNone<T>(s: seq<T>, x: T)
    requires x !in s
    ensures Without(s, x) == s
  {
    if s != [] { WithoutNone(s[1..], x); }
  }
}
