/** Sums of multisets and of numbers over sequences, and sizes of sets. */
module Bags {

  /** The sum of f over s. */
  ghost function Sum<T, U>(f: T -> multiset<U>, s: seq<T>): multiset<U> {
    if s == [] then multiset{} else Sum(f, s[..|s| - 1]) + f(s[|s| - 1])
  }

  ghost function Total<T>(f: T -> nat, s: seq<T>): nat {
    if s == [] then 0 else Total(f, s[..|s| - 1]) + f(s[|s| - 1])
  }

  lemma Cancel<U>(a: multiset<U>, b: multiset<U>, c: multiset<U>)
    requires a + c == b + c
    ensures a == b
  {
    forall x ensures a[x] == b[x] {
      assert (a + c)[x] == a[x] + c[x] && (b + c)[x] == b[x] + c[x];
    }
  }

  lemma SumAppend<T, U>(f: T -> multiset<U>, s: seq<T>, x: T)
    ensures Sum(f, s + [x]) == Sum(f, s) + f(x)
  {
    assert (s + [x])[..|s|] == s;
  }

  lemma TotalAppend<T>(f: T -> nat, s: seq<T>, x: T)
    ensures Total(f, s + [x]) == Total(f, s) + f(x)
  {
    assert (s + [x])[..|s|] == s;
  }

  lemma {:induction false} SumUpdate<T, U>(f: T -> multiset<U>, s: seq<T>, i: nat, x: T)
    requires i < |s|
    ensures Sum(f, s[i := x]) + f(s[i]) == Sum(f, s) + f(x)
  {
    var n := |s| - 1;
    if i < n {
      SumUpdate(f, s[..n], i, x);
      assert s[i := x][..n] == s[..n][i := x];
      assert s[..n][i] == s[i] && s[i := x][n] == s[n];
      calc {
        Sum(f, s[i := x]) + f(s[i]);
        (Sum(f, s[..n][i := x]) + f(s[n])) + f(s[i]);
        (Sum(f, s[..n][i := x]) + f(s[i])) + f(s[n]);
        (Sum(f, s[..n]) + f(x)) + f(s[n]);
        Sum(f, s) + f(x);
      }
    } else {
      assert s[i := x][..n] == s[..n];
    }
  }

  lemma {:induction false} TotalUpdate<T>(f: T -> nat, s: seq<T>, i: nat, x: T)
    requires i < |s|
    ensures Total(f, s[i := x]) + f(s[i]) == Total(f, s) + f(x)
  {
    var n := |s| - 1;
    if i < n {
      TotalUpdate(f, s[..n], i, x);
      assert s[i := x][..n] == s[..n][i := x];
    } else {
      assert s[i := x][..n] == s[..n];
    }
  }

  lemma {:induction false} SumEmpty<T, U>(f: T -> multiset<U>, s: seq<T>)
    requires forall i :: 0 <= i < |s| ==> f(s[i]) == multiset{}
    ensures Sum(f, s) == multiset{}
  {
    if s != [] {
      SumEmpty(f, s[..|s| - 1]);
    }
  }

  lemma {:induction false} TotalZero<T>(f: T -> nat, s: seq<T>)
    ensures Total(f, s) == 0 <==> forall i :: 0 <= i < |s| ==> f(s[i]) == 0
  {
    if s != [] {
      var n := |s| - 1;
      TotalZero(f, s[..n]);
      assert forall i :: 0 <= i < n ==> s[..n][i] == s[i];
    }
  }

  lemma {:induction false} SumSame<T, U>(f: T -> multiset<U>, s: seq<T>, r: seq<T>)
    requires |s| == |r| && forall i :: 0 <= i < |s| ==> f(s[i]) == f(r[i])
    ensures Sum(f, s) == Sum(f, r)
  {
    if s != [] {
      SumSame(f, s[..|s| - 1], r[..|r| - 1]);
    }
  }

  /** One element's share is part of the sum. */
  lemma {:induction false} SumContains<T, U>(f: T -> multiset<U>, s: seq<T>, i: nat)
    requires i < |s|
    ensures f(s[i]) <= Sum(f, s)
  {
    if i < |s| - 1 {
      SumContains(f, s[..|s| - 1], i);
    }
  }

  lemma {:induction false} SumSize<T, U>(f: T -> multiset<U>, g: T -> nat, s: seq<T>)
    requires forall i :: 0 <= i < |s| ==> |f(s[i])| == g(s[i])
    ensures |Sum(f, s)| == Total(g, s)
  {
    if s != [] {
      SumSize(f, g, s[..|s| - 1]);
    }
  }

  lemma {:induction false} SumConcat<T, U>(f: T -> multiset<U>, s: seq<T>, r: seq<T>)
    ensures Sum(f, s + r) == Sum(f, s) + Sum(f, r)
  {
    if r == [] {
      assert s + r == s;
    } else {
      var n := |r| - 1;
      SumConcat(f, s, r[..n]);
      assert (s + r)[..|s| + n] == s + r[..n];
    }
  }

  lemma {:induction false} TotalConcat<T>(f: T -> nat, s: seq<T>, r: seq<T>)
    ensures Total(f, s + r) == Total(f, s) + Total(f, r)
  {
    if r == [] {
      assert s + r == s;
    } else {
      var n := |r| - 1;
      TotalConcat(f, s, r[..n]);
      assert (s + r)[..|s| + n] == s + r[..n];
    }
  }

  /** Sums do not depend on the order. */
  lemma {:induction false} SumPermutation<T, U>(f: T -> multiset<U>, s: seq<T>, r: seq<T>)
    requires multiset(s) == multiset(r)
    ensures Sum(f, s) == Sum(f, r)
    decreases |s|
  {
    if s == [] {
      assert |multiset(r)| == 0;
    } else {
      var n, x := |s| - 1, s[|s| - 1];
      assert s == s[..n] + [x];
      assert x in multiset(r);
      var i :| 0 <= i < |r| && r[i] == x;
      var r' := r[..i] + r[i + 1..];
      assert r == r[..i] + ([x] + r[i + 1..]);
      assert multiset(r) == multiset(r[..i]) + (multiset{x} + multiset(r[i + 1..]));
      assert multiset(s) == multiset(s[..n]) + multiset{x};
      assert multiset(r') == multiset(r[..i]) + multiset(r[i + 1..]);
      Cancel(multiset(r'), multiset(s[..n]), multiset{x});
      SumPermutation(f, s[..n], r');
      SumConcat(f, r[..i], [x] + r[i + 1..]);
      SumConcat(f, [x], r[i + 1..]);
      SumConcat(f, r[..i], r[i + 1..]);
      assert [x][..0] == [];
    }
  }

  lemma {:induction false} TotalPermutation<T>(f: T -> nat, s: seq<T>, r: seq<T>)
    requires multiset(s) == multiset(r)
    ensures Total(f, s) == Total(f, r)
    decreases |s|
  {
    if s == [] {
      assert |multiset(r)| == 0;
    } else {
      var n, x := |s| - 1, s[|s| - 1];
      assert s == s[..n] + [x];
      assert x in multiset(r);
      var i :| 0 <= i < |r| && r[i] == x;
      var r' := r[..i] + r[i + 1..];
      assert r == r[..i] + ([x] + r[i + 1..]);
      assert multiset(r) == multiset(r[..i]) + (multiset{x} + multiset(r[i + 1..]));
      assert multiset(s) == multiset(s[..n]) + multiset{x};
      assert multiset(r') == multiset(r[..i]) + multiset(r[i + 1..]);
      Cancel(multiset(r'), multiset(s[..n]), multiset{x});
      TotalPermutation(f, s[..n], r');
      TotalConcat(f, r[..i], [x] + r[i + 1..]);
      TotalConcat(f, [x], r[i + 1..]);
      TotalConcat(f, r[..i], r[i + 1..]);
      assert [x][..0] == [];
    }
  }

  function Min(x: int, y: int): int { if x < y then x else y }

  // ---------- Sizes of sets ----------

  lemma {:induction false} SubsetSize<T>(a: set<T>, b: set<T>)
    requires a <= b
    ensures |a| <= |b|
  {
    if a != {} {
      var x :| x in a;
      SubsetSize(a - {x}, b - {x});
    }
  }

  lemma SubsetOfSize<T>(a: set<T>, b: set<T>)
    requires a <= b && |a| == |b|
    ensures a == b
  {
    if exists x :: x in b && x !in a {
      var x :| x in b && x !in a;
      SubsetSize(a, b - {x});
      assert false;
    }
  }

  /** The first n numbers. */
  function Below(n: nat): (numbers: set<nat>)
    ensures forall t: int :: t in numbers <==> 0 <= t < n
    ensures |numbers| == n
  {
    if n == 0 then {} else Below(n - 1) + {n - 1}
  }
}
