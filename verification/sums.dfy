// Finite sums and powers of two, the arithmetic the code-length proofs rest on.
module Sums {

  function Pow2(n: nat): (r: nat)
    ensures r > 0
  {
    if n == 0 then 1 else 2 * Pow2(n - 1)
  }

  lemma {:induction false} Pow2Add(m: nat, n: nat)
    ensures Pow2(m + n) == Pow2(m) * Pow2(n)
  {
    if m == 0 {
    } else {
      Pow2Add(m - 1, n);
    }
  }

  function Sum(s: seq<nat>): nat {
    if s == [] then 0 else Sum(s[..|s| - 1]) + s[|s| - 1]
  }

  lemma {:induction false} SumUpdate(s: seq<nat>, i: nat, v: nat)
    requires i < |s|
    ensures Sum(s[i := v]) + s[i] == Sum(s) + v
  {
    var n := |s| - 1;
    if i == n {
      assert s[i := v][..n] == s[..n];
    } else {
      assert s[i := v][..n] == s[..n][i := v];
      SumUpdate(s[..n], i, v);
    }
  }

  lemma {:induction false} SumZero(s: seq<nat>)
    requires forall i :: 0 <= i < |s| ==> s[i] == 0
    ensures Sum(s) == 0
  {
    if s != [] { SumZero(s[..|s| - 1]); }
  }

  lemma {:induction false} SumAtLeast(s: seq<nat>, i: nat)
    requires i < |s|
    ensures s[i] <= Sum(s)
  {
    SumUpdate(s, i, 0);
  }

  lemma {:induction false} SumAtLeastTwo(s: seq<nat>, i: nat, k: nat)
    requires i < |s| && k < |s| && i != k
    ensures s[i] + s[k] <= Sum(s)
  {
    SumUpdate(s, i, 0);
    SumAtLeast(s[i := 0], k);
  }

  // t == c * s + u, element by element.
  lemma {:induction false} SumLinear(t: seq<nat>, c: nat, s: seq<nat>, u: seq<nat>)
    requires |s| == |t| == |u|
    requires forall i :: 0 <= i < |s| ==> t[i] == c * s[i] + u[i]
    ensures Sum(t) == c * Sum(s) + Sum(u)
  {
    if s != [] {
      var n := |s| - 1;
      SumLinear(t[..n], c, s[..n], u[..n]);
      assert t[n] == c * s[n] + u[n];
      assert c * Sum(s) == c * Sum(s[..n]) + c * s[n];
    }
  }

  lemma {:induction false} SumAdd(t: seq<nat>, s: seq<nat>, u: seq<nat>)
    requires |s| == |t| == |u|
    requires forall i :: 0 <= i < |s| ==> t[i] == s[i] + u[i]
    ensures Sum(t) == Sum(s) + Sum(u)
  {
    forall i | 0 <= i < |s| ensures t[i] == 1 * s[i] + u[i] {}
    SumLinear(t, 1, s, u);
  }
}
