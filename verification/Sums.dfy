/** Sums of a weight over the elements of a sequence. */
module Sums {

  function Sum<T>(f: T -> int, s: seq<T>): int {
    if s == [] then 0 else Sum(f, s[..|s| - 1]) + f(s[|s| - 1])
  }

  lemma {:induction false} SumUpdate<T>(f: T -> int, s: seq<T>, i: nat, x: T)
    requires i < |s|
    ensures Sum(f, s[i := x]) == Sum(f, s) - f(s[i]) + f(x)
  {
    var n := |s| - 1;
    if i < n {
      SumUpdate(f, s[..n], i, x);
      assert s[i := x][..n] == s[..n][i := x];
    } else {
      assert s[i := x][..n] == s[..n];
    }
  }

  /** A sum whose terms all move by d moves by d for each of them. */
  lemma {:induction false} SumShift<T>(f: T -> int, s: seq<T>, s': seq<T>, d: int)
    requires |s| == |s'|
    requires forall i :: 0 <= i < |s| ==> f(s'[i]) == f(s[i]) + d
    ensures Sum(f, s') == Sum(f, s) + d * |s|
  {
    if s != [] {
      var n := |s| - 1;
      SumShift(f, s[..n], s'[..n], d);
      assert d * |s| == d * n + d;
    }
  }

  lemma {:induction false} SumNonNegative<T>(f: T -> int, s: seq<T>)
    requires forall i :: 0 <= i < |s| ==> f(s[i]) >= 0
    ensures Sum(f, s) >= 0
    ensures Sum(f, s) == 0 <==> forall i :: 0 <= i < |s| ==> f(s[i]) == 0
  {
    if s != [] {
      var n := |s| - 1;
      SumNonNegative(f, s[..n]);
      assert forall i :: 0 <= i < n ==> s[..n][i] == s[i];
    }
  }

  /** Counting with a weight of 0 or 1. */
  lemma {:induction false} CountBounds<T>(f: T -> int, s: seq<T>)
    requires forall i :: 0 <= i < |s| ==> 0 <= f(s[i]) <= 1
    ensures 0 <= Sum(f, s) <= |s|
    ensures Sum(f, s) == |s| <==> forall i :: 0 <= i < |s| ==> f(s[i]) == 1
    ensures Sum(f, s) == 0 <==> forall i :: 0 <= i < |s| ==> f(s[i]) == 0
  {
    if s != [] {
      var n := |s| - 1;
      CountBounds(f, s[..n]);
      assert forall i :: 0 <= i < n ==> s[..n][i] == s[i];
    }
  }
}
