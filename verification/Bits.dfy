/**
 * Words as sequences of bits, lowest bit first, with the masks, shifts and ors of C defined bit by
 * bit. `Handles` and `Status` compute with quotients, remainders and sums of the numbers that the
 * words stand for; here both are shown to agree.
 */
module Bits {
  import opened Arith

  type Bits = seq<bool>

  function Pow2(k: nat): (p: nat)
    ensures p > 0
  {
    if k == 0 then 1 else 2 * Pow2(k - 1)
  }

  function Bit(b: bool): nat {
    if b then 1 else 0
  }

  /** The number a word stands for. */
  function Val(s: Bits): nat {
    if s == [] then 0 else Bit(s[0]) + 2 * Val(s[1..])
  }

  function Zeros(n: nat): Bits {
    seq(n, _ => false)
  }

  // A mask of n bits with ones from bit lo up to bit hi.
  function Ones(n: nat, lo: nat, hi: nat): Bits {
    seq(n, i => lo <= i < hi)
  }

  function And(a: Bits, b: Bits): Bits
    requires |a| == |b|
  {
    seq(|a|, i requires 0 <= i < |a| => a[i] && b[i])
  }

  function Or(a: Bits, b: Bits): Bits
    requires |a| == |b|
  {
    seq(|a|, i requires 0 <= i < |a| => a[i] || b[i])
  }

  function Shr(a: Bits, k: nat): Bits
    requires k <= |a|
  {
    a[k..] + Zeros(k)
  }

  function Shl(a: Bits, k: nat): Bits
    requires k <= |a|
  {
    Zeros(k) + a[..|a| - k]
  }

  // ---- The numbers ----

  lemma {:induction false} ValSplit(s: Bits, k: nat)
    requires k <= |s|
    ensures Val(s) == Val(s[..k]) + Pow2(k) * Val(s[k..]) && Val(s[..k]) < Pow2(k)
  {
    if k > 0 {
      var t := s[1..];
      ValSplit(t, k - 1);
      assert s[..k][1..] == t[..k - 1] && t[k - 1..] == s[k..];
      Twice(Pow2(k - 1), Val(s[k..]));
    }
  }

  lemma Twice(p: nat, v: nat)
    ensures 2 * (p * v) == 2 * p * v
  {
  }

  lemma {:induction false} ValZeros(n: nat)
    ensures Val(Zeros(n)) == 0
  {
    if n > 0 {
      assert Zeros(n)[1..] == Zeros(n - 1);
      ValZeros(n - 1);
    }
  }

  // Zeros on top change nothing, zeros below multiply.
  lemma ValPadded(s: Bits, n: nat)
    ensures Val(s + Zeros(n)) == Val(s)
  {
    var t := s + Zeros(n);
    ValSplit(t, |s|);
    assert t[..|s|] == s && t[|s|..] == Zeros(n);
    ValZeros(n);
  }

  lemma ValRaised(s: Bits, n: nat)
    ensures Val(Zeros(n) + s) == Pow2(n) * Val(s)
  {
    var t := Zeros(n) + s;
    ValSplit(t, n);
    assert t[..n] == Zeros(n) && t[n..] == s;
    ValZeros(n);
  }

  /** The bits from lo up to hi are a quotient and a remainder. */
  lemma FieldVal(s: Bits, lo: nat, hi: nat)
    requires lo <= hi <= |s|
    ensures Val(s[lo..hi]) == Val(s) / Pow2(lo) % Pow2(hi - lo)
  {
    var t := s[lo..];
    ValSplit(s, lo);
    ValSplit(t, hi - lo);
    assert t[..hi - lo] == s[lo..hi];
    Quotient(Val(s), Pow2(lo), Val(t), Val(s[..lo]));
    Quotient(Val(t), Pow2(hi - lo), Val(t[hi - lo..]), Val(s[lo..hi]));
  }

  lemma Quotient(v: nat, unit: nat, q: nat, r: nat)
    requires unit > 0 && v == r + unit * q && r < unit
    ensures v / unit == q && v % unit == r
  {
    DivModUnique(unit, q, r);
  }

  /** A mask and a shift read a field. */
  lemma MaskShift(s: Bits, lo: nat, hi: nat)
    requires lo <= hi <= |s|
    ensures Val(Shr(And(s, Ones(|s|, lo, hi)), lo)) == Val(s) / Pow2(lo) % Pow2(hi - lo)
  {
    assert Shr(And(s, Ones(|s|, lo, hi)), lo) == s[lo..hi] + Zeros(|s| - (hi - lo));
    ValPadded(s[lo..hi], |s| - (hi - lo));
    FieldVal(s, lo, hi);
  }

  /** A mask alone keeps the field in its place. */
  lemma MaskVal(s: Bits, lo: nat, hi: nat)
    requires lo <= hi <= |s|
    ensures Val(And(s, Ones(|s|, lo, hi))) == Pow2(lo) * (Val(s) / Pow2(lo) % Pow2(hi - lo))
  {
    var field := s[lo..hi];
    assert And(s, Ones(|s|, lo, hi)) == Zeros(lo) + (field + Zeros(|s| - hi));
    ValRaised(field + Zeros(|s| - hi), lo);
    ValPadded(field, |s| - hi);
    FieldVal(s, lo, hi);
  }

  lemma LowMask(s: Bits, k: nat)
    requires k <= |s|
    ensures Val(And(s, Ones(|s|, 0, k))) == Val(s) % Pow2(k)
  {
    assert And(s, Ones(|s|, 0, k)) == s[..k] + Zeros(|s| - k);
    ValPadded(s[..k], |s| - k);
    ValSplit(s, k);
    Quotient(Val(s), Pow2(k), Val(s[k..]), Val(s[..k]));
  }

  predicate Apart(a: Bits, b: Bits)
    requires |a| == |b|
  {
    forall i :: 0 <= i < |a| ==> !(a[i] && b[i])
  }

  /** An or of words that do not overlap is a sum. */
  lemma {:induction false} OrVal(a: Bits, b: Bits)
    requires |a| == |b| && Apart(a, b)
    ensures Val(Or(a, b)) == Val(a) + Val(b)
    decreases |a|
  {
    if a != [] {
      OrVal(a[1..], b[1..]);
      assert Or(a, b)[1..] == Or(a[1..], b[1..]);
    }
  }

  /** A left shift multiplies, if no bit is lost. */
  lemma ShlVal(a: Bits, k: nat)
    requires k <= |a| && Val(a) < Pow2(|a| - k)
    ensures Val(Shl(a, k)) == Pow2(k) * Val(a)
  {
    ValRaised(a[..|a| - k], k);
    HighZero(a, |a| - k);
    ValSplit(a, |a| - k);
  }

  lemma {:induction false} ZeroVal(s: Bits)
    requires Val(s) == 0
    ensures forall i :: 0 <= i < |s| ==> !s[i]
  {
    if s != [] {
      ZeroVal(s[1..]);
      assert forall i :: 1 <= i < |s| ==> s[i] == s[1..][i - 1];
    }
  }

  // A number below 2^k has no bit from k on.
  lemma HighZero(s: Bits, k: nat)
    requires k <= |s| && Val(s) < Pow2(k)
    ensures Val(s[k..]) == 0 && forall i :: k <= i < |s| ==> !s[i]
  {
    ValSplit(s, k);
    NoMultiple(Pow2(k), Val(s[k..]), Val(s));
    ZeroVal(s[k..]);
    assert forall i :: k <= i < |s| ==> s[i] == s[k..][i - k];
  }

  lemma NoMultiple(p: nat, v: nat, total: nat)
    requires p * v <= total < p
    ensures v == 0
  {
  }

  /** A shifted word or-ed with a word that fits below it. */
  lemma ShlOr(a: Bits, k: nat, b: Bits)
    requires |a| == |b| && k <= |a| && Val(a) < Pow2(|a| - k) && Val(b) < Pow2(k)
    ensures Val(Or(Shl(a, k), b)) == Pow2(k) * Val(a) + Val(b)
  {
    ShlVal(a, k);
    HighZero(b, k);
    OrVal(Shl(a, k), b);
  }

  function Not(a: Bits): Bits {
    seq(|a|, i requires 0 <= i < |a| => !a[i])
  }

  /** Masking a field out subtracts it. */
  lemma ClearVal(s: Bits, lo: nat, hi: nat)
    requires lo <= hi <= |s|
    ensures var mask := Ones(|s|, lo, hi);
      Val(And(s, Not(mask))) == Val(s) - Pow2(lo) * (Val(s) / Pow2(lo) % Pow2(hi - lo))
  {
    var mask := Ones(|s|, lo, hi);
    OrVal(And(s, mask), And(s, Not(mask)));
    assert Or(And(s, mask), And(s, Not(mask))) == s;
    MaskVal(s, lo, hi);
  }

  // ---- The literals of the source ----

  lemma Powers()
    ensures Pow2(1) == 2 && Pow2(2) == 4 && Pow2(4) == 16 && Pow2(10) == 0x400 && Pow2(12) == 0x1000
    ensures Pow2(14) == 0x4000 && Pow2(22) == 0x40_0000 && Pow2(26) == 0x400_0000
    ensures Pow2(30) == 0x4000_0000 && Pow2(31) == 0x8000_0000 && Pow2(32) == 0x1_0000_0000
  {
    assert Pow2(10) == 0x400;
    assert Pow2(20) == 0x10_0000;
  }

  lemma OnesVal(n: nat, lo: nat, hi: nat)
    requires lo <= hi <= n
    ensures Val(Ones(n, lo, hi)) == Pow2(hi) - Pow2(lo)
  {
    AllOnes(hi - lo);
    var run := seq(hi - lo, _ => true);
    assert Ones(n, lo, hi) == Zeros(lo) + (run + Zeros(n - hi));
    ValRaised(run + Zeros(n - hi), lo);
    ValPadded(run, n - hi);
    PowSum(lo, hi - lo);
    LessOne(Pow2(lo), Pow2(hi - lo));
  }

  lemma LessOne(p: nat, q: nat)
    requires q > 0
    ensures p * (q - 1) == p * q - p
  {
  }

  lemma {:induction false} AllOnes(n: nat)
    ensures Val(seq(n, _ => true)) == Pow2(n) - 1
  {
    if n > 0 {
      var run := seq(n, _ => true);
      assert run[1..] == seq(n - 1, _ => true);
      AllOnes(n - 1);
    }
  }

  lemma {:induction false} PowSum(a: nat, b: nat)
    ensures Pow2(a + b) == Pow2(a) * Pow2(b)
  {
    if a > 0 {
      PowSum(a - 1, b);
      Twice(Pow2(a - 1), Pow2(b));
    }
  }
}
