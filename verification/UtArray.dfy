/**
 * The dynamic array of src/include/mpir_utarray.h: `n` slots of which the first `i` hold
 * elements, doubling growth, elements moved in place, and optional callbacks that copy an
 * element in and destroy an element that leaves.
 */
module UtArray {
  import opened Arith
  import opened Options
  import Bits

  // ---- Capacities: unsigned 32-bit ----

  const UNSIGNED := 0x1_0000_0000
  const HALF := 0x8000_0000
  const TOP := 29   // Capacity(TOP) is 2^31

  // One turn of the growth loop.
  function Double(n: nat): nat {
    if n != 0 then 2 * n % UNSIGNED else 8
  }

  // The capacities that occur: 0, 8, 16, ..., 2^31.
  function Capacity(e: nat): (n: nat)
    ensures n > 0 <==> e > 0
  {
    if e == 0 then 0 else if e == 1 then 8 else 2 * Capacity(e - 1)
  }

  predicate IsCapacity(n: nat) {
    exists e: nat | e <= TOP :: n == Capacity(e)
  }

  function DoubleTimes(n: nat, k: nat): nat {
    if k == 0 then n else Double(DoubleTimes(n, k - 1))
  }

  lemma {:induction false} CapacityGrows(e: nat, f: nat)
    requires e < f
    ensures Capacity(e) < Capacity(f) && (e > 0 ==> 2 * Capacity(e) <= Capacity(f))
  {
    if e + 1 < f {
      CapacityGrows(e, f - 1);
    }
  }

  /** The capacities are 0 and 8 * 2^k for k up to 28. */
  lemma {:induction false} CapacityClosed(e: nat)
    ensures Capacity(e) == if e == 0 then 0 else 8 * Bits.Pow2(e - 1)
  {
    if e > 1 {
      CapacityClosed(e - 1);
    }
  }

  lemma TopCapacity()
    ensures Capacity(TOP) == HALF
  {
    assert Capacity(10) == 0x1000;
    assert Capacity(20) == 0x40_0000;
  }

  lemma CapacityStep(e: nat)
    requires e <= TOP
    ensures Capacity(e) <= HALF
    ensures Double(Capacity(e)) == if e < TOP then Capacity(e + 1) else 0
  {
    TopCapacity();
    if e < TOP {
      CapacityGrows(e, TOP);
    }
  }

  lemma {:induction false} DoubleTimesUp(e: nat, k: nat)
    requires e + k <= TOP
    ensures DoubleTimes(Capacity(e), k) == Capacity(e + k)
  {
    if k > 0 {
      DoubleTimesUp(e, k - 1);
      CapacityStep(e + k - 1);
    }
  }

  lemma {:induction false} DoubleTimesBounded(n: nat, k: nat)
    requires IsCapacity(n)
    ensures IsCapacity(DoubleTimes(n, k)) && DoubleTimes(n, k) <= HALF
  {
    if k == 0 {
      var e: nat :| e <= TOP && n == Capacity(e);
      CapacityStep(e);
    } else {
      DoubleTimesBounded(n, k - 1);
      var e: nat :| e <= TOP && DoubleTimes(n, k - 1) == Capacity(e);
      CapacityStep(e);
      var f := if e < TOP then e + 1 else 0;
      assert DoubleTimes(n, k) == Capacity(f);
      CapacityStep(f);
    }
  }

  ghost predicate GrowthEnds(n: nat, need: nat) {
    exists k: nat :: need <= DoubleTimes(n, k)
  }

  // The 32-bit sum that utarray_reserve compares with the capacity.
  function Needed(i: nat, more: nat): nat {
    (i + more) % UNSIGNED
  }

  /** From any capacity the growth loop of utarray_reserve ends if and only if the 32-bit sum is at
      most 2^31: past that the doubling wraps around to zero and the loop runs forever. */
  lemma GrowthEndsIff(n: nat, i: nat, more: nat)
    requires IsCapacity(n) && i < UNSIGNED && more < UNSIGNED
    ensures GrowthEnds(n, Needed(i, more)) <==> Needed(i, more) <= HALF
  {
    var need := Needed(i, more);
    if need <= HALF {
      var e: nat :| e <= TOP && n == Capacity(e);
      DoubleTimesUp(e, TOP - e);
      TopCapacity();
      assert need <= DoubleTimes(n, TOP - e);
    }
    if GrowthEnds(n, need) {
      var k: nat :| need <= DoubleTimes(n, k);
      DoubleTimesBounded(n, k);
    }
  }

  /** The loop can end with room for i + more elements if and only if that is at most 2^31; a sum
      that wraps ends the loop early, or never. */
  lemma GrowthSufficesIff(n: nat, i: nat, more: nat)
    requires IsCapacity(n) && i < UNSIGNED && more < UNSIGNED
    ensures (exists k: nat :: Needed(i, more) <= DoubleTimes(n, k) && i + more <= DoubleTimes(n, k))
       <==> i + more <= HALF
  {
    if i + more <= HALF {
      GrowthEndsIff(n, i, more);
      var k: nat :| Needed(i, more) <= DoubleTimes(n, k);
      assert i + more <= DoubleTimes(n, k);
    }
    if k: nat :| Needed(i, more) <= DoubleTimes(n, k) && i + more <= DoubleTimes(n, k) {
      DoubleTimesBounded(n, k);
    }
  }

  function Max(a: nat, b: nat): nat {
    if a < b then b else a
  }

  /** What reallocation has cost so far: `moved` elements, for the largest size `peak` that was
      ever asked for. */
  predicate CostOk(n: nat, moved: nat, peak: nat) {
    && moved <= n
    && (n <= 8 ==> moved == 0)
    && (n > 8 ==> n < 2 * peak)
  }

  /** The growth loop of utarray_reserve. */
  method Grown(n: nat, need: nat) returns (size: nat)
    requires IsCapacity(n) && n < need <= HALF
    ensures IsCapacity(size) && need <= size
    ensures 2 * n <= size && ((size == 8 && n == 0) || (8 < size < 2 * need))
    ensures n == 0 && need <= 8 ==> size == 8
  {
    ghost var e: nat :| e <= TOP && n == Capacity(e);
    size := n;
    TopCapacity();
    while need > size
      invariant e <= TOP && size == Capacity(e)
      invariant size == n || 2 * n <= size
      invariant size == n || (size == 8 && n == 0) || (8 < size < 2 * need)
      invariant n == 0 && need <= 8 ==> size == 0 || size == 8
      decreases TOP - e
    {
      CapacityStep(e);
      assert e < TOP;
      if e > 1 {
        CapacityGrows(1, e);
      }
      size := Double(size);
      e := e + 1;
    }
  }

  lemma GrowthCost(n: nat, moved: nat, peak: nat, i: nat, need: nat, size: nat)
    requires CostOk(n, moved, peak) && i <= n < need
    requires 2 * n <= size && ((size == 8 && n == 0) || (8 < size < 2 * need))
    ensures CostOk(size, moved + i, Max(peak, need))
  {
  }

  // ---- The buffer: i elements at the front of d ----

  function Moved<T>(b: seq<T>, dst: nat, src: nat, len: nat): (r: seq<T>)
    requires dst + len <= |b| && src + len <= |b|
    ensures |r| == |b|
  {
    b[..dst] + b[src..src + len] + b[dst + len..]
  }

  // memmove: reads everything before it writes.
  method Move<T>(d: array<T>, dst: nat, src: nat, len: nat)
    requires dst + len <= d.Length && src + len <= d.Length
    modifies d
    ensures d[..] == Moved(old(d[..]), dst, src, len)
  {
    forall k | 0 <= k < len {
      d[dst + k] := d[src + k];
    }
  }

  // The copy loop of utarray_inserta; utarray_insert copies one element.
  method CopyIn<T>(d: array<T>, w: array<T>, len: nat, j: nat)
    requires j + len <= d.Length && len <= w.Length && w != d
    modifies d
    ensures d[..] == Filled(old(d[..]), w[..len], j)
  {
    var k := 0;
    while k < len
      invariant k <= len
      invariant d[..] == Filled(old(d[..]), w[..k], j)
    {
      FillOne(old(d[..]), w[..k], w[k], j);
      d[j + k] := w[k];
      assert w[..k + 1] == w[..k] + [w[k]];
      k := k + 1;
    }
  }

  lemma FillOne<T>(b: seq<T>, w: seq<T>, p: T, j: nat)
    requires j + |w| < |b|
    ensures Filled(b, w, j)[j + |w| := p] == Filled(b, w + [p], j)
  {
  }

  function Filled<T>(b: seq<T>, w: seq<T>, j: nat): (r: seq<T>)
    requires j + |w| <= |b|
    ensures |r| == |b|
  {
    b[..j] + w + b[j + |w|..]
  }

  function Shifted<T>(b: seq<T>, i: nat, len: nat, j: nat): (r: seq<T>)
    requires j <= i && i + len <= |b|
    ensures |r| == |b|
  {
    if j < i then Moved(b, j + len, j, i - j) else b
  }

  method OpenGap<T>(d: array<T>, i: nat, len: nat, j: nat)
    requires j <= i && i + len <= d.Length
    modifies d
    ensures d[..] == Shifted(old(d[..]), i, len, j)
  {
    if j < i {
      Move(d, j + len, j, i - j);
    }
  }

  // A buffer whose tail was moved up and whose gap was filled holds the insertion.
  lemma GapFilled<T>(b: seq<T>, i: nat, w: seq<T>, j: nat)
    requires j <= i && i + |w| <= |b|
    ensures Filled(Shifted(b, i, |w|, j), w, j)[..i + |w|] == Inserted(b[..i], w, j)
  {
    var shifted := Shifted(b, i, |w|, j);
    var r, q := Filled(shifted, w, j)[..i + |w|], Inserted(b[..i], w, j);
    forall k | 0 <= k < |r|
      ensures r[k] == q[k]
    {
      if k >= j + |w| {
        assert r[k] == shifted[k] == b[k - |w|];
      }
    }
  }

  method SpliceBuffer<T>(d: array<T>, i: nat, w: array<T>, len: nat, j: nat)
    requires j <= i && i + len <= d.Length && len <= w.Length && w != d
    modifies d
    ensures d[..i + len] == Inserted(old(d[..i]), w[..len], j)
  {
    GapFilled(d[..], i, w[..len], j);
    Prefix(d, i);
    OpenGap(d, i, len, j);
    CopyIn(d, w, len, j);
    Prefix(d, i + len);
  }

  // The same loop when the array is inserted into itself: it reads the buffer that it writes.
  method CopyInSelf<T>(d: array<T>, len: nat, j: nat)
    requires j + len <= d.Length
    modifies d
    ensures d[..] == Filled(old(d[..]), CopiedForward(old(d[..]), len, j), j)
  {
    var k := 0;
    while k < len
      invariant k <= len
      invariant d[..] == Filled(old(d[..]), CopiedForward(old(d[..]), k, j), j)
    {
      ghost var block := CopiedForward(old(d[..]), k, j);
      CopiedNext(old(d[..]), k, j);
      FillOne(old(d[..]), block, d[k], j);
      d[j + k] := d[k];
      k := k + 1;
    }
  }

  // What a forward copy of k elements from the front to position j writes: beyond j it reads what
  // it has written.
  function CopiedForward<T>(b: seq<T>, k: nat, j: nat): (r: seq<T>)
    requires j + k <= |b|
    ensures |r| == k
  {
    seq(k, u requires 0 <= u < k => if j == 0 then b[u] else (ModBelow(u, j); b[u % j]))
  }

  lemma ModBelow(u: nat, j: nat)
    requires j > 0
    ensures u % j <= u && u % j < j
  {
  }

  lemma CopiedNext<T>(b: seq<T>, k: nat, j: nat)
    requires j + k < |b|
    ensures var block := CopiedForward(b, k, j);
      CopiedForward(b, k + 1, j) == block + [Filled(b, block, j)[k]]
  {
    var block := CopiedForward(b, k, j);
    if 0 < j <= k {
      assert Filled(b, block, j)[k] == block[k - j];
      ModStep(k, j);
    }
  }

  lemma ModStep(k: nat, j: nat)
    requires 0 < j <= k
    ensures k % j == (k - j) % j
  {
    var q, r := (k - j) / j, (k - j) % j;
    assert k - j == q * j + r;
    assert k == (q + 1) * j + r;
    DivModUnique(j, q + 1, r);
  }

  method SpliceBufferSelf<T>(d: array<T>, i: nat, j: nat)
    requires j <= i && i + i <= d.Length
    modifies d
    ensures d[..i + i] == Inserted(old(d[..i]), Overlapped(old(d[..i]), j), j)
  {
    ghost var b := d[..];
    GapFilled(b, i, Overlapped(b[..i], j), j);
    Prefix(d, i);
    OpenGap(d, i, i, j);
    ShiftedFront(b, i, j);
    CopyInSelf(d, i, j);
    Prefix(d, i + i);
  }

  // Shifting the tail up by i leaves the first i slots alone unless the tail starts in front.
  lemma ShiftedFront<T>(b: seq<T>, i: nat, j: nat)
    requires j <= i && i + i <= |b|
    ensures CopiedForward(Shifted(b, i, i, j), i, j) == Overlapped(b[..i], j)
  {
    var shifted := Shifted(b, i, i, j);
    forall u | 0 <= u < i
      ensures CopiedForward(shifted, i, j)[u] == Overlapped(b[..i], j)[u]
    {
      if j > 0 {
        ModBelow(u, j);
      }
    }
  }

  method CloseGap<T>(d: array<T>, i: nat, pos: nat, len: nat)
    requires pos + len <= i <= d.Length
    modifies d
    ensures d[..] == Moved(old(d[..]), pos, pos + len, i - (pos + len))
  {
    if i > pos + len {
      Move(d, pos, pos + len, i - (pos + len));
    }
  }

  // What utarray_erase leaves at the front of the buffer.
  lemma GapClosed<T>(b: seq<T>, i: nat, pos: nat, len: nat)
    requires pos + len <= i <= |b|
    ensures Moved(b, pos, pos + len, i - (pos + len))[..i - len] == Erased(b[..i], pos, len)
  {
  }

  // A prefix of the buffer, read as an array and as a sequence.
  lemma Prefix<T>(d: array<T>, i: nat)
    requires i <= d.Length
    ensures d[..][..i] == d[..i]
  {
  }

  // ---- The array ----

  // The callbacks of a UT_icd. An element made by `init` is its value here; without it, an
  // element is zero-filled.
  datatype Icd<T> = Icd(init: Option<T>, dtor: bool, zero: T)

  /** With a destructor, the elements made are the live ones and the destroyed ones. */
  ghost predicate Balanced<T>(dtor: bool, made: multiset<T>, destroyed: multiset<T>, live: seq<T>) {
    if dtor then made == multiset(live) + destroyed else destroyed == multiset{}
  }

  ghost function Gone<T>(dtor: bool, destroyed: multiset<T>, elements: seq<T>): multiset<T> {
    if dtor then destroyed + multiset(elements) else destroyed
  }

  class UtArray<T> {
    const icd: Icd<T>
    var i: nat
    var n: nat
    var d: array<T>
    ghost var made: multiset<T>       // elements that were copied, initialized or zero-filled
    ghost var destroyed: multiset<T>  // elements handed to the destructor
    ghost var moved: nat
    ghost var peak: nat

    ghost predicate Valid()
      reads this, d
    {
      && i <= n == d.Length
      && IsCapacity(n)
      && CostOk(n, moved, peak)
      && Balanced(icd.dtor, made, destroyed, Contents())
    }

    ghost function Contents(): seq<T>
      reads this, d
      requires i <= d.Length
    {
      d[..i]
    }

    constructor (icd: Icd<T>)
      ensures Valid() && fresh(d) && this.icd == icd
      ensures Contents() == [] && made == destroyed == multiset{} && moved == peak == 0
    {
      this.icd := icd;
      i, n, d := 0, 0, new T[0];
      made, destroyed, moved, peak := multiset{}, multiset{}, 0, 0;
      new;
      assert 0 == Capacity(0);
    }

    /** Room for `more` further elements. */
    method Reserve(more: nat)
      requires Valid() && i + more <= HALF
      modifies this`n, this`d, this`moved, this`peak
      ensures Valid() && (d == old(d) || fresh(d))
      ensures Contents() == old(Contents())
      ensures i + more <= n && old(n) <= n
      ensures old(n) >= i + more ==> n == old(n) && d == old(d) && moved == old(moved)
      ensures peak == Max(old(peak), i + more)
    {
      if i + more > n {
        var size := Grown(n, i + more);
        GrowthCost(n, moved, peak, i, i + more, size);
        Realloc(size);
      }
      peak := Max(peak, i + more);
    }

    method Realloc(size: nat)
      requires i <= n == d.Length && n <= size
      modifies this`n, this`d, this`moved
      ensures n == size == d.Length && fresh(d)
      ensures Contents() == old(Contents())
      ensures moved == old(moved) + i
    {
      var now := new T[size](_ => icd.zero);
      forall k | 0 <= k < i {
        now[k] := d[k];
      }
      d, n := now, size;
      moved := moved + i;
    }

    // An element leaves: the destructor runs if there is one.
    ghost method Destroy(gone: multiset<T>)
      modifies this`destroyed
      ensures destroyed == if icd.dtor then old(destroyed) + gone else old(destroyed)
    {
      if icd.dtor {
        destroyed := destroyed + gone;
      }
    }

    method PushBack(p: T)
      requires Valid() && i + 1 <= HALF
      modifies this, d
      ensures Valid() && (d == old(d) || fresh(d))
      ensures Contents() == old(Contents()) + [p]
      ensures made == old(made) + multiset{p} && destroyed == old(destroyed)
      ensures peak == Max(old(peak), i)
    {
      Reserve(1);
      Place(p);
    }

    // Writes the slot behind the last element and counts it in.
    method Place(p: T)
      requires Valid() && i < n
      modifies this`i, this`made, d
      ensures Valid()
      ensures Contents() == old(Contents()) + [p]
      ensures made == old(made) + multiset{p}
    {
      ghost var before := Contents();
      d[i] := p;
      i := i + 1;
      made := made + multiset{p};
      assert Contents() == before + [p];
    }

    method PopBack()
      requires Valid() && i > 0
      modifies this`i, this`destroyed
      ensures Valid()
      ensures Contents() == old(Contents()[..i - 1])
      ensures icd.dtor ==> destroyed == old(destroyed) + multiset{old(d[i - 1])}
    {
      ghost var before := Contents();
      i := i - 1;
      Destroy(multiset{d[i]});
      assert before == Contents() + [d[i]];
    }

    method ExtendBack()
      requires Valid() && i + 1 <= HALF
      modifies this, d
      ensures Valid() && (d == old(d) || fresh(d))
      ensures Contents() == old(Contents()) + [if icd.init.Some? then icd.init.value else icd.zero]
      ensures destroyed == old(destroyed) && peak == Max(old(peak), i)
    {
      Reserve(1);
      Place(if icd.init.Some? then icd.init.value else icd.zero);
    }

    method Insert(p: T, j: nat)
      requires Valid() && i + 1 <= HALF
      modifies this, d
      ensures Valid() && (d == old(d) || fresh(d))
      ensures Contents() == Inserted(old(Contents()), [p], j)
      ensures destroyed == old(destroyed) && peak == Max(old(peak), old(i) + 1)
    {
      Reserve(1);
      if j > i {
        return;
      }
      Wedge(p, j);
    }

    method Wedge(p: T, j: nat)
      requires Valid() && j <= i < n
      modifies this`i, this`made, d
      ensures Valid() && Contents() == Inserted(old(Contents()), [p], j)
    {
      ghost var buffer := d[..];
      GapFilled(buffer, i, [p], j);
      Prefix(d, i);
      OpenGap(d, i, 1, j);
      d[j] := p;
      assert d[..] == Filled(Shifted(buffer, i, 1, j), [p], j);
      Prefix(d, i + 1);
      InsertedBalanced(icd.dtor, made, destroyed, buffer[..i], [p], j);
      SetLength(i + 1, made + multiset([p]));
    }

    // Settles on the first k slots as the elements, with m as the elements made so far.
    method SetLength(k: nat, ghost m: multiset<T>)
      requires k <= n == d.Length && IsCapacity(n) && CostOk(n, moved, peak)
      requires Balanced(icd.dtor, m, destroyed, d[..k])
      modifies this`i, this`made
      ensures Valid() && i == k && made == m
    {
      i, made := k, m;
    }

    /** Inserts the elements of an array. An array inserted into itself is copied forward from the
        buffer that the insertion has just shifted: see `Overlapped`. */
    method InsertArray(w: UtArray<T>, j: nat)
      requires Valid() && w.Valid() && (w == this || w.d != d) && i + w.i <= HALF
      modifies this, d
      ensures Valid() && (d == old(d) || fresh(d))
      ensures Contents() == Inserted(old(Contents()), if w == this then Overlapped(old(Contents()), j) else w.Contents(), j)
      ensures destroyed == old(destroyed) && peak <= Max(old(peak), old(i) + old(w.i))
    {
      if w.i == 0 || j > i {
        return;
      }
      Reserve(w.i);
      if w == this {
        SpliceSelf(j);
      } else {
        Splice(w, j);
      }
    }

    method SpliceSelf(j: nat)
      requires Valid() && j <= i && i + i <= n
      modifies this`i, this`made, d
      ensures Valid() && Contents() == Inserted(old(Contents()), Overlapped(old(Contents()), j), j)
    {
      ghost var block := Overlapped(Contents(), j);
      InsertedBalanced(icd.dtor, made, destroyed, d[..i], block, j);
      SpliceBufferSelf(d, i, j);
      SetLength(i + i, made + multiset(block));
    }

    method Splice(w: UtArray<T>, j: nat)
      requires Valid() && w.i <= w.d.Length && w != this && w.d != d && j <= i && i + w.i <= n
      modifies this`i, this`made, d
      ensures Valid() && Contents() == Inserted(old(Contents()), w.Contents(), j)
    {
      InsertedBalanced(icd.dtor, made, destroyed, d[..i], w.d[..w.i], j);
      SpliceBuffer(d, i, w.d, w.i, j);
      SetLength(i + w.i, made + multiset(w.d[..w.i]));
    }

    method Concat(w: UtArray<T>)
      requires Valid() && w.Valid() && (w == this || w.d != d) && i + w.i <= HALF
      modifies this, d
      ensures Valid() && (d == old(d) || fresh(d))
      ensures Contents() == old(Contents()) + old(w.Contents())
      ensures destroyed == old(destroyed) && peak <= Max(old(peak), i)
    {
      ghost var before, other := Contents(), w.Contents();
      OverlappedAtEnd(before);
      InsertedJoins(before, other, i);
      InsertArray(w, i);
      assert before[|before|..] == [] && before[..|before|] == before;
    }

    // The destructor loop over a range of elements.
    method DestroyRange(from: nat, to: nat)
      requires from <= to <= i <= d.Length
      modifies this`destroyed
      ensures destroyed == Gone(icd.dtor, old(destroyed), Contents()[from..to])
    {
      ghost var live := Contents();
      if icd.dtor {
        var k := from;
        while k < to
          invariant from <= k <= to
          invariant destroyed == old(destroyed) + multiset(live[from..k])
        {
          assert live[from..k + 1] == live[from..k] + [d[k]];
          destroyed := destroyed + multiset{d[k]};
          k := k + 1;
        }
      }
    }

    /** Shrinks, or grows with zero-filled elements. Growing an array that has an `init`
        callback hands NULL to that callback: `nullInit` reports it. */
    method Resize(num: nat) returns (nullInit: bool)
      requires Valid() && num <= HALF
      modifies this, d
      ensures Valid() && (d == old(d) || fresh(d))
      ensures nullInit <==> icd.init.Some? && num > old(i)
      ensures !nullInit ==> Contents() == Resized(old(Contents()), num, icd.zero)
      ensures num <= old(i) ==> made == old(made)
      ensures num >= old(i) ==> destroyed == old(destroyed)
      ensures peak <= Max(old(peak), num)
    {
      nullInit := false;
      if i > num {
        Truncate(num);
      } else if i < num {
        Reserve(num - i);
        if icd.init.Some? {
          nullInit := true;
        } else {
          ZeroFill(num);
        }
      }
    }

    method Truncate(num: nat)
      requires Valid() && num <= i
      modifies this`i, this`destroyed
      ensures Valid() && Contents() == old(Contents()[..num])
    {
      ghost var before := Contents();
      TruncatedBalanced(icd.dtor, made, destroyed, before, num);
      DestroyRange(num, i);
      i := num;
      assert Contents() == before[..num];
    }

    method ZeroFill(num: nat)
      requires Valid() && i <= num <= n
      modifies this`i, this`made, d
      ensures Valid() && Contents() == Resized(old(Contents()), num, icd.zero)
    {
      ghost var before := Contents();
      var zeros := seq(num - i, _ => icd.zero);
      forall k | i <= k < num {
        d[k] := icd.zero;
      }
      InsertedBalanced(icd.dtor, made, destroyed, before, zeros, i);
      InsertedJoins(before, zeros, i);
      assert d[..num] == before[..i] + zeros + before[i..] == before + zeros;
      SetLength(num, made + multiset(zeros));
    }

    method Erase(pos: nat, len: nat)
      requires Valid() && pos + len <= i
      modifies this`i, this`made, this`destroyed, d
      ensures Valid() && made == old(made)
      ensures Contents() == Erased(old(Contents()), pos, len)
    {
      ghost var buffer := d[..];
      Prefix(d, i);
      GapClosed(buffer, i, pos, len);
      DestroyErased(pos, len);
      CloseGap(d, i, pos, len);
      Prefix(d, i - len);
      SetLength(i - len, made);
    }

    method DestroyErased(pos: nat, len: nat)
      requires Valid() && pos + len <= i
      modifies this`destroyed
      ensures Balanced(icd.dtor, made, destroyed, Erased(Contents(), pos, len))
    {
      ErasedBalanced(icd.dtor, made, destroyed, Contents(), pos, len);
      DestroyRange(pos, pos + len);
    }

    method Clear()
      requires Valid()
      modifies this`i, this`destroyed
      ensures Valid() && Contents() == []
    {
      if i > 0 {
        Truncate(0);
      }
    }

    /** The end of the array: every element made has been destroyed. The source resets `n` but
        leaves `i` as it was. */
    method Done()
      requires Valid()
      modifies this`n, this`destroyed
      ensures n == 0 && i == old(i)
      ensures icd.dtor ==> destroyed == made
    {
      if n != 0 {
        DestroyRange(0, i);
        assert Contents()[0..i] == Contents();
      }
      n := 0;
    }

    // utarray_next: the position after e, or the front for NULL.
    function Next(e: Option<nat>): Option<nat>
      reads this
    {
      match e
      case None => if i != 0 then Some(0) else None
      case Some(k) => if i > k + 1 then Some(k + 1) else None
    }

    /** Iterating with utarray_next visits each element once, in order. */
    method Iterate() returns (visited: seq<T>)
      requires Valid()
      ensures visited == Contents()
    {
      visited := [];
      var e := Next(None);
      while e.Some?
        invariant e == if |visited| < i then Some(|visited|) else None
        invariant |visited| <= i && visited == d[..|visited|]
        decreases i - |visited|
      {
        visited := visited + [d[e.value]];
        e := Next(e);
      }
    }
  }

  // ---- The sequence operations that the array refines ----

  function Inserted<T>(s: seq<T>, w: seq<T>, j: nat): seq<T> {
    if j > |s| then
      s
    else
      seq(|s| + |w|, k requires 0 <= k < |s| + |w| =>
        if k < j then s[k] else if k < j + |w| then w[k - j] else s[k - |w|])
  }

  function Erased<T>(s: seq<T>, pos: nat, len: nat): seq<T>
    requires pos + len <= |s|
  {
    seq(|s| - len, k requires 0 <= k < |s| - len => if k < pos then s[k] else s[k + len])
  }

  lemma InsertedJoins<T>(s: seq<T>, w: seq<T>, j: nat)
    requires j <= |s|
    ensures Inserted(s, w, j) == s[..j] + w + s[j..]
  {
  }

  lemma ErasedJoins<T>(s: seq<T>, pos: nat, len: nat)
    requires pos + len <= |s|
    ensures Erased(s, pos, len) == s[..pos] + s[pos + len..]
  {
  }

  /** What an array that is inserted into itself at position j inserts: the elements in front of j
      over and over, or all of them if nothing is in front. */
  function Overlapped<T>(s: seq<T>, j: nat): (r: seq<T>)
    ensures |r| == |s|
  {
    seq(|s|, u requires 0 <= u < |s| => if j == 0 || j > |s| then s[u] else (ModBelow(u, j); s[u % j]))
  }

  lemma OverlappedAtEnd<T>(s: seq<T>)
    ensures Overlapped(s, |s|) == s
  {
  }

  /** Inserting an array into itself inserts its own elements if and only if they repeat with
      period j, as they do for j at the front or at the end. */
  lemma SelfInsertIff<T>(s: seq<T>, j: nat)
    requires j <= |s|
    ensures Inserted(s, Overlapped(s, j), j) == Inserted(s, s, j)
       <==> j == 0 || forall u: nat :: u < |s| ==> u % j < |s| && s[u] == s[u % j]
  {
    var block := Overlapped(s, j);
    if j > 0 {
      forall u: nat | u < |s|
        ensures u % j < |s| && block[u] == s[u % j]
        ensures Inserted(s, block, j)[j + u] == block[u] && Inserted(s, s, j)[j + u] == s[u]
      {
        ModBelow(u, j);
      }
      if forall u: nat :: u < |s| ==> u % j < |s| && s[u] == s[u % j] {
        assert block == s;
      }
    } else {
      assert block == s;
    }
  }

  /** Erasing what was inserted gives the sequence back. */
  lemma EraseUndoesInsert<T>(s: seq<T>, w: seq<T>, j: nat)
    requires j <= |s|
    ensures Erased(Inserted(s, w, j), j, |w|) == s
  {
  }

  function Resized<T>(s: seq<T>, num: nat, zero: T): seq<T> {
    if num <= |s| then s[..num] else s + seq(num - |s|, _ => zero)
  }

  lemma InsertedBalanced<T>(dtor: bool, made: multiset<T>, destroyed: multiset<T>, s: seq<T>, w: seq<T>, j: nat)
    requires j <= |s| && Balanced(dtor, made, destroyed, s)
    ensures Balanced(dtor, made + multiset(w), destroyed, Inserted(s, w, j))
  {
    InsertedJoins(s, w, j);
    assert s == s[..j] + s[j..];
  }

  lemma TruncatedBalanced<T>(dtor: bool, made: multiset<T>, destroyed: multiset<T>, s: seq<T>, num: nat)
    requires num <= |s| && Balanced(dtor, made, destroyed, s)
    ensures Balanced(dtor, made, Gone(dtor, destroyed, s[num..|s|]), s[..num])
  {
    assert s == s[..num] + s[num..|s|];
  }

  lemma ErasedBalanced<T>(dtor: bool, made: multiset<T>, destroyed: multiset<T>, s: seq<T>, pos: nat, len: nat)
    requires pos + len <= |s| && Balanced(dtor, made, destroyed, s)
    ensures Balanced(dtor, made, Gone(dtor, destroyed, s[pos..pos + len]), Erased(s, pos, len))
  {
    ErasedJoins(s, pos, len);
    assert s == s[..pos] + s[pos..pos + len] + s[pos + len..];
  }

  /** Reallocation is paid for by the largest size the array was asked for. */
  lemma MovesAreAmortized(n: nat, moved: nat, peak: nat)
    requires CostOk(n, moved, peak)
    ensures moved <= 2 * peak
  {
  }

  /** Appending m elements to an empty array moves at most 2m elements through reallocation. */
  method AppendAll<T>(icd: Icd<T>, elements: seq<T>) returns (a: UtArray<T>)
    requires |elements| <= HALF
    ensures fresh(a) && fresh(a.d) && a.Valid()
    ensures a.Contents() == elements && a.moved <= 2 * |elements|
  {
    a := new UtArray(icd);
    var k := 0;
    while k < |elements|
      invariant k <= |elements| && fresh(a) && fresh(a.d) && a.Valid()
      invariant a.Contents() == elements[..k] && a.peak == k
    {
      a.PushBack(elements[k]);
      k := k + 1;
    }
    MovesAreAmortized(a.n, a.moved, a.peak);
  }
}
