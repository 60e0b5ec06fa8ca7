/** How the root of the pmandel programs cuts an image into 400 tiles and shuffles them. */
module Tiles {
  import opened Arith

  /** Columns i1..i2 and rows j1..j2, both ends included. */
  datatype Tile = Tile(i1: int, i2: int, j1: int, j2: int)

  const SPLIT := 20
  const TILES := 400

  function Min(a: int, b: int): int {
    if a < b then a else b
  }

  /** Tile width (or height) along a side of the given length: a twentieth, but at least one. */
  function StepOf(side: int): int {
    if side / SPLIT < 1 then 1 else side / SPLIT
  }

  /** The k-th tile before shuffling; the source fills columns in the outer loop, rows in the inner. */
  function TileAt(w: int, h: int, k: int): Tile {
    var i, j := k / SPLIT, k % SPLIT;
    Tile(Min(StepOf(w) * i, w - 1), Min(StepOf(w) * (i + 1) - 1, w - 1),
         Min(StepOf(h) * j, h - 1), Min(StepOf(h) * (j + 1) - 1, h - 1))
  }

  function Split(w: int, h: int): seq<Tile> {
    seq(TILES, k => TileAt(w, h, k))
  }

  predicate Contains(t: Tile, x: int, y: int) {
    t.i1 <= x <= t.i2 && t.j1 <= y <= t.j2
  }

  /** The number of leading columns (or rows) that some tile reaches. */
  function CoveredSide(side: int): int {
    Min(side, SPLIT * StepOf(side))
  }

  predicate Covered(w: int, h: int, x: int, y: int) {
    0 <= x < CoveredSide(w) && 0 <= y < CoveredSide(h)
  }

  predicate WithinImage(w: int, h: int, t: Tile) {
    0 <= t.i1 <= t.i2 < CoveredSide(w) && 0 <= t.j1 <= t.j2 < CoveredSide(h)
  }

  lemma SpanWithin(side: int, i: int)
    requires side >= 1 && 0 <= i < SPLIT
    ensures 0 <= Min(StepOf(side) * i, side - 1) <= Min(StepOf(side) * (i + 1) - 1, side - 1) < CoveredSide(side)
  {
    var s := StepOf(side);
    assert s * (i + 1) == s * i + s;
    assert s * (i + 1) <= s * SPLIT;
  }

  lemma TileWithinImage(w: int, h: int, k: int)
    requires w >= 1 && h >= 1 && 0 <= k < TILES
    ensures WithinImage(w, h, TileAt(w, h, k))
  {
    SpanWithin(w, k / SPLIT);
    SpanWithin(h, k % SPLIT);
  }

  lemma SpanContaining(side: int, x: int) returns (i: int)
    requires side >= 1 && 0 <= x < CoveredSide(side)
    ensures 0 <= i < SPLIT
    ensures Min(StepOf(side) * i, side - 1) <= x <= Min(StepOf(side) * (i + 1) - 1, side - 1)
  {
    var s := StepOf(side);
    i := x / s;
    assert i * s + x % s == x;
    MulSucc(i, s);
    if i >= SPLIT {
      MulMono(SPLIT, i, s);
    }
    Commutes(i, s);
    Commutes(i + 1, s);
  }

  lemma Commutes(a: int, b: int)
    ensures a * b == b * a
  {
  }

  /** A pixel lies in some tile exactly when it is in the covered corner of the image. */
  lemma CoverageExact(w: int, h: int, x: int, y: int)
    requires w >= 1 && h >= 1
    ensures (exists k :: 0 <= k < TILES && Contains(TileAt(w, h, k), x, y)) <==> Covered(w, h, x, y)
  {
    forall k | 0 <= k < TILES && Contains(TileAt(w, h, k), x, y)
      ensures Covered(w, h, x, y)
    {
      TileWithinImage(w, h, k);
    }
    if Covered(w, h, x, y) {
      var i := SpanContaining(w, x);
      var j := SpanContaining(h, y);
      var k := i * SPLIT + j;
      assert k / SPLIT == i && k % SPLIT == j;
      assert Contains(TileAt(w, h, k), x, y);
    }
  }

  /** The covered corner is the whole side exactly when 20 divides the side or the side is below 20. */
  lemma WholeSideCovered(side: int)
    requires side >= 1
    ensures CoveredSide(side) == side <==> side % 20 == 0 || side < 20
    ensures CoveredSide(side) == if side < 20 then side else side - side % 20
  {
  }

  /** No pixel is in two tiles of the list. */
  ghost predicate TilesApart(tiles: seq<Tile>) {
    forall k, l, x, y :: 0 <= k < l < |tiles| && Contains(tiles[k], x, y) ==> !Contains(tiles[l], x, y)
  }

  lemma SpansDisjoint(side: int, i: int, j: int, x: int)
    requires side >= SPLIT && 0 <= i < j < SPLIT
    ensures !(x <= Min(StepOf(side) * (i + 1) - 1, side - 1) && Min(StepOf(side) * j, side - 1) <= x)
  {
    var s := StepOf(side);
    MulMono(i + 1, j, s);
    MulMono(j, SPLIT - 1, s);
    Commutes(i + 1, s);
    Commutes(j, s);
  }

  lemma SplitApart(w: int, h: int, k: int, l: int, x: int, y: int)
    requires w >= SPLIT && h >= SPLIT && 0 <= k < l < TILES && Contains(TileAt(w, h, k), x, y)
    ensures !Contains(TileAt(w, h, l), x, y)
  {
    if k / SPLIT < l / SPLIT {
      SpansDisjoint(w, k / SPLIT, l / SPLIT, x);
    } else {
      SpansDisjoint(h, k % SPLIT, l % SPLIT, y);
    }
  }

  /** On a side below 20 the last pixel of that side is in two neighbouring tiles. */
  lemma SmallSideOverlaps(w: int, h: int) returns (k: int, l: int, x: int, y: int)
    requires w >= 1 && h >= 1 && (w < SPLIT || h < SPLIT)
    ensures 0 <= k < l < TILES && Contains(TileAt(w, h, k), x, y) && Contains(TileAt(w, h, l), x, y)
  {
    if w < SPLIT {
      k, l, x, y := SPLIT * (w - 1), SPLIT * w, w - 1, 0;
    } else {
      k, l, x, y := h - 1, h, 0, h - 1;
    }
  }

  /** The split has no overlapping tiles exactly when both sides are at least 20. */
  lemma ApartIff(w: int, h: int)
    requires w >= 1 && h >= 1
    ensures TilesApart(Split(w, h)) <==> w >= 20 && h >= 20
  {
    var s := Split(w, h);
    if w >= SPLIT && h >= SPLIT {
      forall k, l, x, y | 0 <= k < l < TILES && Contains(s[k], x, y) ensures !Contains(s[l], x, y) {
        SplitApart(w, h, k, l, x, y);
      }
    } else {
      var k, l, x, y := SmallSideOverlaps(w, h);
      assert Contains(s[k], x, y) && Contains(s[l], x, y);
    }
  }

  // ----- the loops that build and shuffle the four parallel arrays

  ghost function Zip(i1: array<int>, i2: array<int>, j1: array<int>, j2: array<int>): seq<Tile>
    requires i1.Length == i2.Length == j1.Length == j2.Length == TILES
    reads i1, i2, j1, j2
  {
    seq(TILES, k requires 0 <= k < TILES reads i1, i2, j1, j2 => Tile(i1[k], i2[k], j1[k], j2[k]))
  }

  method BuildTiles(w: int, h: int, i1: array<int>, i2: array<int>, j1: array<int>, j2: array<int>)
    requires i1.Length == i2.Length == j1.Length == j2.Length == TILES
    requires i1 != i2 && i1 != j1 && i1 != j2 && i2 != j1 && i2 != j2 && j1 != j2
    modifies i1, i2, j1, j2
    ensures Zip(i1, i2, j1, j2) == Split(w, h)
  {
    var istep, jstep := w / 20, h / 20;
    if istep < 1 {
      istep := 1;
    }
    if jstep < 1 {
      jstep := 1;
    }
    var k := 0;
    for i := 0 to 20
      invariant k == i * 20
      invariant forall m :: 0 <= m < k ==> Tile(i1[m], i2[m], j1[m], j2[m]) == TileAt(w, h, m)
    {
      for j := 0 to 20
        invariant k == i * 20 + j
        invariant forall m :: 0 <= m < k ==> Tile(i1[m], i2[m], j1[m], j2[m]) == TileAt(w, h, m)
      {
        i1[k] := Min(istep * i, w - 1);
        i2[k] := Min((istep * (i + 1)) - 1, w - 1);
        j1[k] := Min(jstep * j, h - 1);
        j2[k] := Min((jstep * (j + 1)) - 1, h - 1);
        assert k / SPLIT == i && k % SPLIT == j;
        assert Tile(i1[k], i2[k], j1[k], j2[k]) == TileAt(w, h, k);
        k := k + 1;
      }
    }
  }

  /** One exchange of positions p and q, whether or not they differ. */
  function Swapped(s: seq<Tile>, p: nat, q: nat): seq<Tile>
    requires p < |s| && q < |s|
  {
    s[p := s[q]][q := s[p]]
  }

  /** The exchanges of a shuffle, first pair first. */
  function Shuffled(s: seq<Tile>, draws: seq<(nat, nat)>): (r: seq<Tile>)
    requires forall d :: d in draws ==> d.0 < |s| && d.1 < |s|
    ensures |r| == |s|
    decreases |draws|
  {
    if draws == [] then s
    else
      var last := draws[|draws| - 1];
      Swapped(Shuffled(s, draws[..|draws| - 1]), last.0, last.1)
  }

  lemma SwapKeepsTiles(s: seq<Tile>, p: nat, q: nat)
    requires p < |s| && q < |s|
    ensures multiset(Swapped(s, p, q)) == multiset(s)
  {
  }

  /** A shuffle only permutes the tiles: none is lost, repeated or altered. */
  lemma {:induction false} ShuffleKeepsTiles(s: seq<Tile>, draws: seq<(nat, nat)>)
    requires forall d :: d in draws ==> d.0 < |s| && d.1 < |s|
    ensures multiset(Shuffled(s, draws)) == multiset(s)
    decreases |draws|
  {
    if draws != [] {
      var front, last := draws[..|draws| - 1], draws[|draws| - 1];
      ShuffleKeepsTiles(s, front);
      SwapKeepsTiles(Shuffled(s, front), last.0, last.1);
    }
  }

  /** A shuffle keeps tiles from overlapping. */
  lemma {:induction false} ShuffleKeepsApart(s: seq<Tile>, draws: seq<(nat, nat)>)
    requires forall d :: d in draws ==> d.0 < |s| && d.1 < |s|
    requires TilesApart(s)
    ensures TilesApart(Shuffled(s, draws))
    decreases |draws|
  {
    if draws != [] {
      var front, last := draws[..|draws| - 1], draws[|draws| - 1];
      ShuffleKeepsApart(s, front);
      SwapKeepsApart(Shuffled(s, front), last.0, last.1);
    }
  }

  lemma SwapKeepsApart(s: seq<Tile>, p: nat, q: nat)
    requires p < |s| && q < |s| && TilesApart(s)
    ensures TilesApart(Swapped(s, p, q))
  {
    var r := Swapped(s, p, q);
    forall k, l, x, y | 0 <= k < l < |r| && Contains(r[k], x, y) ensures !Contains(r[l], x, y) {
      var k', l' := if k == p then q else if k == q then p else k, if l == p then q else if l == q then p else l;
      assert r[k] == s[k'] && r[l] == s[l'] && k' != l';
    }
  }

  method SwapInts(a: array<int>, p: nat, q: nat)
    requires p < a.Length && q < a.Length
    modifies a
    ensures a[..] == old(a[..])[p := old(a[q])][q := old(a[p])]
  {
    var x := a[p];
    a[p] := a[q];
    a[q] := x;
  }

  /** The 500 random exchanges, each applied to the four arrays in turn.  `draws` stands for the
      values that `rand() % 400` returns. */
  method ShuffleTiles(i1: array<int>, i2: array<int>, j1: array<int>, j2: array<int>, draws: seq<(nat, nat)>)
    requires i1.Length == i2.Length == j1.Length == j2.Length == TILES
    requires i1 != i2 && i1 != j1 && i1 != j2 && i2 != j1 && i2 != j2 && j1 != j2
    requires forall d :: d in draws ==> d.0 < TILES && d.1 < TILES
    modifies i1, i2, j1, j2
    ensures Zip(i1, i2, j1, j2) == Shuffled(old(Zip(i1, i2, j1, j2)), draws)
  {
    ghost var start := Zip(i1, i2, j1, j2);
    for n := 0 to |draws|
      invariant forall d :: d in draws[..n] ==> d.0 < TILES && d.1 < TILES
      invariant Zip(i1, i2, j1, j2) == Shuffled(start, draws[..n])
    {
      var p, q := draws[n].0, draws[n].1;
      ghost var before := Zip(i1, i2, j1, j2);
      SwapInts(i1, p, q);
      SwapInts(i2, p, q);
      SwapInts(j1, p, q);
      SwapInts(j2, p, q);
      assert draws[..n + 1][..n] == draws[..n];
      assert Zip(i1, i2, j1, j2) == Swapped(before, p, q);
    }
    assert draws[..|draws|] == draws;
  }

  /** What the protocols need of a shuffled list: it has 400 tiles, and a pixel is in one of them
      exactly when it is covered. */
  ghost predicate IsTiling(w: int, h: int, tiles: seq<Tile>) {
    && |tiles| == TILES
    && (forall t :: t in tiles ==> WithinImage(w, h, t))
    && forall x, y :: Covered(w, h, x, y) ==> exists k :: 0 <= k < |tiles| && Contains(tiles[k], x, y)
  }

  lemma ShuffledSplitIsTiling(w: int, h: int, draws: seq<(nat, nat)>)
    requires w >= 1 && h >= 1
    requires forall d :: d in draws ==> d.0 < TILES && d.1 < TILES
    ensures IsTiling(w, h, Shuffled(Split(w, h), draws)) && |Shuffled(Split(w, h), draws)| == 400
  {
    var s, r := Split(w, h), Shuffled(Split(w, h), draws);
    ShuffleKeepsTiles(s, draws);
    forall t | t in r ensures WithinImage(w, h, t) {
      assert t in multiset(s);
      var k :| 0 <= k < |s| && s[k] == t;
      TileWithinImage(w, h, k);
    }
    forall x, y | Covered(w, h, x, y)
      ensures exists k :: 0 <= k < |r| && Contains(r[k], x, y)
    {
      CoverageExact(w, h, x, y);
      var k :| 0 <= k < TILES && Contains(TileAt(w, h, k), x, y);
      assert s[k] in multiset(r);
      var l :| 0 <= l < |r| && r[l] == s[k];
    }
  }
}
