/** The counts of one tile: how a worker fills its buffer row by row, and how the root copies that
    buffer into the image array (`output_data`).
 */
module Drawing {
  import opened Tiles
  import opened Mandelbrot
  import opened Arith

  // ----- pixel values

  /** Settings that all processes share for the whole program. */
  datatype Scene = Scene(across: int, down: int, julia: bool, juliaConstant: Complex,
                         alternate: int, limit: real)

  /** The five values announced to the workers before each image. */
  datatype View = View(xMin: real, xMax: real, yMin: real, yMax: real, cap: int)

  /** The announcement that ends the program. */
  predicate IsQuit(v: View) {
    v.xMin == v.xMax && v.yMin == v.yMax
  }

  function PointAt(sc: Scene, v: View, x: int, y: int): Complex
    requires sc.across >= 1 && sc.down >= 1
  {
    var xResolution := (v.xMax - v.xMin) / sc.across as real;
    var yResolution := (v.yMax - v.yMin) / sc.down as real;
    Complex(v.xMin + x as real * xResolution, v.yMax - y as real * yResolution)
  }

  function EquationAt(sc: Scene, point: Complex): Equation {
    if sc.julia then Quadratic(sc.juliaConstant)
    else if sc.alternate == 1 then Subtractive
    else if sc.alternate == 2 then Additive(point)
    else Quadratic(point)
  }

  /** The count a sequential program would store for pixel (x, y). */
  function Pixel(sc: Scene, v: View, x: int, y: int): int
    requires sc.across >= 1 && sc.down >= 1
  {
    var point := PointAt(sc, v, x, y);
    EscapeCount(EquationAt(sc, point), point, v.cap, sc.limit)
  }

  /** Which point a pixel stands for: the image spans the view from its top left corner (xMin, yMax)
      to its bottom right one (xMax, yMin) ... */
  lemma PixelCorners(sc: Scene, v: View)
    requires sc.across >= 1 && sc.down >= 1
    ensures PointAt(sc, v, 0, 0) == Complex(v.xMin, v.yMax)
    ensures PointAt(sc, v, sc.across, sc.down) == Complex(v.xMax, v.yMin)
  {
    var dx, dy := (v.xMax - v.xMin) / sc.across as real, (v.yMax - v.yMin) / sc.down as real;
    var corner := PointAt(sc, v, sc.across, sc.down);
    assert corner.re == v.xMax by {
      assert corner.re == v.xMin + sc.across as real * dx;
      Scaled(v.xMax - v.xMin, sc.across as real);
    }
    assert corner.im == v.yMin by {
      assert corner.im == v.yMax - sc.down as real * dy;
      Scaled(v.yMax - v.yMin, sc.down as real);
    }
  }

  lemma Scaled(span: real, n: real)
    requires n > 0.0
    ensures n * (span / n) == span
  {
  }

  /** ... in equal steps: a column moves the real part by (xMax - xMin) / across, a row lowers the
      imaginary part by (yMax - yMin) / down. */
  lemma PixelSteps(sc: Scene, v: View, x: int, y: int)
    requires sc.across >= 1 && sc.down >= 1
    ensures var p, right, below := PointAt(sc, v, x, y), PointAt(sc, v, x + 1, y), PointAt(sc, v, x, y + 1);
      && right == Complex(p.re + (v.xMax - v.xMin) / sc.across as real, p.im)
      && below == Complex(p.re, p.im - (v.yMax - v.yMin) / sc.down as real)
  {
    var dx, dy := (v.xMax - v.xMin) / sc.across as real, (v.yMax - v.yMin) / sc.down as real;
    StepReal(x, dx);
    StepReal(y, dy);
    assert PointAt(sc, v, x + 1, y).re == v.xMin + (x + 1) as real * dx;
    assert PointAt(sc, v, x, y + 1).im == v.yMax - (y + 1) as real * dy;
  }

  lemma StepReal(k: int, d: real)
    ensures (k + 1) as real * d == k as real * d + d
  {
    assert (k + 1) as real == k as real + 1.0;
  }

  /** The recurrence of a pixel: a Julia image iterates with its constant whatever the alternate is;
      otherwise 1 and 2 select the two variants and anything else makes c the pixel's own point. */
  lemma EquationChoice(sc: Scene, point: Complex)
    ensures sc.julia ==> EquationAt(sc, point) == Quadratic(sc.juliaConstant)
    ensures !sc.julia && sc.alternate == 1 ==> EquationAt(sc, point) == Subtractive
    ensures !sc.julia && sc.alternate == 2 ==> EquationAt(sc, point) == Additive(point)
    ensures !sc.julia && sc.alternate != 1 && sc.alternate != 2 ==> EquationAt(sc, point) == Quadratic(point)
  {
  }

  /** What a pixel's value says: the orbit that starts at the pixel's point is inside the scene's
      limit below the value and outside at it, unless the view's cap was met. */
  lemma PixelDescribesOrbit(sc: Scene, v: View, x: int, y: int)
    requires sc.across >= 1 && sc.down >= 1
    ensures var point, n := PointAt(sc, v, x, y), Pixel(sc, v, x, y);
      && 0 <= n && (v.cap >= 0 ==> n <= v.cap) && (v.cap < 0 ==> n == 0)
      && (forall k: nat :: k < n ==> Inside(Orbit(EquationAt(sc, point), point, k), sc.limit))
      && (n < v.cap ==> !Inside(Orbit(EquationAt(sc, point), point, n), sc.limit))
  {
    var point := PointAt(sc, v, x, y);
    CountDescribesOrbit(EquationAt(sc, point), point, v.cap, sc.limit);
  }

  /** The announcement that ends the program is the one under which all pixels are one point. */
  lemma QuitIffOnePoint(sc: Scene, v: View)
    requires sc.across >= 1 && sc.down >= 1
    ensures IsQuit(v) <==> forall x, y :: PointAt(sc, v, x, y) == PointAt(sc, v, 0, 0)
  {
    if forall x, y :: PointAt(sc, v, x, y) == PointAt(sc, v, 0, 0) {
      PixelCorners(sc, v);
      assert PointAt(sc, v, sc.across, sc.down) == PointAt(sc, v, 0, 0);
    }
  }

  // ----- a tile as a row-major buffer

  function Width(t: Tile): int {
    t.i2 + 1 - t.i1
  }

  function Height(t: Tile): int {
    t.j2 + 1 - t.j1
  }

  predicate Proper(t: Tile) {
    t.i1 <= t.i2 && t.j1 <= t.j2
  }

  /** The element count of the tag-201 message. */
  function CellCount(t: Tile): nat
    requires Proper(t)
  {
    Width(t) * Height(t)
  }

  function CellX(t: Tile, k: nat): int
    requires Proper(t)
  {
    t.i1 + k % Width(t)
  }

  function CellY(t: Tile, k: nat): int
    requires Proper(t)
  {
    t.j1 + k / Width(t)
  }

  lemma RowMajor(t: Tile, x: int, y: int)
    requires Proper(t) && Contains(t, x, y)
    ensures var k := (y - t.j1) * Width(t) + (x - t.i1);
            0 <= k < CellCount(t) && CellX(t, k) == x && CellY(t, k) == y
  {
    var w, q, r := Width(t), y - t.j1, x - t.i1;
    DivModUnique(w, q, r);
    MulSucc(q, w);
    MulMono(q + 1, Height(t), w);
  }

  lemma CellInTile(t: Tile, k: nat)
    requires Proper(t) && k < CellCount(t)
    ensures Contains(t, CellX(t, k), CellY(t, k))
  {
    var w := Width(t);
    var q := k / w;
    assert k == q * w + k % w;
    if q >= Height(t) {
      MulMono(Height(t), q, w);
    }
  }

  /** What a worker sends back for a tile. */
  function TileValues(sc: Scene, v: View, t: Tile): (r: seq<int>)
    requires sc.across >= 1 && sc.down >= 1 && Proper(t)
    ensures |r| == CellCount(t)
  {
    seq(CellCount(t), k requires 0 <= k => Pixel(sc, v, CellX(t, k), CellY(t, k)))
  }

  /** The worker's nested loops over one tile. */
  method ComputeTile(sc: Scene, v: View, t: Tile, buffer: array<int>)
    requires sc.across >= 1 && sc.down >= 1 && Proper(t)
    requires CellCount(t) <= buffer.Length
    modifies buffer
    ensures buffer[..CellCount(t)] == TileValues(sc, v, t)
  {
    var k := 0;
    var w := Width(t);
    var j := t.j1;
    while j <= t.j2
      invariant t.j1 <= j <= t.j2 + 1
      invariant k == (j - t.j1) * w <= CellCount(t)
      invariant forall m :: 0 <= m < k ==> buffer[m] == Pixel(sc, v, CellX(t, m), CellY(t, m))
    {
      var i := t.i1;
      MulSucc(j - t.j1, w);
      MulMono(j + 1 - t.j1, Height(t), w);
      while i <= t.i2
        invariant t.i1 <= i <= t.i2 + 1
        invariant k == (j - t.j1) * w + (i - t.i1) <= CellCount(t)
        invariant forall m :: 0 <= m < k ==> buffer[m] == Pixel(sc, v, CellX(t, m), CellY(t, m))
      {
        RowMajor(t, i, j);
        var point := PointAt(sc, v, i, j);
        var count := PointCount(EquationAt(sc, point), point, v.cap, sc.limit);
        buffer[k] := count;
        k := k + 1;
        i := i + 1;
      }
      j := j + 1;
    }
  }

  // ----- copying a tile into the image

  function IndexOf(stride: int, x: int, y: int): int {
    y * stride + x
  }

  predicate CellsInBounds(t: Tile, stride: int, length: int)
    requires Proper(t)
  {
    forall k: nat :: k < CellCount(t) ==> 0 <= IndexOf(stride, CellX(t, k), CellY(t, k)) < length
  }

  /** The image after the first n cells of the buffer have been stored. */
  function DrawCells(grid: seq<int>, t: Tile, data: seq<int>, stride: int, n: nat): (r: seq<int>)
    requires Proper(t) && n <= CellCount(t) <= |data| && CellsInBounds(t, stride, |grid|)
    ensures |r| == |grid|
  {
    if n == 0 then grid
    else DrawCells(grid, t, data, stride, n - 1)[IndexOf(stride, CellX(t, n - 1), CellY(t, n - 1)) := data[n - 1]]
  }

  function Draw(grid: seq<int>, t: Tile, data: seq<int>, stride: int): (r: seq<int>)
    requires Proper(t) && CellCount(t) <= |data| && CellsInBounds(t, stride, |grid|)
    ensures |r| == |grid|
  {
    DrawCells(grid, t, data, stride, CellCount(t))
  }

  /** One store of `output_data`: the pixel (i, j) is cell k of the tile. */
  method StoreCell(ghost before: seq<int>, data: array<int>, t: Tile, image: array<int>, height: int, i: int, j: int, k: nat)
    requires Proper(t) && k < CellCount(t) <= data.Length && data != image && CellX(t, k) == i && CellY(t, k) == j
    requires |before| == image.Length && CellsInBounds(t, height, image.Length)
    requires image[..] == DrawCells(before, t, data[..], height, k)
    modifies image
    ensures image[..] == DrawCells(before, t, data[..], height, k + 1)
  {
    assert 0 <= IndexOf(height, CellX(t, k), CellY(t, k)) < image.Length;
    image[(j * height) + i] := data[k];
  }

  // The inner loop of `output_data`, over row j of the tile.
  method OutputRow(ghost before: seq<int>, data: array<int>, t: Tile, image: array<int>, height: int, j: int, start: nat)
      returns (k: nat)
    requires Proper(t) && t.j1 <= j <= t.j2 && start == (j - t.j1) * Width(t) && start + Width(t) <= CellCount(t)
    requires CellCount(t) <= data.Length && data != image
    requires |before| == image.Length && CellsInBounds(t, height, image.Length)
    requires image[..] == DrawCells(before, t, data[..], height, start)
    modifies image
    ensures k == start + Width(t) && image[..] == DrawCells(before, t, data[..], height, k)
  {
    k := start;
    var i := t.i1;
    while i <= t.i2
      invariant t.i1 <= i <= t.i2 + 1 && k == start + (i - t.i1)
      invariant image[..] == DrawCells(before, t, data[..], height, k)
    {
      RowMajor(t, i, j);
      StoreCell(before, data, t, image, height, i, j, k);
      k := k + 1;
      i := i + 1;
    }
  }

  /** `output_data`: the row stride is the image's height. */
  method OutputData(data: array<int>, t: Tile, image: array<int>, width: int, height: int)
    requires Proper(t) && CellCount(t) <= data.Length && data != image
    requires CellsInBounds(t, height, image.Length)
    modifies image
    ensures image[..] == Draw(old(image[..]), t, data[..], height)
  {
    var k := 0;
    ghost var before := image[..];
    var j := t.j1;
    while j <= t.j2
      invariant t.j1 <= j <= t.j2 + 1
      invariant k == (j - t.j1) * Width(t) <= CellCount(t)
      invariant image[..] == DrawCells(before, t, data[..], height, k)
    {
      MulSucc(j - t.j1, Width(t));
      MulMono(j + 1 - t.j1, Height(t), Width(t));
      Commutes(Height(t), Width(t));
      k := OutputRow(before, data, t, image, height, j, k);
      j := j + 1;
    }
    assert j - t.j1 == Height(t);
    Commutes(Height(t), Width(t));
  }

  // ----- when the layout with a given row stride is usable

  /** Covered pixels fall inside an array of w*h elements. */
  ghost predicate LayoutInBounds(w: int, h: int, stride: int) {
    forall x, y :: Covered(w, h, x, y) ==> 0 <= IndexOf(stride, x, y) < w * h
  }

  /** Different covered pixels get different elements. */
  ghost predicate LayoutInjective(w: int, h: int, stride: int) {
    forall x, y, x', y' ::
      (Covered(w, h, x, y) && Covered(w, h, x', y') && IndexOf(stride, x, y) == IndexOf(stride, x', y'))
      ==> x == x' && y == y'
  }

  ghost predicate LayoutSound(w: int, h: int, stride: int) {
    LayoutInBounds(w, h, stride) && LayoutInjective(w, h, stride)
  }

  lemma WideStrideInjective(w: int, h: int, stride: int)
    requires w >= 1 && h >= 1 && CoveredSide(w) <= stride
    ensures LayoutInjective(w, h, stride)
  {
    forall x, y, x', y' | Covered(w, h, x, y) && Covered(w, h, x', y')
                          && IndexOf(stride, x, y) == IndexOf(stride, x', y')
      ensures x == x' && y == y'
    {
      DivModUnique(stride, y, x);
      DivModUnique(stride, y', x');
    }
  }

  /** Stored with stride `height`, as the source does, the covered pixels are told apart exactly
      when the image is a single row or its covered columns are no more than its rows. */
  lemma InjectiveIff(w: int, h: int)
    requires w >= 1 && h >= 1
    ensures LayoutInjective(w, h, h) <==> h == 1 || CoveredSide(w) <= h
  {
    if CoveredSide(w) <= h {
      WideStrideInjective(w, h, h);
    } else if h == 1 {
    } else {
      assert Covered(w, h, h, 0) && Covered(w, h, 0, 1);
      assert IndexOf(h, h, 0) == IndexOf(h, 0, 1);
    }
  }

  /** ... and they stay inside the array exactly when the last covered pixel does. */
  lemma InBoundsIff(w: int, h: int)
    requires w >= 1 && h >= 1
    ensures LayoutInBounds(w, h, h) <==> (CoveredSide(h) - 1) * h + CoveredSide(w) <= w * h
  {
    var cw, ch := CoveredSide(w), CoveredSide(h);
    assert Covered(w, h, cw - 1, ch - 1);
    if (ch - 1) * h + cw <= w * h {
      forall x, y | Covered(w, h, x, y) ensures 0 <= IndexOf(h, x, y) < w * h {
        MulMono(0, y, h);
        MulMono(y, ch - 1, h);
      }
    }
  }

  /** A square image is always stored soundly. */
  lemma SquareIsSound(n: int)
    requires n >= 1
    ensures LayoutSound(n, n, n)
  {
    InjectiveIff(n, n);
    InBoundsIff(n, n);
    MulMono(CoveredSide(n) - 1, n - 1, n);
    MulSucc(n - 1, n);
  }

  /** A 40 x 20 image is not: pixels (20, 0) and (0, 1) share an element.  A 20 x 40 image runs off
      the end of its array. */
  lemma OblongIsUnsound()
    ensures !LayoutInjective(40, 20, 20)
    ensures !LayoutInBounds(20, 40, 40)
  {
    InjectiveIff(40, 20);
    InBoundsIff(20, 40);
  }

  /** Stride `width`, which the fence program uses, is sound for every image. */
  lemma RowStrideIsSound(w: int, h: int)
    requires w >= 1 && h >= 1
    ensures LayoutSound(w, h, w)
  {
    WideStrideInjective(w, h, w);
    forall x, y | Covered(w, h, x, y) ensures 0 <= IndexOf(w, x, y) < w * h {
      MulMono(0, y, w);
      MulMono(y, h - 1, w);
      MulSucc(h - 1, w);
    }
  }

  // ----- what drawing a tile does to the image

  ghost predicate Shows(sc: Scene, v: View, stride: int, grid: seq<int>, x: int, y: int)
    requires sc.across >= 1 && sc.down >= 1
  {
    && 0 <= IndexOf(stride, x, y) < |grid|
    && grid[IndexOf(stride, x, y)] == Pixel(sc, v, x, y)
  }

  ghost predicate ShowsTile(sc: Scene, v: View, stride: int, grid: seq<int>, t: Tile)
    requires sc.across >= 1 && sc.down >= 1
  {
    forall x, y :: Contains(t, x, y) ==> Shows(sc, v, stride, grid, x, y)
  }

  /** No covered pixel is stored at this index. */
  ghost predicate Untouched(w: int, h: int, stride: int, index: int) {
    forall x, y :: Covered(w, h, x, y) ==> IndexOf(stride, x, y) != index
  }

  lemma TileCellsInBounds(w: int, h: int, stride: int, t: Tile)
    requires WithinImage(w, h, t) && LayoutInBounds(w, h, stride)
    ensures Proper(t) && CellsInBounds(t, stride, w * h)
  {
    forall k: nat | k < CellCount(t)
      ensures 0 <= IndexOf(stride, CellX(t, k), CellY(t, k)) < w * h
    {
      CellInTile(t, k);
      assert Covered(w, h, CellX(t, k), CellY(t, k));
    }
  }

  /** Storing the first n correct values: those cells are right, no cell that was right is spoiled,
      and nothing outside the covered region moves. */
  lemma {:induction false} DrawCellsEffect(sc: Scene, v: View, stride: int, grid: seq<int>, t: Tile, n: nat)
    requires sc.across >= 1 && sc.down >= 1 && LayoutSound(sc.across, sc.down, stride)
    requires WithinImage(sc.across, sc.down, t) && |grid| == sc.across * sc.down
    requires Proper(t) && n <= CellCount(t) && CellsInBounds(t, stride, |grid|)
    ensures var g := DrawCells(grid, t, TileValues(sc, v, t), stride, n);
            && (forall k: nat :: k < n ==> Shows(sc, v, stride, g, CellX(t, k), CellY(t, k)))
            && (forall x, y :: Covered(sc.across, sc.down, x, y) && Shows(sc, v, stride, grid, x, y)
                               ==> Shows(sc, v, stride, g, x, y))
            && (forall i :: 0 <= i < |grid| && Untouched(sc.across, sc.down, stride, i) ==> g[i] == grid[i])
  {
    if n > 0 {
      DrawCellsEffect(sc, v, stride, grid, t, n - 1);
      CellInTile(t, n - 1);
      forall k: nat | k < n ensures Covered(sc.across, sc.down, CellX(t, k), CellY(t, k)) {
        CellInTile(t, k);
      }
    }
  }

  lemma DrawEffect(sc: Scene, v: View, stride: int, grid: seq<int>, t: Tile)
    requires sc.across >= 1 && sc.down >= 1 && LayoutSound(sc.across, sc.down, stride)
    requires WithinImage(sc.across, sc.down, t) && |grid| == sc.across * sc.down
    ensures Proper(t) && CellsInBounds(t, stride, |grid|)
    ensures var g := Draw(grid, t, TileValues(sc, v, t), stride);
            && ShowsTile(sc, v, stride, g, t)
            && (forall x, y :: Covered(sc.across, sc.down, x, y) && Shows(sc, v, stride, grid, x, y)
                               ==> Shows(sc, v, stride, g, x, y))
            && (forall i :: 0 <= i < |grid| && Untouched(sc.across, sc.down, stride, i) ==> g[i] == grid[i])
  {
    TileCellsInBounds(sc.across, sc.down, stride, t);
    DrawCellsEffect(sc, v, stride, grid, t, CellCount(t));
    var g := Draw(grid, t, TileValues(sc, v, t), stride);
    forall x, y | Contains(t, x, y) ensures Shows(sc, v, stride, g, x, y) {
      RowMajor(t, x, y);
    }
  }
}
