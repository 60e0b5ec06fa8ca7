/** One image of examples/pmandel_fence.c: the root hands out tiles, and the workers return counts,
    by one-sided puts into windows, in epochs separated by collective fences (section 11.5.1 of
    MPI 3.1).

    A process runs from one fence to the next in one step, in which it issues its puts; a fence
    releases everybody once everybody is in it, and only then do the epoch's puts take effect, in
    an arbitrary order.  The root's window is a map from displacement to value, so that a put
    outside the image array is visible rather than forbidden.
 */
module FenceFarm {
  import opened Tiles
  import opened Drawing
  import opened Records

  const IDLE := Record(-1, Tile(-1, -1, -1, -1))

  /** `vector` says whether a worker returns a tile by one put of a vector datatype or by one put
      per cell. */
  datatype Setup = Setup(workers: nat, scene: Scene, view: View, tiles: seq<Tile>, vector: bool)

  ghost predicate ValidSetup(c: Setup) {
    && c.workers >= 1
    && c.scene.across >= 1 && c.scene.down >= 1
    && IsTiling(c.scene.across, c.scene.down, c.tiles)
  }

  // ----- handing out work

  /** The root's work array after a hand-out loop over n workers, with its counter and flag. */
  datatype Hand = Hand(records: seq<Record>, k: nat, done: bool)

  function DealTo(c: Setup, k: nat, done: bool, n: nat): (h: Hand)
    requires |c.tiles| == TILES && k < TILES
    ensures |h.records| == n && h.k < TILES
  {
    if n == 0 then Hand([], k, done)
    else
      var h := DealTo(c, k, done, n - 1);
      var rec := if !h.done then Record(h.k + 1, c.tiles[h.k]) else IDLE;
      Hand(h.records + [rec], if h.k < TILES - 1 then h.k + 1 else h.k, h.done || h.k >= TILES - 1)
  }

  /** The hand-out loop itself, over the root's array of five-integer records. */
  method HandOutWork(c: Setup, k0: nat, done0: bool) returns (work: seq<Record>, k: nat, done: bool)
    requires |c.tiles| == TILES && k0 < TILES
    ensures Hand(work, k, done) == DealTo(c, k0, done0, c.workers)
  {
    work, k, done := [], k0, done0;
    for i := 0 to c.workers
      invariant Hand(work, k, done) == DealTo(c, k0, done0, i)
    {
      if !done {
        work := work + [Record(k + 1, c.tiles[k])];
      } else {
        work := work + [IDLE];
      }
      if k < 399 {
        k := k + 1;
      } else {
        done := true;
      }
    }
  }

  // ----- returning results

  /** The puts of a tile one cell at a time: displacement and value. */
  function CellPuts(c: Setup, t: Tile): seq<(int, int)>
    requires c.scene.across >= 1 && c.scene.down >= 1 && Proper(t)
  {
    seq(CellCount(t), k requires 0 <= k =>
      (CellY(t, k) * c.scene.across + CellX(t, k), Pixel(c.scene, c.view, CellX(t, k), CellY(t, k))))
  }

  /** The cells a vector datatype selects: `rows` blocks of `width` elements, `stride` apart,
      starting at displacement `disp`, taking their values from the buffer in order. */
  function VectorPut(disp: int, rows: nat, width: nat, stride: int, buffer: seq<int>): (r: seq<(int, int)>)
    requires |buffer| == rows * width
  {
    if rows == 0 then []
    else
      assert (rows - 1) * width == rows * width - width;
      VectorPut(disp, rows - 1, width, stride, buffer[..(rows - 1) * width])
      + seq(width, i requires 0 <= i < width => (disp + (rows - 1) * stride + i, buffer[(rows - 1) * width + i]))
  }

  function Puts(c: Setup, t: Tile): seq<(int, int)>
    requires c.scene.across >= 1 && c.scene.down >= 1 && Proper(t)
  {
    if c.vector then
      VectorPut(t.j1 * c.scene.across + t.i1, Height(t), Width(t), c.scene.across, TileValues(c.scene, c.view, t))
    else CellPuts(c, t)
  }

  /** A memory after a sequence of puts. */
  function Written(grid: map<int, int>, puts: seq<(int, int)>): map<int, int> {
    if puts == [] then grid
    else
      var last := puts[|puts| - 1];
      Written(grid, puts[..|puts| - 1])[last.0 := last.1]
  }

  // ----- the processes

  /** The fence a process is in or has last left.  The root's labels are those of its messages; a
      worker knows only three. */
  datatype RootPc = RTop | HandOut | DoWork | Collect | DoneWork | Done | ROut
  datatype WorkerPc = WTop | Receive | Work | Collected | WOut

  /** `inside` says that the process is in the fence rather than past it, `fences` how many fences
      it has entered. */
  datatype Worker = Worker(pc: WorkerPc, inside: bool, window: Record, fences: nat)

  datatype State = State(root: RootPc, inside: bool, fences: nat, k: nat, done: bool,
                         grid: map<int, int>, workers: seq<Worker>,
                         toWorkers: seq<Record>, toRoot: multiset<(int, int)>)

  datatype Step =
    | RootRuns
    | WorkerRuns(w: nat)
    | Fence(order: seq<(int, int)>)

  function Start(c: Setup, grid: map<int, int>, windows: seq<Record>): State
    requires |windows| == c.workers
  {
    State(RTop, false, 0, 0, false, grid,
          seq(c.workers, w requires 0 <= w < c.workers => Worker(WTop, false, windows[w], 0)),
          [], multiset{})
  }

  predicate WellSized(c: Setup, s: State) {
    && |s.workers| == c.workers && |c.tiles| == TILES && s.k < TILES
    && c.scene.across >= 1 && c.scene.down >= 1
  }

  predicate Enabled(c: Setup, s: State, step: Step)
    requires WellSized(c, s)
  {
    match step
    case RootRuns => !s.inside && !s.root.ROut?
    case WorkerRuns(w) =>
      && w < c.workers && !s.workers[w].inside && !s.workers[w].pc.WOut?
      && (s.workers[w].pc.Work? ==> Proper(s.workers[w].window.tile))
    case Fence(order) =>
      && s.inside && (forall w :: 0 <= w < c.workers ==> s.workers[w].inside)
      && multiset(order) == s.toRoot
      && (s.toWorkers != [] ==> |s.toWorkers| == c.workers)
  }

  /** The root's run to its next fence. */
  function RootRun(c: Setup, s: State): State
    requires WellSized(c, s) && Enabled(c, s, RootRuns)
  {
    match s.root
    case RTop => s.(root := HandOut, inside := true, fences := s.fences + 1)
    case HandOut =>
      var h := DealTo(c, s.k, s.done, c.workers);
      s.(root := DoWork, inside := true, fences := s.fences + 1, k := h.k, done := h.done, toWorkers := h.records)
    case DoWork => s.(root := Collect, inside := true, fences := s.fences + 1)
    case Collect => s.(root := if s.done then DoneWork else HandOut, inside := true, fences := s.fences + 1)
    case DoneWork =>
      s.(root := Done, inside := true, fences := s.fences + 1, toWorkers := seq(c.workers, _ => STOP))
    case Done => s.(root := ROut)
  }

  /** A worker's own state after its run to its next fence. */
  function WorkerNext(me: Worker): Worker {
    var next := me.(inside := true, fences := me.fences + 1);
    match me.pc
    case WTop => next.(pc := Receive)
    case Receive => next.(pc := Work)
    case Work => if me.window.first != 0 then next.(pc := Collected) else me.(pc := WOut)
    case Collected => next.(pc := Receive)
    case WOut => me
  }

  /** The puts it issues on the way: those of its tile, if it has one to work on. */
  function WorkerPuts(c: Setup, me: Worker): seq<(int, int)>
    requires c.scene.across >= 1 && c.scene.down >= 1
    requires me.pc.Work? ==> Proper(me.window.tile)
  {
    if me.pc.Work? && me.window.first != 0 then Puts(c, me.window.tile) else []
  }

  function WorkerRun(c: Setup, s: State, w: nat): State
    requires WellSized(c, s) && Enabled(c, s, WorkerRuns(w))
  {
    s.(workers := s.workers[w := WorkerNext(s.workers[w])],
       toRoot := s.toRoot + multiset(WorkerPuts(c, s.workers[w])))
  }

  /** The fence completes: all puts of the epoch land and everybody goes on. */
  function FenceRun(c: Setup, s: State, order: seq<(int, int)>): State
    requires WellSized(c, s) && Enabled(c, s, Fence(order))
  {
    s.(inside := false, grid := Written(s.grid, order), toWorkers := [], toRoot := multiset{},
       workers := seq(c.workers, w requires 0 <= w < c.workers =>
         s.workers[w].(inside := false,
                       window := if s.toWorkers == [] then s.workers[w].window else s.toWorkers[w])))
  }

  function Apply(c: Setup, s: State, step: Step): State
    requires WellSized(c, s) && Enabled(c, s, step)
  {
    match step
    case RootRuns => RootRun(c, s)
    case WorkerRuns(w) => WorkerRun(c, s, w)
    case Fence(order) => FenceRun(c, s, order)
  }

  ghost predicate Run(c: Setup, grid: map<int, int>, windows: seq<Record>, states: seq<State>, steps: seq<Step>) {
    && |windows| == c.workers
    && |states| == |steps| + 1
    && states[0] == Start(c, grid, windows)
    && forall i :: 0 <= i < |steps| ==>
                     WellSized(c, states[i]) && Enabled(c, states[i], steps[i])
                     && states[i + 1] == Apply(c, states[i], steps[i])
  }

  predicate Final(s: State) {
    s.root.ROut? && forall w :: 0 <= w < |s.workers| ==> s.workers[w].pc.WOut?
  }

  /** Displacements of the root's window. */
  predicate InWindow(c: Setup, i: int) {
    0 <= i < c.scene.across * c.scene.down
  }
}
