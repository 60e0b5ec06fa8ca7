/** Runs of the fence program: the processes stay in lockstep, every tile is handed out once, the
    image is right whatever the schedule and the order of puts, and when a put misses the window.
 */
module FenceFarmProofs {
  import opened Arith
  import opened Tiles
  import opened Drawing
  import opened Records
  import opened FenceFarm
  import opened Sums

  // ----- handing out work

  /** What worker i receives in round r (both counted from 0). */
  function RoundRecord(c: Setup, r: nat, i: nat): Record
    requires |c.tiles| == TILES
  {
    var t := r * c.workers + i;
    if 0 <= t < TILES then Record(t + 1, c.tiles[t]) else IDLE
  }

  function RoundRecords(c: Setup, r: nat): seq<Record>
    requires |c.tiles| == TILES
  {
    seq(c.workers, i requires 0 <= i => RoundRecord(c, r, i))
  }

  lemma {:induction false} DealToClosed(c: Setup, r: nat, n: nat)
    requires |c.tiles| == TILES && r * c.workers < TILES && n <= c.workers
    ensures r * c.workers >= 0
    ensures var h := DealTo(c, r * c.workers, false, n);
            && h.k == Min(TILES - 1, r * c.workers + n)
            && (h.done <==> r * c.workers + n >= TILES)
            && forall i :: 0 <= i < n ==> h.records[i] == RoundRecord(c, r, i)
  {
    MulMono(0, r, c.workers);
    if n > 0 {
      DealToClosed(c, r, n - 1);
    }
  }

  /** Tile t goes out in round t / workers, to worker t % workers, and at no other time. */
  lemma TileHandedOutOnce(c: Setup, t: nat, r: nat, i: nat)
    requires |c.tiles| == TILES && c.workers >= 1 && t < TILES && i < c.workers
    ensures RoundRecord(c, r, i).first == t + 1 <==> r == t / c.workers && i == t % c.workers
  {
    MulMono(0, r, c.workers);
    DivModUnique(c.workers, r, i);
    var q := t / c.workers;
    assert t == q * c.workers + t % c.workers;
  }

  // ----- returning results

  lemma {:induction false} VectorPutAt(disp: int, rows: nat, width: nat, stride: int, buffer: seq<int>, k: nat)
    requires |buffer| == rows * width && k < |buffer| && width > 0
    ensures |VectorPut(disp, rows, width, stride, buffer)| == |buffer|
    ensures VectorPut(disp, rows, width, stride, buffer)[k] == (disp + (k / width) * stride + k % width, buffer[k])
    decreases rows
  {
    if rows > 0 {
      MulSucc(rows - 1, width);
      var front := buffer[..(rows - 1) * width];
      VectorPutLength(disp, rows - 1, width, stride, front);
      if k < |front| {
        VectorPutAt(disp, rows - 1, width, stride, front, k);
      } else {
        DivModUnique(width, rows - 1, k - |front|);
      }
    }
  }

  lemma {:induction false} VectorPutLength(disp: int, rows: nat, width: nat, stride: int, buffer: seq<int>)
    requires |buffer| == rows * width
    ensures |VectorPut(disp, rows, width, stride, buffer)| == |buffer|
    decreases rows
  {
    if rows > 0 {
      MulSucc(rows - 1, width);
      VectorPutLength(disp, rows - 1, width, stride, buffer[..(rows - 1) * width]);
    }
  }

  lemma Distribute(a: int, b: int, n: int)
    ensures (a + b) * n == a * n + b * n
  {
  }

  /** The one vector put of a tile writes the same cells with the same values as the per-cell puts. */
  lemma VectorPutIsCellPuts(c: Setup, t: Tile)
    requires c.scene.across >= 1 && c.scene.down >= 1 && Proper(t)
    ensures Puts(c, t) == CellPuts(c, t)
  {
    if c.vector {
      var disp, rows, width, stride := t.j1 * c.scene.across + t.i1, Height(t), Width(t), c.scene.across;
      var buffer := TileValues(c.scene, c.view, t);
      assert |buffer| == rows * width;
      VectorPutLength(disp, rows, width, stride, buffer);
      forall k: nat | k < |buffer| ensures Puts(c, t)[k] == CellPuts(c, t)[k] {
        VectorPutAt(disp, rows, width, stride, buffer, k);
        Distribute(t.j1, k / width, stride);
      }
    }
  }

  /** A put inside the window that carries its pixel's sequential count. */
  predicate RightPut(c: Setup, p: (int, int))
    requires c.scene.across >= 1 && c.scene.down >= 1
  {
    p.0 >= 0 ==> InWindow(c, p.0) && p.1 == Pixel(c.scene, c.view, p.0 % c.scene.across, p.0 / c.scene.across)
  }

  function Stray(c: Setup): int {
    -c.scene.across - 1
  }

  // The put of one pixel.
  function PutAt(c: Setup, x: int, y: int): (int, int)
    requires c.scene.across >= 1 && c.scene.down >= 1
  {
    (IndexOf(c.scene.across, x, y), Pixel(c.scene, c.view, x, y))
  }

  lemma PutAtRight(c: Setup, x: int, y: int)
    requires c.scene.across >= 1 && c.scene.down >= 1 && Covered(c.scene.across, c.scene.down, x, y)
    ensures RightPut(c, PutAt(c, x, y)) && PutAt(c, x, y).0 >= 0
  {
    RowStrideIsSound(c.scene.across, c.scene.down);
    DivModUnique(c.scene.across, y, x);
  }

  lemma PutOfCell(c: Setup, t: Tile, k: nat)
    requires c.scene.across >= 1 && c.scene.down >= 1 && Proper(t) && k < CellCount(t)
    ensures CellPuts(c, t)[k] == PutAt(c, CellX(t, k), CellY(t, k)) && Contains(t, CellX(t, k), CellY(t, k))
  {
    CellInTile(t, k);
  }

  lemma CellHasPut(c: Setup, t: Tile, x: int, y: int)
    requires c.scene.across >= 1 && c.scene.down >= 1 && Proper(t) && Contains(t, x, y)
    ensures PutAt(c, x, y) in CellPuts(c, t)
  {
    RowMajor(t, x, y);
    var k := (y - t.j1) * Width(t) + (x - t.i1);
    PutOfCell(c, t, k);
  }

  lemma TilePuts(c: Setup, t: Tile, p: (int, int))
    requires ValidSetup(c) && WithinImage(c.scene.across, c.scene.down, t)
    ensures p in Puts(c, t) <==> exists x, y :: Contains(t, x, y) && p == PutAt(c, x, y)
    ensures p in Puts(c, t) ==> RightPut(c, p) && p.0 >= 0
  {
    VectorPutIsCellPuts(c, t);
    if p in Puts(c, t) {
      var k: nat :| k < |CellPuts(c, t)| && CellPuts(c, t)[k] == p;
      PutOfCell(c, t, k);
      assert Covered(c.scene.across, c.scene.down, CellX(t, k), CellY(t, k));
      PutAtRight(c, CellX(t, k), CellY(t, k));
    }
    forall x, y | Contains(t, x, y) && p == PutAt(c, x, y)
      ensures p in Puts(c, t)
    {
      CellHasPut(c, t, x, y);
    }
  }

  /** The idle record makes a worker put one value at displacement -width - 1. */
  lemma IdlePuts(c: Setup)
    requires c.scene.across >= 1 && c.scene.down >= 1
    ensures Proper(IDLE.tile)
    ensures Puts(c, IDLE.tile) == [(Stray(c), Pixel(c.scene, c.view, -1, -1))]
  {
    VectorPutIsCellPuts(c, IDLE.tile);
    assert CellCount(IDLE.tile) == 1;
  }

  // ----- the effect of an epoch's puts

  ghost predicate Hit(puts: seq<(int, int)>, i: int) {
    exists p :: p in puts && p.0 == i
  }

  /** Right puts in any order leave a cell they hit with its pixel's count, and any other cell as it
      was. */
  lemma {:induction false} WrittenEffect(c: Setup, grid: map<int, int>, order: seq<(int, int)>, i: int)
    requires c.scene.across >= 1 && c.scene.down >= 1
    requires forall p :: p in order ==> RightPut(c, p)
    ensures var g := Written(grid, order);
            && (i in g <==> i in grid || Hit(order, i))
            && (i in g && i >= 0 && Hit(order, i) ==>
                  g[i] == Pixel(c.scene, c.view, i % c.scene.across, i / c.scene.across))
            && (i in grid && !Hit(order, i) ==> i in g && g[i] == grid[i])
  {
    if order != [] {
      var front, last := order[..|order| - 1], order[|order| - 1];
      WrittenEffect(c, grid, front, i);
      assert order == front + [last];
      assert Hit(order, i) <==> Hit(front, i) || last.0 == i;
      assert RightPut(c, last);
    }
  }

  // ----- the invariant

  /** The last fence that has completed. */
  datatype Phase = PTop | PHandOut | PDoWork | PCollect | PDoneWork | PDone

  function RootAt(p: Phase): RootPc {
    match p
    case PTop => RTop case PHandOut => HandOut case PDoWork => DoWork
    case PCollect => Collect case PDoneWork => DoneWork case PDone => Done
  }

  /** What the workers call the same fence: both kinds of hand-out look alike to them. */
  function WorkerAt(p: Phase): WorkerPc {
    match p
    case PTop => WTop case PHandOut => Receive case PDoWork => Work
    case PCollect => Collected case PDoneWork => Receive case PDone => Work
  }

  function NextPhase(p: Phase, done: bool): Phase {
    match p
    case PTop => PHandOut case PHandOut => PDoWork case PDoWork => PCollect
    case PCollect => if done then PDoneWork else PHandOut
    case PDoneWork => PDone case PDone => PDone
  }

  /** Fences completed when `last` was the last one and r rounds of work have reached the workers. */
  function FencesAt(last: Phase, r: nat): int {
    match last
    case PTop => 0 case PHandOut => 3 * r + 1 case PDoWork => 3 * r - 1
    case PCollect => 3 * r case PDoneWork => 3 * r + 1 case PDone => 3 * r + 2
  }

  ghost predicate Lockstep(c: Setup, s: State, last: Phase, r: nat) {
    && s.fences == FencesAt(last, r) + (if s.inside then 1 else 0)
    && (if s.inside then last != PDone && s.root == RootAt(NextPhase(last, s.done))
        else s.root == RootAt(last) || (last == PDone && s.root.ROut?))
    && forall w :: 0 <= w < |s.workers| ==> WorkerInStep(s.workers[w], last, r)
  }

  predicate WorkerInStep(me: Worker, last: Phase, r: nat) {
    && me.fences == FencesAt(last, r) + (if me.inside then 1 else 0)
    && (if me.inside then last != PDone && me.pc == WorkerAt(NextPhase(last, false))
        else me.pc == WorkerAt(last) || (last == PDone && me.pc.WOut?))
  }

  /** The root's counter and flag after d rounds have been dealt. */
  predicate Dealt(c: Setup, s: State, d: nat) {
    s.k == Min(TILES - 1, d * c.workers) && (s.done <==> d * c.workers >= TILES)
  }

  ghost predicate RoundsOk(c: Setup, s: State, last: Phase, r: nat)
    requires WellSized(c, s)
  {
    && Dealt(c, s, if last == PHandOut && s.inside then r + 1 else r)
    && (last == PTop ==> r == 0)
    && (last == PHandOut ==> r * c.workers < TILES)
    && (last == PDoWork ==> r >= 1 && (r - 1) * c.workers < TILES)
    && (last == PCollect || last == PDoneWork || last == PDone ==> r >= 1 && (r - 1) * c.workers < TILES)
    && (last == PDoneWork || last == PDone ==> s.done)
  }

  ghost predicate RecordsOk(c: Setup, s: State, last: Phase, r: nat)
    requires WellSized(c, s)
  {
    && s.toWorkers == (if last == PHandOut && s.inside then RoundRecords(c, r)
                       else if last == PDoneWork && s.inside then seq(c.workers, _ => STOP)
                       else [])
    && (last == PDoWork ==>
          r >= 1 && forall w :: 0 <= w < |s.workers| ==> s.workers[w].window == RoundRecord(c, r - 1, w))
    && (last == PDone ==> forall w :: 0 <= w < |s.workers| ==> s.workers[w].window == STOP)
  }

  /** The puts that the workers' current records ask for. */
  function AskedPuts(c: Setup, workers: seq<Worker>): seq<seq<(int, int)>>
    requires c.scene.across >= 1 && c.scene.down >= 1
    requires forall w :: 0 <= w < |workers| ==> Proper(workers[w].window.tile)
  {
    seq(|workers|, w requires 0 <= w < |workers| => Puts(c, workers[w].window.tile))
  }

  /** The bag holds exactly the puts of the workers that are in the fence. */
  ghost predicate InFlight(workers: seq<Worker>, puts: seq<seq<(int, int)>>, bag: multiset<(int, int)>) {
    && |puts| == |workers|
    && forall p :: p in bag <==> exists w :: 0 <= w < |workers| && workers[w].inside && p in puts[w]
  }

  ghost predicate PutsOk(c: Setup, s: State, last: Phase)
    requires WellSized(c, s)
  {
    if last != PDoWork then s.toRoot == multiset{}
    else
      && (forall w :: 0 <= w < |s.workers| ==> Proper(s.workers[w].window.tile))
      && InFlight(s.workers, AskedPuts(c, s.workers), s.toRoot)
  }

  ghost predicate Shown(c: Setup, grid: map<int, int>, x: int, y: int)
    requires c.scene.across >= 1 && c.scene.down >= 1
  {
    var i := IndexOf(c.scene.across, x, y);
    i in grid && grid[i] == Pixel(c.scene, c.view, x, y)
  }

  /** After q rounds have been collected: their tiles are shown, uncovered cells are as before, and
      the only displacement ever written outside the window is the idle workers' one. */
  ghost predicate GridOk(c: Setup, grid0: map<int, int>, grid: map<int, int>, q: nat)
    requires c.scene.across >= 1 && c.scene.down >= 1 && |c.tiles| == TILES
  {
    && (forall i :: i in grid <==> InWindow(c, i) || (i == Stray(c) && q * c.workers > TILES))
    && (forall t, x, y :: 0 <= t < TILES && t < q * c.workers && Contains(c.tiles[t], x, y) ==> Shown(c, grid, x, y))
    && (forall i :: i in grid && i in grid0 && Untouched(c.scene.across, c.scene.down, c.scene.across, i) ==>
                      grid[i] == grid0[i])
  }

  function CollectedRounds(last: Phase, r: nat): int {
    if last == PDoWork then r - 1 else r
  }

  ghost predicate Inv(c: Setup, grid0: map<int, int>, s: State, last: Phase, r: nat) {
    && ValidSetup(c) && WellSized(c, s)
    && (forall i :: i in grid0 <==> InWindow(c, i))
    && Lockstep(c, s, last, r)
    && RoundsOk(c, s, last, r)
    && RecordsOk(c, s, last, r)
    && PutsOk(c, s, last)
    && CollectedRounds(last, r) >= 0 && GridOk(c, grid0, s.grid, CollectedRounds(last, r))
  }

  lemma StartOk(c: Setup, grid0: map<int, int>, windows: seq<Record>)
    requires ValidSetup(c) && |windows| == c.workers && forall i :: i in grid0 <==> InWindow(c, i)
    ensures Inv(c, grid0, Start(c, grid0, windows), PTop, 0)
  {
  }

  lemma RootRunLockstep(c: Setup, s: State, last: Phase, r: nat)
    requires WellSized(c, s) && Enabled(c, s, RootRuns)
    requires Lockstep(c, s, last, r) && RoundsOk(c, s, last, r)
    ensures WellSized(c, RootRun(c, s)) && Lockstep(c, RootRun(c, s), last, r)
  {
  }

  lemma RootRunRounds(c: Setup, s: State, last: Phase, r: nat)
    requires WellSized(c, s) && Enabled(c, s, RootRuns)
    requires Lockstep(c, s, last, r) && RoundsOk(c, s, last, r) && RecordsOk(c, s, last, r)
    ensures RoundsOk(c, RootRun(c, s), last, r) && RecordsOk(c, RootRun(c, s), last, r)
  {
    if last == PHandOut {
      DealToClosed(c, r, c.workers);
      MulSucc(r, c.workers);
      assert RootRun(c, s).toWorkers == RoundRecords(c, r);
    }
  }

  lemma RootRunOk(c: Setup, grid0: map<int, int>, s: State, last: Phase, r: nat)
    requires Inv(c, grid0, s, last, r) && Enabled(c, s, RootRuns)
    ensures Inv(c, grid0, RootRun(c, s), last, r)
  {
    var s' := RootRun(c, s);
    RootRunLockstep(c, s, last, r);
    RootRunRounds(c, s, last, r);
    assert s'.toRoot == s.toRoot && s'.workers == s.workers && s'.grid == s.grid;
    assert PutsOk(c, s', last);
  }

  /** A worker whose record is that of a round works on it; one whose record is the stop leaves. */
  lemma WorkerNextInStep(c: Setup, me: Worker, last: Phase, r: nat)
    requires WorkerInStep(me, last, r) && !me.inside && !me.pc.WOut?
    requires last == PDoWork ==> me.window.first != 0
    requires last == PDone ==> me.window == STOP
    ensures WorkerInStep(WorkerNext(me), last, r) && WorkerNext(me).window == me.window
    ensures last == PDoWork ==> WorkerNext(me).inside
    ensures me.pc.Work? && me.window.first != 0 ==> last == PDoWork
  {
  }

  lemma RoundRecordWorks(c: Setup, r: nat, i: nat)
    requires ValidSetup(c)
    ensures RoundRecord(c, r, i).first != 0 && Proper(RoundRecord(c, r, i).tile)
  {
    MulMono(0, r, c.workers);
    var t := r * c.workers + i;
    if t < TILES {
      assert c.tiles[t] in c.tiles;
    }
  }

  lemma InFlightGrows(workers: seq<Worker>, puts: seq<seq<(int, int)>>, bag: multiset<(int, int)>, w: nat, me: Worker)
    requires InFlight(workers, puts, bag) && w < |workers| && !workers[w].inside && me.inside
    ensures InFlight(workers[w := me], puts, bag + multiset(puts[w]))
  {
    var workers' := workers[w := me];
    forall p
      ensures p in bag + multiset(puts[w]) <==>
              exists i :: 0 <= i < |workers'| && workers'[i].inside && p in puts[i]
    {
      if p in bag {
        var i :| 0 <= i < |workers| && workers[i].inside && p in puts[i];
        assert workers'[i].inside;
      } else if p in puts[w] {
        assert workers'[w].inside;
      }
    }
  }

  lemma WorkerRunPuts(c: Setup, s: State, last: Phase, w: nat)
    requires WellSized(c, s) && Enabled(c, s, WorkerRuns(w)) && PutsOk(c, s, last)
    requires last == PDoWork ==>
               s.workers[w].pc.Work? && s.workers[w].window.first != 0 && WorkerNext(s.workers[w]).inside
    requires last != PDoWork ==> WorkerPuts(c, s.workers[w]) == []
    ensures PutsOk(c, WorkerRun(c, s, w), last)
  {
    if last == PDoWork {
      var s' := WorkerRun(c, s, w);
      InFlightGrows(s.workers, AskedPuts(c, s.workers), s.toRoot, w, WorkerNext(s.workers[w]));
      assert AskedPuts(c, s'.workers) == AskedPuts(c, s.workers);
    }
  }

  lemma WorkerRunLockstep(c: Setup, s: State, last: Phase, r: nat, w: nat)
    requires WellSized(c, s) && Enabled(c, s, WorkerRuns(w)) && Lockstep(c, s, last, r)
    requires WorkerInStep(WorkerNext(s.workers[w]), last, r)
    ensures Lockstep(c, WorkerRun(c, s, w), last, r)
  {
  }

  lemma WorkerRunRecords(c: Setup, s: State, last: Phase, r: nat, w: nat)
    requires WellSized(c, s) && Enabled(c, s, WorkerRuns(w)) && RecordsOk(c, s, last, r)
    requires WorkerNext(s.workers[w]).window == s.workers[w].window
    ensures RecordsOk(c, WorkerRun(c, s, w), last, r)
  {
  }

  lemma WorkerRunRest(c: Setup, s: State, last: Phase, r: nat, w: nat)
    requires WellSized(c, s) && Enabled(c, s, WorkerRuns(w)) && RoundsOk(c, s, last, r)
    ensures WellSized(c, WorkerRun(c, s, w)) && RoundsOk(c, WorkerRun(c, s, w), last, r)
    ensures WorkerRun(c, s, w).grid == s.grid
  {
  }

  // What the step theorem needs to know about the worker that runs.
  lemma RunnerInStep(c: Setup, s: State, last: Phase, r: nat, w: nat)
    requires ValidSetup(c) && WellSized(c, s) && Enabled(c, s, WorkerRuns(w))
    requires Lockstep(c, s, last, r) && RecordsOk(c, s, last, r)
    ensures var me := s.workers[w];
      && WorkerInStep(WorkerNext(me), last, r) && WorkerNext(me).window == me.window
      && (last == PDoWork ==> me.pc.Work? && me.window.first != 0 && WorkerNext(me).inside)
      && (last != PDoWork ==> WorkerPuts(c, me) == [])
  {
    assert WorkerInStep(s.workers[w], last, r);
    if last == PDoWork {
      RoundRecordWorks(c, r - 1, w);
    }
    WorkerNextInStep(c, s.workers[w], last, r);
  }

  lemma WorkerRunOk(c: Setup, grid0: map<int, int>, s: State, last: Phase, r: nat, w: nat)
    requires Inv(c, grid0, s, last, r) && Enabled(c, s, WorkerRuns(w))
    ensures Inv(c, grid0, WorkerRun(c, s, w), last, r)
  {
    RunnerInStep(c, s, last, r, w);
    WorkerRunPuts(c, s, last, w);
    WorkerRunLockstep(c, s, last, r, w);
    WorkerRunRecords(c, s, last, r, w);
    WorkerRunRest(c, s, last, r, w);
  }

  // ----- a fence completes

  /** The order is a listing of exactly the puts of round r. */
  ghost predicate RoundPuts(c: Setup, r: nat, order: seq<(int, int)>)
    requires ValidSetup(c)
  {
    && (forall p :: p in order ==> exists w: nat :: w < c.workers && PutOf(c, r, w, p))
    && (forall w: nat, p :: w < c.workers && PutOf(c, r, w, p) ==> p in order)
  }

  ghost predicate PutOf(c: Setup, r: nat, w: nat, p: (int, int))
    requires ValidSetup(c)
  {
    RoundRecordWorks(c, r, w);
    p in Puts(c, RoundRecord(c, r, w).tile)
  }

  /** A put of a round is right and covered, or it is an idle worker's. */
  lemma PutOfKind(c: Setup, r: nat, w: nat, p: (int, int))
    requires ValidSetup(c) && w < c.workers && PutOf(c, r, w, p)
    ensures RightPut(c, p)
    ensures if r * c.workers + w < TILES
            then p.0 >= 0 && !Untouched(c.scene.across, c.scene.down, c.scene.across, p.0)
            else p.0 == Stray(c)
  {
    MulMono(0, r, c.workers);
    var t := r * c.workers + w;
    if t < TILES {
      assert c.tiles[t] in c.tiles;
      TilePuts(c, c.tiles[t], p);
      var x, y :| Contains(c.tiles[t], x, y)
                  && p == PutAt(c, x, y);
      assert Covered(c.scene.across, c.scene.down, x, y);
    } else {
      IdlePuts(c);
    }
  }

  /** Every pixel of a tile of the round is hit. */
  lemma RoundHitsTile(c: Setup, r: nat, order: seq<(int, int)>, t: nat, x: int, y: int)
    requires ValidSetup(c) && RoundPuts(c, r, order)
    requires r * c.workers <= t < (r + 1) * c.workers && t < TILES && Contains(c.tiles[t], x, y)
    ensures Hit(order, IndexOf(c.scene.across, x, y))
  {
    MulSucc(r, c.workers);
    var w: nat := t - r * c.workers;
    var p := PutAt(c, x, y);
    assert c.tiles[t] in c.tiles;
    TilePuts(c, c.tiles[t], p);
    assert PutOf(c, r, w, p);
  }

  lemma RoundKeys(c: Setup, r: nat, order: seq<(int, int)>, i: int)
    requires ValidSetup(c) && RoundPuts(c, r, order) && r * c.workers < TILES
    ensures Hit(order, i) ==> InWindow(c, i) || i == Stray(c)
    ensures Hit(order, Stray(c)) <==> (r + 1) * c.workers > TILES
    ensures Untouched(c.scene.across, c.scene.down, c.scene.across, i) && Hit(order, i) ==> i == Stray(c)
  {
    MulSucc(r, c.workers);
    forall p | p in order
      ensures RightPut(c, p)
      ensures p.0 == Stray(c) ==> (r + 1) * c.workers > TILES
      ensures p.0 >= 0 ==> !Untouched(c.scene.across, c.scene.down, c.scene.across, p.0)
      ensures p.0 >= 0 || p.0 == Stray(c)
    {
      var w: nat :| w < c.workers && PutOf(c, r, w, p);
      PutOfKind(c, r, w, p);
    }
    if (r + 1) * c.workers > TILES {
      IdlePuts(c);
      var p := (Stray(c), Pixel(c.scene, c.view, -1, -1));
      assert PutOf(c, r, c.workers - 1, p);
      assert Hit(order, Stray(c));
    }
  }

  lemma RoundRight(c: Setup, r: nat, order: seq<(int, int)>)
    requires ValidSetup(c) && RoundPuts(c, r, order)
    ensures forall p :: p in order ==> RightPut(c, p)
  {
    forall p | p in order ensures RightPut(c, p) {
      var w: nat :| w < c.workers && PutOf(c, r, w, p);
      PutOfKind(c, r, w, p);
    }
  }

  lemma EpochShows(c: Setup, grid: map<int, int>, order: seq<(int, int)>, x: int, y: int)
    requires ValidSetup(c) && Covered(c.scene.across, c.scene.down, x, y)
    requires forall p :: p in order ==> RightPut(c, p)
    requires Shown(c, grid, x, y) || Hit(order, IndexOf(c.scene.across, x, y))
    ensures Shown(c, Written(grid, order), x, y)
  {
    WrittenEffect(c, grid, order, IndexOf(c.scene.across, x, y));
    DivModUnique(c.scene.across, y, x);
  }

  lemma TileShown(c: Setup, grid0: map<int, int>, grid: map<int, int>, order: seq<(int, int)>, r: nat, t: nat, x: int, y: int)
    requires ValidSetup(c) && RoundPuts(c, r, order) && GridOk(c, grid0, grid, r)
    requires t < TILES && t < (r + 1) * c.workers && Contains(c.tiles[t], x, y)
    ensures Shown(c, Written(grid, order), x, y)
  {
    assert c.tiles[t] in c.tiles;
    assert Covered(c.scene.across, c.scene.down, x, y);
    RoundRight(c, r, order);
    if t < r * c.workers {
      assert Shown(c, grid, x, y);
    } else {
      RoundHitsTile(c, r, order, t, x, y);
    }
    EpochShows(c, grid, order, x, y);
  }

  lemma EpochGrid(c: Setup, grid0: map<int, int>, grid: map<int, int>, order: seq<(int, int)>, r: nat)
    requires ValidSetup(c) && RoundPuts(c, r, order) && forall i :: i in grid0 <==> InWindow(c, i)
    requires GridOk(c, grid0, grid, r) && r * c.workers < TILES
    ensures GridOk(c, grid0, Written(grid, order), r + 1)
  {
    var g := Written(grid, order);
    RoundRight(c, r, order);
    forall i
      ensures i in g <==> InWindow(c, i) || (i == Stray(c) && (r + 1) * c.workers > TILES)
      ensures i in g && i in grid0 && Untouched(c.scene.across, c.scene.down, c.scene.across, i) ==> g[i] == grid0[i]
    {
      WrittenEffect(c, grid, order, i);
      RoundKeys(c, r, order, i);
    }
    forall t, x, y | 0 <= t < TILES && t < (r + 1) * c.workers && Contains(c.tiles[t], x, y)
      ensures Shown(c, g, x, y)
    {
      TileShown(c, grid0, grid, order, r, t, x, y);
    }
  }

  /** In the fence after the work, all puts of the round are in flight. */
  lemma FencePutsOfRound(c: Setup, s: State, q: nat, order: seq<(int, int)>)
    requires ValidSetup(c) && WellSized(c, s) && Enabled(c, s, Fence(order)) && PutsOk(c, s, PDoWork)
    requires forall w :: 0 <= w < |s.workers| ==> s.workers[w].window == RoundRecord(c, q, w)
    ensures RoundPuts(c, q, order)
  {
    var puts := AskedPuts(c, s.workers);
    forall w: nat, p | w < c.workers ensures PutOf(c, q, w, p) <==> p in puts[w] {
      assert puts[w] == Puts(c, s.workers[w].window.tile);
    }
    forall p | p in order ensures exists w: nat :: w < c.workers && PutOf(c, q, w, p) {
      assert p in s.toRoot;
      var w :| 0 <= w < |s.workers| && s.workers[w].inside && p in puts[w];
      assert PutOf(c, q, w, p);
    }
    forall w: nat, p | w < c.workers && PutOf(c, q, w, p) ensures p in order {
      assert s.workers[w].inside && p in puts[w];
      assert p in s.toRoot;
    }
  }

  lemma FenceGrid(c: Setup, grid0: map<int, int>, s: State, last: Phase, r: nat, order: seq<(int, int)>)
    requires Inv(c, grid0, s, last, r) && Enabled(c, s, Fence(order))
    ensures GridOk(c, grid0, FenceRun(c, s, order).grid, if last == PDoWork then r else CollectedRounds(last, r))
  {
    if last == PDoWork {
      FencePutsOfRound(c, s, r - 1, order);
      EpochGrid(c, grid0, s.grid, order, r - 1);
    } else {
      assert |multiset(order)| == 0;
      assert order == [];
    }
  }

  lemma FenceLockstep(c: Setup, s: State, last: Phase, r: nat, order: seq<(int, int)>)
    requires WellSized(c, s) && Enabled(c, s, Fence(order)) && Lockstep(c, s, last, r)
    requires last == PTop ==> r == 0
    ensures var r' := if last == PHandOut then r + 1 else r;
            Lockstep(c, FenceRun(c, s, order), NextPhase(last, s.done), r')
  {
  }

  lemma FenceRecords(c: Setup, s: State, last: Phase, r: nat, order: seq<(int, int)>)
    requires ValidSetup(c) && WellSized(c, s) && Enabled(c, s, Fence(order))
    requires Lockstep(c, s, last, r) && RoundsOk(c, s, last, r) && RecordsOk(c, s, last, r)
    ensures var s', last' := FenceRun(c, s, order), NextPhase(last, s.done);
            var r' := if last == PHandOut then r + 1 else r;
            RoundsOk(c, s', last', r') && RecordsOk(c, s', last', r')
  {
    MulSucc(r, c.workers);
    MulMono(0, r, c.workers);
  }

  lemma FenceOk(c: Setup, grid0: map<int, int>, s: State, last: Phase, r: nat, order: seq<(int, int)>)
    requires Inv(c, grid0, s, last, r) && Enabled(c, s, Fence(order))
    ensures Inv(c, grid0, FenceRun(c, s, order), NextPhase(last, s.done), if last == PHandOut then r + 1 else r)
  {
    var s', last' := FenceRun(c, s, order), NextPhase(last, s.done);
    var r' := if last == PHandOut then r + 1 else r;
    FenceLockstep(c, s, last, r, order);
    FenceRecords(c, s, last, r, order);
    FenceGrid(c, grid0, s, last, r, order);
    if last' == PDoWork {
      forall w | 0 <= w < |s'.workers| ensures Proper(s'.workers[w].window.tile) {
        RoundRecordWorks(c, r' - 1, w);
      }
    }
    assert PutsOk(c, s', last');
  }

  // ----- whole runs

  // The last completed fence and the round after a step.
  function PhaseAfter(last: Phase, done: bool, step: Step): Phase
    requires step.Fence? ==> last != PDone
  {
    if step.Fence? then NextPhase(last, done) else last
  }

  function RoundAfter(last: Phase, r: nat, step: Step): nat {
    if step.Fence? && last == PHandOut then r + 1 else r
  }

  lemma NoFenceWhenDone(c: Setup, s: State, last: Phase, r: nat, step: Step)
    requires WellSized(c, s) && Enabled(c, s, step) && Lockstep(c, s, last, r)
    ensures step.Fence? ==> last != PDone
  {
  }

  lemma StepOk(c: Setup, grid0: map<int, int>, s: State, last: Phase, r: nat, step: Step)
    requires Inv(c, grid0, s, last, r) && Enabled(c, s, step) && (step.Fence? ==> last != PDone)
    ensures Inv(c, grid0, Apply(c, s, step), PhaseAfter(last, s.done, step), RoundAfter(last, r, step))
  {
    match step
    case RootRuns => RootRunOk(c, grid0, s, last, r);
    case WorkerRuns(w) => WorkerRunOk(c, grid0, s, last, r, w);
    case Fence(order) => FenceOk(c, grid0, s, last, r, order);
  }

  lemma {:induction false} RunOk(c: Setup, grid0: map<int, int>, windows: seq<Record>, states: seq<State>, steps: seq<Step>, i: nat)
      returns (last: Phase, r: nat)
    requires ValidSetup(c) && (forall j :: j in grid0 <==> InWindow(c, j))
    requires Run(c, grid0, windows, states, steps) && i < |states|
    ensures Inv(c, grid0, states[i], last, r) && StepsTaken(c, states[i], last, r) == i
  {
    if i == 0 {
      StartOk(c, grid0, windows);
      last, r := PTop, 0;
      CountBounds(Moved, states[0].workers);
    } else {
      last, r := RunOk(c, grid0, windows, states, steps, i - 1);
      var s, step := states[i - 1], steps[i - 1];
      NoFenceWhenDone(c, s, last, r, step);
      StepOk(c, grid0, s, last, r, step);
      StepTakes(c, s, last, r, step);
      last, r := PhaseAfter(last, s.done, step), RoundAfter(last, r, step);
    }
  }

  /** The rounds needed: the least number whose product with the workers reaches 400. */
  function Rounds(n: nat): nat
    requires n >= 1
  {
    (TILES + n - 1) / n
  }

  lemma RoundsUnique(n: nat, r: nat)
    requires n >= 1
    ensures r == Rounds(n) <==> r * n >= 400 && (r >= 1 && (r - 1) * n < 400)
  {
    var q := Rounds(n);
    var m := TILES + n - 1;
    assert m == q * n + m % n;
    MulSucc(q - 1, n);
    if r < q {
      MulMono(r, q - 1, n);
    } else if q < r {
      MulMono(q, r - 1, n);
    }
  }

  /** Root and workers agree on every fence: whenever a fence completes, each worker is at the
      worker's side of the very fence the root is at, and all have entered the same number. */
  lemma FencesMatch(c: Setup, grid0: map<int, int>, windows: seq<Record>, states: seq<State>, steps: seq<Step>, i: nat)
    requires ValidSetup(c) && (forall j :: j in grid0 <==> InWindow(c, j))
    requires Run(c, grid0, windows, states, steps) && i < |steps| && steps[i].Fence?
    ensures var s := states[i];
            forall w :: 0 <= w < |s.workers| ==>
              && s.workers[w].fences == s.fences
              && (s.workers[w].pc.Receive? <==> s.root.HandOut? || s.root.DoneWork?)
              && (s.workers[w].pc.Work? <==> s.root.DoWork? || s.root.Done?)
              && (s.workers[w].pc.Collected? <==> s.root.Collect?)
  {
    var last, r := RunOk(c, grid0, windows, states, steps, i);
    FenceInStep(c, states[i], steps[i].order, last, r);
  }

  lemma FenceInStep(c: Setup, s: State, order: seq<(int, int)>, last: Phase, r: nat)
    requires WellSized(c, s) && Enabled(c, s, Fence(order)) && Lockstep(c, s, last, r)
    ensures forall w :: 0 <= w < |s.workers| ==>
              && s.workers[w].fences == s.fences
              && (s.workers[w].pc.Receive? <==> s.root.HandOut? || s.root.DoneWork?)
              && (s.workers[w].pc.Work? <==> s.root.DoWork? || s.root.Done?)
              && (s.workers[w].pc.Collected? <==> s.root.Collect?)
  {
    assert forall w :: 0 <= w < |s.workers| ==> WorkerInStep(s.workers[w], last, r);
  }

  /** A finished image: every process has entered 3R + 2 fences, every covered pixel holds its
      sequential count, uncovered cells are unchanged, and a put missed the window exactly when the
      number of workers does not divide 400. */
  lemma FinalImage(c: Setup, grid0: map<int, int>, windows: seq<Record>, states: seq<State>, steps: seq<Step>, i: nat)
    requires ValidSetup(c) && (forall j :: j in grid0 <==> InWindow(c, j))
    requires Run(c, grid0, windows, states, steps) && i < |states| && Final(states[i])
    ensures var s := states[i];
            && s.fences == 3 * Rounds(c.workers) + 2
            && (forall w :: 0 <= w < |s.workers| ==> s.workers[w].fences == s.fences)
            && (forall x, y :: Covered(c.scene.across, c.scene.down, x, y) ==> Shown(c, s.grid, x, y))
            && (forall j :: InWindow(c, j) && Untouched(c.scene.across, c.scene.down, c.scene.across, j) ==>
                              j in s.grid && s.grid[j] == grid0[j])
            && ((exists j :: j in s.grid && !InWindow(c, j)) <==> 400 % c.workers != 0)
  {
    var s := states[i];
    var last, r := RunOk(c, grid0, windows, states, steps, i);
    FinalFences(c, s, last, r);
    FinalGrid(c, grid0, s.grid, r);
  }

  lemma FinalFences(c: Setup, s: State, last: Phase, r: nat)
    requires c.workers >= 1 && WellSized(c, s) && Lockstep(c, s, last, r) && RoundsOk(c, s, last, r) && Final(s)
    ensures last == PDone && r == Rounds(c.workers) && s.fences == 3 * r + 2
    ensures r * c.workers >= TILES && r >= 1 && (r - 1) * c.workers < TILES
    ensures forall w :: 0 <= w < |s.workers| ==> s.workers[w].fences == s.fences
  {
    RoundsUnique(c.workers, r);
    assert forall w :: 0 <= w < |s.workers| ==> WorkerInStep(s.workers[w], last, r);
  }

  // When all rounds have been collected.
  lemma FinalGrid(c: Setup, grid0: map<int, int>, grid: map<int, int>, r: nat)
    requires ValidSetup(c) && (forall j :: j in grid0 <==> InWindow(c, j)) && GridOk(c, grid0, grid, r)
    requires r * c.workers >= TILES && r >= 1 && (r - 1) * c.workers < TILES
    ensures forall x, y :: Covered(c.scene.across, c.scene.down, x, y) ==> Shown(c, grid, x, y)
    ensures forall j :: InWindow(c, j) && Untouched(c.scene.across, c.scene.down, c.scene.across, j) ==>
                          j in grid && grid[j] == grid0[j]
    ensures (exists j :: j in grid && !InWindow(c, j)) <==> TILES % c.workers != 0
  {
    forall x, y | Covered(c.scene.across, c.scene.down, x, y) ensures Shown(c, grid, x, y) {
      var t :| 0 <= t < |c.tiles| && Contains(c.tiles[t], x, y);
    }
    ProductIsExactIff(c.workers, r);
    assert r * c.workers > TILES ==> Stray(c) in grid && !InWindow(c, Stray(c));
  }

  lemma ProductIsExactIff(n: nat, r: nat)
    requires n >= 1 && r * n >= TILES && r >= 1 && (r - 1) * n < TILES
    ensures r * n > TILES <==> TILES % n != 0
  {
    MulSucc(r - 1, n);
    if r * n == TILES {
      DivModUnique(n, r, 0);
    } else {
      DivModUnique(n, r - 1, TILES - (r - 1) * n);
    }
  }

  /** No state short of the end is stuck. */
  lemma NeverStuck(c: Setup, grid0: map<int, int>, windows: seq<Record>, states: seq<State>, steps: seq<Step>, i: nat)
    requires ValidSetup(c) && (forall j :: j in grid0 <==> InWindow(c, j))
    requires Run(c, grid0, windows, states, steps) && i < |states| && !Final(states[i])
    ensures WellSized(c, states[i]) && exists step :: Enabled(c, states[i], step)
  {
    var s := states[i];
    var last, r := RunOk(c, grid0, windows, states, steps, i);
    if !s.inside && !s.root.ROut? {
      assert Enabled(c, s, RootRuns);
    } else if w: nat :| w < c.workers && !s.workers[w].inside && !s.workers[w].pc.WOut? {
      assert WorkerInStep(s.workers[w], last, r);
      assert s.workers[w].pc.Work? ==> last == PDoWork || last == PDone;
      assert Enabled(c, s, WorkerRuns(w));
    } else {
      assert forall w :: 0 <= w < |s.workers| ==> WorkerInStep(s.workers[w], last, r);
      var order := Listing(s.toRoot);
      assert Enabled(c, s, Fence(order));
    }
  }

  /** A bag can be listed in some order. */
  lemma {:induction false} Listing(bag: multiset<(int, int)>) returns (order: seq<(int, int)>)
    ensures multiset(order) == bag
    decreases |bag|
  {
    if bag == multiset{} {
      order := [];
    } else {
      var p :| p in bag;
      order := Listing(bag - multiset{p});
      order := order + [p];
    }
  }

  /** In an epoch of work, on an image at least 20 pixels each way, the puts of two workers that
      both have a tile never hit the same cell. */
  lemma WorkersPutApart(c: Setup, r: nat, w: nat, w': nat, p: (int, int), p': (int, int))
    requires ValidSetup(c) && w < w' < c.workers && r * c.workers + w' < TILES
    requires TilesApart(c.tiles)
    requires PutOf(c, r, w, p) && PutOf(c, r, w', p')
    ensures p.0 != p'.0
  {
    MulMono(0, r, c.workers);
    var t, t' := r * c.workers + w, r * c.workers + w';
    assert c.tiles[t] in c.tiles && c.tiles[t'] in c.tiles;
    TilePuts(c, c.tiles[t], p);
    TilePuts(c, c.tiles[t'], p');
    var x, y :| Contains(c.tiles[t], x, y) && p == PutAt(c, x, y);
    var x', y' :| Contains(c.tiles[t'], x', y') && p' == (IndexOf(c.scene.across, x', y'), Pixel(c.scene, c.view, x', y'));
    DivModUnique(c.scene.across, y, x);
    DivModUnique(c.scene.across, y', x');
  }

  // ----- every run has the same length

  function Moved(me: Worker): int {
    if me.inside || me.pc.WOut? then 1 else 0
  }

  /** Steps taken so far: a completed fence took one run of every process and its own step. */
  function StepsTaken(c: Setup, s: State, last: Phase, r: nat): int {
    FencesAt(last, r) * (c.workers + 2) + (if s.inside || s.root.ROut? then 1 else 0) + Sum(Moved, s.workers)
  }

  lemma WorkerTakes(c: Setup, s: State, w: nat, last: Phase, r: nat)
    requires WellSized(c, s) && Enabled(c, s, WorkerRuns(w))
    ensures StepsTaken(c, WorkerRun(c, s, w), last, r) == StepsTaken(c, s, last, r) + 1
  {
    SumUpdate(Moved, s.workers, w, WorkerNext(s.workers[w]));
    MovesOn(c, s, w);
  }

  lemma NextFences(last: Phase, done: bool, r: nat)
    requires last != PDone && (last == PTop ==> r == 0)
    ensures FencesAt(NextPhase(last, done), if last == PHandOut then r + 1 else r) == FencesAt(last, r) + 1
  {
  }

  lemma FenceMoved(c: Setup, s: State, order: seq<(int, int)>, last: Phase, r: nat)
    requires WellSized(c, s) && Enabled(c, s, Fence(order)) && Lockstep(c, s, last, r)
    ensures Sum(Moved, s.workers) == c.workers && Sum(Moved, FenceRun(c, s, order).workers) == 0
  {
    var s' := FenceRun(c, s, order);
    forall w | 0 <= w < |s.workers| ensures Moved(s.workers[w]) == 1 && Moved(s'.workers[w]) == 0 {
      assert WorkerInStep(s.workers[w], last, r);
    }
    CountBounds(Moved, s.workers);
    CountBounds(Moved, s'.workers);
  }

  lemma FenceTakes(c: Setup, s: State, order: seq<(int, int)>, last: Phase, r: nat)
    requires WellSized(c, s) && Enabled(c, s, Fence(order)) && Lockstep(c, s, last, r)
    requires last == PTop ==> r == 0
    ensures StepsTaken(c, FenceRun(c, s, order), NextPhase(last, s.done), if last == PHandOut then r + 1 else r)
         == StepsTaken(c, s, last, r) + 1
  {
    FenceMoved(c, s, order, last, r);
    NextFences(last, s.done, r);
    MulSucc(FencesAt(last, r), c.workers + 2);
  }

  lemma MovesOn(c: Setup, s: State, w: nat)
    requires WellSized(c, s) && Enabled(c, s, WorkerRuns(w))
    ensures Moved(s.workers[w]) == 0 && Moved(WorkerNext(s.workers[w])) == 1
  {
  }

  lemma StepTakes(c: Setup, s: State, last: Phase, r: nat, step: Step)
    requires WellSized(c, s) && Enabled(c, s, step) && Lockstep(c, s, last, r) && RoundsOk(c, s, last, r)
    requires step.Fence? ==> last != PDone
    ensures StepsTaken(c, Apply(c, s, step), PhaseAfter(last, s.done, step), RoundAfter(last, r, step))
         == StepsTaken(c, s, last, r) + 1
  {
    match step
    case RootRuns => RootTakes(c, s, last, r);
    case WorkerRuns(w) => WorkerTakes(c, s, w, last, r);
    case Fence(order) => FenceTakes(c, s, order, last, r);
  }

  lemma RootTakes(c: Setup, s: State, last: Phase, r: nat)
    requires WellSized(c, s) && Enabled(c, s, RootRuns) && Lockstep(c, s, last, r)
    ensures StepsTaken(c, RootRun(c, s), last, r) == StepsTaken(c, s, last, r) + 1
  {
  }

  /** Every run ends after the same number of steps, whatever the schedule and the put orders. */
  lemma AllRunsEqualLength(c: Setup, grid0: map<int, int>, windows: seq<Record>, states: seq<State>, steps: seq<Step>)
    requires ValidSetup(c) && (forall j :: j in grid0 <==> InWindow(c, j))
    requires Run(c, grid0, windows, states, steps)
    ensures var total := (3 * Rounds(c.workers) + 2) * (c.workers + 2) + c.workers + 1;
            |steps| <= total && (|steps| == total <==> Final(states[|steps|]))
  {
    var last, r := RunOk(c, grid0, windows, states, steps, |steps|);
    LengthAt(c, states[|steps|], last, r);
  }

  /** The steps taken reach the total exactly in a final state. */
  lemma LengthAt(c: Setup, s: State, last: Phase, r: nat)
    requires c.workers >= 1 && WellSized(c, s) && Lockstep(c, s, last, r) && RoundsOk(c, s, last, r)
    ensures var total := (3 * Rounds(c.workers) + 2) * (c.workers + 2) + c.workers + 1;
            StepsTaken(c, s, last, r) <= total && (StepsTaken(c, s, last, r) == total <==> Final(s))
  {
    CountBounds(Moved, s.workers);
    var top, f := 3 * Rounds(c.workers) + 2, FencesAt(last, r);
    if last == PDone {
      RoundsUnique(c.workers, r);
    } else {
      assert exists w :: 0 <= w < |s.workers| && WorkerInStep(s.workers[w], last, r) by {
        assert WorkerInStep(s.workers[0], last, r);
      }
      RoundsBelow(c, s, last, r);
      MulMono(f + 1, top, c.workers + 2);
      MulSucc(f, c.workers + 2);
    }
  }

  /** Before the last fence, fewer fences have completed than will. */
  lemma RoundsBelow(c: Setup, s: State, last: Phase, r: nat)
    requires WellSized(c, s) && c.workers >= 1 && RoundsOk(c, s, last, r) && last != PDone
    ensures FencesAt(last, r) < 3 * Rounds(c.workers) + 2
  {
    var q := Rounds(c.workers);
    RoundsUnique(c.workers, q);
    if q < r {
      MulMono(q, r - 1, c.workers);
    } else if q == r && last == PHandOut {
      MulMono(q, r, c.workers);
    }
  }
}
