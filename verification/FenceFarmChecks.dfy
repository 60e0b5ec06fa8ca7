/**
 * Two consequences for the fence program: with argument checking on, MPI_Put rejects a negative
 * displacement and the program stops there, and on the tiles the root really builds the workers of
 * an epoch never put into the same cell.
 */
module FenceFarmChecks {
  import opened Arith
  import opened Tiles
  import opened Drawing
  import opened Records
  import opened FenceFarm
  import opened FenceFarmProofs

  /** The step issues a put that the argument check of MPI_Put rejects. */
  ghost predicate Rejected(c: Setup, s: State, step: Step)
    requires WellSized(c, s) && Enabled(c, s, step)
  {
    step.WorkerRuns? && exists p :: p in WorkerPuts(c, s.workers[step.w]) && p.0 < 0
  }

  ghost predicate NoneRejected(c: Setup, states: seq<State>, steps: seq<Step>)
    requires |states| == |steps| + 1
    requires forall i :: 0 <= i < |steps| ==> WellSized(c, states[i]) && Enabled(c, states[i], steps[i])
  {
    forall i :: 0 <= i < |steps| ==> !Rejected(c, states[i], steps[i])
  }

  lemma FullRound(n: nat, r: nat, w: nat)
    requires n >= 1 && TILES % n == 0 && r * n < TILES && w < n
    ensures r * n + w < TILES
  {
    var q := TILES / n;
    assert TILES == q * n;
    if q <= r {
      MulMono(q, r, n);
    }
    MulMono(r + 1, q, n);
    MulSucc(r, n);
  }

  /** If the workers divide the tiles, no worker is ever idle and no put is rejected. */
  lemma DividedIsAccepted(c: Setup, grid0: map<int, int>, s: State, last: Phase, r: nat, step: Step)
    requires Inv(c, grid0, s, last, r) && Enabled(c, s, step) && TILES % c.workers == 0
    ensures !Rejected(c, s, step)
  {
    if step.WorkerRuns? {
      var w := step.w;
      RunnerInStep(c, s, last, r, w);
      if last == PDoWork {
        FullRound(c.workers, r - 1, w);
        forall p | p in WorkerPuts(c, s.workers[w])
          ensures p.0 >= 0
        {
          assert s.workers[w].window == RoundRecord(c, r - 1, w);
          assert PutOf(c, r - 1, w, p);
          PutOfKind(c, r - 1, w, p);
        }
      }
    }
  }

  // Nothing has been written, or is on its way, to a negative displacement.
  ghost predicate Clean(s: State) {
    (forall i :: i in s.grid ==> i >= 0) && (forall p :: p in s.toRoot ==> p.0 >= 0)
  }

  lemma {:induction false} WrittenKeys(grid: map<int, int>, order: seq<(int, int)>, i: int)
    requires i in Written(grid, order)
    ensures i in grid || Hit(order, i)
  {
    if order != [] {
      var front, last := order[..|order| - 1], order[|order| - 1];
      if i == last.0 {
        assert last in order;
      } else {
        WrittenKeys(grid, front, i);
        assert forall p :: p in front ==> p in order;
      }
    }
  }

  lemma StepClean(c: Setup, s: State, step: Step)
    requires WellSized(c, s) && Enabled(c, s, step) && Clean(s) && !Rejected(c, s, step)
    ensures Clean(Apply(c, s, step))
  {
    match step
    case RootRuns =>
    case WorkerRuns(w) =>
    case Fence(order) =>
      forall i | i in Written(s.grid, order)
        ensures i >= 0
      {
        WrittenKeys(s.grid, order, i);
        assert forall p :: p in order ==> p in s.toRoot;
      }
  }

  lemma {:induction false} RunClean(c: Setup, grid0: map<int, int>, windows: seq<Record>, states: seq<State>, steps: seq<Step>, i: nat)
    requires c.scene.across >= 1 && c.scene.down >= 1 && (forall j :: j in grid0 <==> InWindow(c, j))
    requires Run(c, grid0, windows, states, steps) && i < |states| && NoneRejected(c, states, steps)
    ensures Clean(states[i])
  {
    if i > 0 {
      RunClean(c, grid0, windows, states, steps, i - 1);
      StepClean(c, states[i - 1], steps[i - 1]);
    }
  }

  /** With argument checking on, a finished run had no put rejected if and only if the number of
      workers divides 400; for every other number each run stops at a rejected put. */
  lemma CheckedRunsFinishIff(c: Setup, grid0: map<int, int>, windows: seq<Record>, states: seq<State>, steps: seq<Step>)
    requires ValidSetup(c) && (forall j :: j in grid0 <==> InWindow(c, j))
    requires Run(c, grid0, windows, states, steps) && Final(states[|steps|])
    ensures NoneRejected(c, states, steps) <==> 400 % c.workers == 0
  {
    if TILES % c.workers == 0 {
      forall i | 0 <= i < |steps|
        ensures !Rejected(c, states[i], steps[i])
      {
        var last, r := RunOk(c, grid0, windows, states, steps, i);
        DividedIsAccepted(c, grid0, states[i], last, r, steps[i]);
      }
    }
    if NoneRejected(c, states, steps) {
      RunClean(c, grid0, windows, states, steps, |steps|);
      FinalImage(c, grid0, windows, states, steps, |steps|);
      var last, r := RunOk(c, grid0, windows, states, steps, |steps|);
      NegativeStray(c, grid0, states[|steps|].grid, CollectedRounds(last, r));
    }
  }

  lemma NegativeStray(c: Setup, grid0: map<int, int>, grid: map<int, int>, q: nat)
    requires c.scene.across >= 1 && c.scene.down >= 1 && |c.tiles| == TILES && GridOk(c, grid0, grid, q)
    ensures forall j :: j in grid && !InWindow(c, j) ==> j < 0
  {
  }

  /** On an image at least 20 pixels each way, however the tiles were shuffled, the puts of two
      workers that both have a tile never hit the same cell. */
  lemma SplitWorkersPutApart(c: Setup, draws: seq<(nat, nat)>, r: nat, w: nat, w': nat, p: (int, int), p': (int, int))
    requires c.scene.across >= SPLIT && c.scene.down >= SPLIT && forall d :: d in draws ==> d.0 < TILES && d.1 < TILES
    requires c.tiles == Shuffled(Split(c.scene.across, c.scene.down), draws)
    requires w < w' < c.workers && r * c.workers + w' < TILES
    ensures ValidSetup(c)
    ensures PutOf(c, r, w, p) && PutOf(c, r, w', p') ==> p.0 != p'.0
  {
    ShuffledSplitIsTiling(c.scene.across, c.scene.down, draws);
    ApartIff(c.scene.across, c.scene.down);
    ShuffleKeepsApart(Split(c.scene.across, c.scene.down), draws);
    if PutOf(c, r, w, p) && PutOf(c, r, w', p') {
      WorkersPutApart(c, r, w, w', p, p');
    }
  }
}
