/** What every run of the message-passing farms keeps, and what follows for whole runs: the image
    is right under every schedule, no run gets stuck, and all runs have the same length.
 */
module MessageFarmProofs {
  import opened Tiles
  import opened Drawing
  import opened Records
  import opened MessageFarm
  import opened Sums

  // ----- one worker and its channels

  /** The worker has finished with its tile, or is in the call that sends the last of it. */
  predicate AtLoop(pc: WorkerPc) {
    pc.AwaitWork? || (pc.SendBody? && pc.inside)
  }

  /** On its way to reading the tag-100 messages q under view v: already there, waiting for the
      announcement, or still to read the stop of the image before. */
  predicate Listening(lane: Lane, v: View, q: seq<Record>) {
    && lane.headers == [] && lane.bodies == []
    && (|| (AtLoop(lane.pc) && lane.pc.view == v && !IsQuit(v) && lane.views == [] && lane.work == q)
        || (lane.pc.AwaitView? && lane.views == [v] && lane.work == q)
        || (AtLoop(lane.pc) && lane.views == [v] && lane.work == [STOP] + q))
  }

  /** Between reading record r and having its body taken; `taken` says whether the root already has
      the header. */
  predicate Working(c: Setup, lane: Lane, w: nat, v: View, r: Record, taken: bool)
    requires c.scene.across >= 1 && c.scene.down >= 1
  {
    var h := if taken then [] else [HeaderFor(c, w, r)];
    && lane.views == [] && lane.work == [] && Proper(r.tile)
    && (|| (!taken && lane.pc == SendHeader(v, r, false) && lane.headers == [] && lane.bodies == [])
        || (lane.pc == SendHeader(v, r, true) && lane.headers == h && lane.bodies == [])
        || (lane.pc == SendBody(v, r, false) && lane.headers == h && lane.bodies == [])
        || (AtLoop(lane.pc) && lane.pc.view == v && lane.headers == h
            && lane.bodies == [TileValues(c.scene, v, r.tile)]))
  }

  predicate Silent(lane: Lane) {
    lane.views == [] && lane.work == [] && lane.headers == [] && lane.bodies == []
  }

  /** The possible contents of a lane, by what the root has done with the worker so far. */
  predicate LaneOk(c: Setup, im: Image, lane: Lane, w: nat)
    requires c.scene.across >= 1 && c.scene.down >= 1
  {
    match lane.job
    case Unsent => Listening(lane, im.view, []) || (IsQuit(im.view) && lane.pc.Quit? && Silent(lane))
    case Out(t) =>
      && t < |im.tiles|
      && (Listening(lane, im.view, [WorkFor(im, t)]) || Working(c, lane, w, im.view, WorkFor(im, t), false))
    case Fetching(t) => t < |im.tiles| && Working(c, lane, w, im.view, WorkFor(im, t), true)
    case Drawn => Silent(lane) && AtLoop(lane.pc) && lane.pc.view == im.view
    case Stopped =>
      && lane.views == [] && lane.headers == [] && lane.bodies == []
      && ((lane.pc.AwaitView? && lane.work == []) || (AtLoop(lane.pc) && lane.work == [STOP]))
  }

  ghost predicate LanesOk(c: Setup, s: State)
    requires WellSized(c, s)
  {
    forall w :: 0 <= w < |s.lanes| ==> LaneOk(c, c.images[s.m], s.lanes[w], w)
  }

  // ----- stopped workers

  function StopWeight(lane: Lane): int {
    if lane.job.Stopped? then 1 else 0
  }

  function StopCount(lanes: seq<Lane>): int {
    Sum(StopWeight, lanes)
  }

  lemma StopCountBounds(lanes: seq<Lane>)
    ensures 0 <= StopCount(lanes) <= |lanes|
    ensures StopCount(lanes) == |lanes| <==> forall w :: 0 <= w < |lanes| ==> lanes[w].job.Stopped?
    ensures StopCount(lanes) == 0 <==> forall w :: 0 <= w < |lanes| ==> !lanes[w].job.Stopped?
  {
    CountBounds(StopWeight, lanes);
    assert forall w :: 0 <= w < |lanes| ==> (StopWeight(lanes[w]) == 1 <==> lanes[w].job.Stopped?);
  }

  // ----- the invariant

  predicate Waiting(j: Job) {
    j.Out? || j.Stopped?
  }

  predicate Holds(j: Job, t: nat) {
    (j.Out? || j.Fetching?) && j.t == t
  }

  /** Every job except possibly the one of `source` is a tile out or a worker stopped. */
  ghost predicate OthersWaiting(s: State, source: int) {
    forall w :: 0 <= w < |s.lanes| && w != source ==> Waiting(s.lanes[w].job)
  }

  /** The main loop and the last loop: how many workers are stopped, and which. */
  ghost predicate LoopOk(c: Setup, s: State)
    requires WellSized(c, s)
  {
    && s.stops == StopCount(s.lanes)
    && s.k <= TILES
    && (s.k < TILES ==> s.stops == 0)
    && !IsQuit(c.images[s.m].view)
    && (c.program == Spawned ==> forall w :: 0 <= w < |s.lanes| ==> (s.lanes[w].job.Stopped? <==> w < s.stops))
  }

  ghost predicate PhaseOk(c: Setup, s: State)
    requires WellSized(c, s)
  {
    match s.pc
    case Announce(w, inside) =>
      && w < c.workers
      && (c.program == PointToPoint ==> w == if inside then c.workers - 1 else 0)
      && forall i :: 0 <= i < |s.lanes| ==>
                       s.lanes[i].job == if i < w || (inside && i == w) then Unsent else Stopped
    case Deal(w, inside) =>
      && w < c.workers && s.k == (if inside then w + 1 else w) && s.stops == 0
      && !IsQuit(c.images[s.m].view)
      && forall i :: 0 <= i < |s.lanes| ==> s.lanes[i].job == if i < s.k then Out(i) else Unsent
    case Collect => LoopOk(c, s) && OthersWaiting(s, -1) && (s.k < TILES || s.stops < c.workers)
    case Fetch(source, tile) =>
      && LoopOk(c, s) && OthersWaiting(s, source) && 0 <= source < c.workers
      && s.lanes[source].job.Fetching?
      && s.lanes[source].job.t < |c.images[s.m].tiles| && tile == c.images[s.m].tiles[s.lanes[source].job.t]
      && (c.program == Spawned && s.k >= TILES ==> source == s.stops)
    case Reply(source, inside) =>
      && LoopOk(c, s) && OthersWaiting(s, if inside then -1 else source) && 0 <= source < c.workers
      && (!inside ==> s.lanes[source].job.Drawn?)
      && (!inside && c.program == Spawned && s.k >= TILES ==> source == s.stops)
    case Finished =>
      && IsQuit(c.images[s.m].view)
      && forall i :: 0 <= i < |s.lanes| ==> s.lanes[i].job == Unsent
  }

  /** No tile is with two workers, and only tiles already handed out are with any. */
  ghost predicate TilesOut(s: State) {
    forall w :: 0 <= w < |s.lanes| ==> forall t: nat :: Holds(s.lanes[w].job, t) ==>
      t < s.k && forall i :: 0 <= i < |s.lanes| && i != w ==> !Holds(s.lanes[i].job, t)
  }

  ghost predicate Held(s: State, t: nat) {
    exists w :: 0 <= w < |s.lanes| && Holds(s.lanes[w].job, t)
  }

  ghost predicate GridOk(c: Setup, s: State)
    requires WellSized(c, s)
  {
    && |s.grid| == c.scene.across * c.scene.down
    && BackgroundKept(c, s.grid)
    && (if s.pc.Announce? || s.pc.Finished? then s.m > 0 ==> ImageComplete(c, s.m - 1, s.grid)
        else
          && |c.images[s.m].tiles| == TILES
          && forall t: nat :: t < s.k && t < TILES && !Held(s, t) ==>
                                ShowsTile(c.scene, c.images[s.m].view, c.scene.down, s.grid, c.images[s.m].tiles[t]))
  }

  ghost predicate Inv(c: Setup, s: State) {
    && ValidSetup(c) && WellSized(c, s)
    && LanesOk(c, s)
    && PhaseOk(c, s)
    && TilesOut(s)
    && GridOk(c, s)
  }

  lemma StartOk(c: Setup)
    requires ValidSetup(c)
    ensures Inv(c, Start(c))
  {
  }

  // ----- every step keeps the invariant

  lemma WorkerLaneOk(c: Setup, s: State, step: Step)
    requires WellSized(c, s) && Enabled(c, s, step) && WorkerStep(step)
    requires LaneOk(c, c.images[s.m], s.lanes[step.w], step.w)
    requires s.lanes[step.w].job.Out? ==>
      !IsQuit(c.images[s.m].view) && Proper(WorkFor(c.images[s.m], s.lanes[step.w].job.t).tile)
    ensures var lane := ApplyWorker(c, s, step);
            lane.job == s.lanes[step.w].job && LaneOk(c, c.images[s.m], lane, step.w)
  {
    var lane := s.lanes[step.w];
    match step
    case GetView(_) =>
    case GetWork(_) =>
      if lane.job.Out? && |lane.work| == 2 {
        assert lane.work[1..] == [WorkFor(c.images[s.m], lane.job.t)];
      }
    case _ =>
  }

  /** Two states that differ only in program counters and channels of workers. */
  ghost predicate SameLedger(s: State, s': State) {
    && s'.pc == s.pc && s'.m == s.m && s'.k == s.k && s'.stops == s.stops && s'.grid == s.grid
    && |s'.lanes| == |s.lanes|
    && forall w :: 0 <= w < |s.lanes| ==> s'.lanes[w].job == s.lanes[w].job
  }

  lemma SameLedgerPhase(c: Setup, s: State, s': State)
    requires WellSized(c, s) && WellSized(c, s') && SameLedger(s, s') && PhaseOk(c, s)
    ensures PhaseOk(c, s')
  {
    SumShift(StopWeight, s.lanes, s'.lanes, 0);
  }

  lemma SameLedgerTiles(c: Setup, s: State, s': State)
    requires SameLedger(s, s') && TilesOut(s)
    ensures TilesOut(s')
  {
  }

  lemma SameLedgerGrid(c: Setup, s: State, s': State)
    requires WellSized(c, s) && WellSized(c, s') && SameLedger(s, s') && GridOk(c, s)
    ensures GridOk(c, s')
  {
    assert forall t: nat :: Held(s, t) ==> Held(s', t);
  }

  // Tiles are out only while an image is computed, and they are proper.
  lemma OutMeansOpen(c: Setup, s: State, w: nat)
    requires ValidSetup(c) && WellSized(c, s) && PhaseOk(c, s) && w < |s.lanes|
    requires LaneOk(c, c.images[s.m], s.lanes[w], w)
    ensures s.lanes[w].job.Out? ==>
      !IsQuit(c.images[s.m].view) && Proper(WorkFor(c.images[s.m], s.lanes[w].job.t).tile)
  {
    if s.lanes[w].job.Out? {
      assert WorkFor(c.images[s.m], s.lanes[w].job.t).tile in c.images[s.m].tiles;
    }
  }

  lemma WorkerStepOk(c: Setup, s: State, step: Step)
    requires Inv(c, s) && Enabled(c, s, step) && WorkerStep(step)
    ensures Inv(c, Apply(c, s, step))
  {
    var s' := Apply(c, s, step);
    WorkerStepLanes(c, s, step);
    SameLedgerPhase(c, s, s');
    SameLedgerTiles(c, s, s');
    SameLedgerGrid(c, s, s');
  }

  lemma WorkerStepLedger(c: Setup, s: State, step: Step)
    requires WellSized(c, s) && Enabled(c, s, step) && WorkerStep(step)
    requires ApplyWorker(c, s, step).job == s.lanes[step.w].job
    ensures SameLedger(s, Apply(c, s, step))
  {
  }

  lemma RunnerLaneOk(c: Setup, s: State, step: Step)
    requires ValidSetup(c) && WellSized(c, s) && LanesOk(c, s) && PhaseOk(c, s)
    requires Enabled(c, s, step) && WorkerStep(step)
    ensures var lane := ApplyWorker(c, s, step);
            lane.job == s.lanes[step.w].job && LaneOk(c, c.images[s.m], lane, step.w)
  {
    assert LaneOk(c, c.images[s.m], s.lanes[step.w], step.w);
    OutMeansOpen(c, s, step.w);
    WorkerLaneOk(c, s, step);
  }

  lemma OneLaneChanged(c: Setup, s: State, w: nat, lane: Lane)
    requires WellSized(c, s) && LanesOk(c, s) && w < |s.lanes| && LaneOk(c, c.images[s.m], lane, w)
    ensures LanesOk(c, WithLane(s, w, lane))
  {
  }

  lemma WorkerStepLanes(c: Setup, s: State, step: Step)
    requires ValidSetup(c) && WellSized(c, s) && LanesOk(c, s) && PhaseOk(c, s)
    requires Enabled(c, s, step) && WorkerStep(step)
    ensures LanesOk(c, Apply(c, s, step)) && SameLedger(s, Apply(c, s, step))
  {
    RunnerLaneOk(c, s, step);
    OneLaneChanged(c, s, step.w, ApplyWorker(c, s, step));
    WorkerStepLedger(c, s, step);
  }

  lemma TellOk(c: Setup, s: State)
    requires Inv(c, s) && Enabled(c, s, Tell)
    ensures Inv(c, Apply(c, s, Tell))
  {
    var s' := Apply(c, s, Tell);
    forall w | 0 <= w < |s.lanes| ensures LaneOk(c, c.images[s.m], s'.lanes[w], w) {
      assert LaneOk(c, c.images[s.m], s.lanes[w], w);
      assert [STOP] + [] == [STOP];
    }
  }

  lemma TellDoneOk(c: Setup, s: State)
    requires Inv(c, s) && Enabled(c, s, TellDone)
    ensures Inv(c, Apply(c, s, TellDone))
  {
    var s' := Apply(c, s, TellDone);
    if s.pc.w + 1 == c.workers {
      assert forall i :: 0 <= i < |s.lanes| ==> s.lanes[i].job == Unsent;
    }
  }

  lemma PostDealOk(c: Setup, s: State)
    requires Inv(c, s) && Enabled(c, s, PostDeal)
    ensures Inv(c, Apply(c, s, PostDeal))
  {
    var s' := Apply(c, s, PostDeal);
    var w, im := s.pc.w, c.images[s.m];
    assert LaneOk(c, im, s.lanes[w], w);
    assert LaneOk(c, im, s'.lanes[w], w) by {
      var q := [WorkFor(im, s.k)];
      assert [STOP] + [] + q == [STOP] + q;
      assert [] + q == q;
    }
    HandOutGrid(c, s, s', w);
  }

  /** Handing tile k to a worker that held none: the tiles drawn so far are still the ones that
      nobody holds. */
  lemma HandOutGrid(c: Setup, s: State, s': State, w: nat)
    requires WellSized(c, s) && WellSized(c, s') && w < |s.lanes| && GridOk(c, s)
    requires !s.pc.Announce? && !s.pc.Finished? && !s'.pc.Announce? && !s'.pc.Finished?
    requires s'.m == s.m && s'.k == s.k + 1 && s'.grid == s.grid
    requires forall t: nat :: !Holds(s.lanes[w].job, t)
    requires s'.lanes == s.lanes[w := s'.lanes[w]] && s'.lanes[w].job == Out(s.k)
    ensures GridOk(c, s')
  {
    assert Holds(s'.lanes[w].job, s.k);
    forall t: nat | Held(s, t) ensures Held(s', t) {
      var i :| 0 <= i < |s.lanes| && Holds(s.lanes[i].job, t);
      assert i != w;
      assert Holds(s'.lanes[i].job, t);
    }
  }

  lemma DealDonePhase(c: Setup, s: State)
    requires WellSized(c, s) && c.workers <= TILES && Enabled(c, s, DealDone) && PhaseOk(c, s)
    ensures PhaseOk(c, Apply(c, s, DealDone))
  {
    StopCountBounds(s.lanes);
    assert forall i :: 0 <= i < |s.lanes| ==> s.lanes[i].job == if i < s.k then Out(i) else Unsent;
  }

  lemma DealDoneOk(c: Setup, s: State)
    requires Inv(c, s) && Enabled(c, s, DealDone)
    ensures Inv(c, Apply(c, s, DealDone))
  {
    var s' := Apply(c, s, DealDone);
    DealDonePhase(c, s);
    assert forall t: nat :: Held(s, t) ==> Held(s', t);
    SameTilesGrid(c, s, s');
  }

  lemma TakeHeaderLane(c: Setup, s: State, w: nat)
    requires Inv(c, s) && Enabled(c, s, TakeHeader(w))
    ensures var s' := Apply(c, s, TakeHeader(w));
            && s.lanes[w].job.Out? && s.lanes[w].job.t < |c.images[s.m].tiles|
            && s'.pc == Fetch(w, c.images[s.m].tiles[s.lanes[w].job.t])
            && s'.lanes == s.lanes[w := s'.lanes[w]] && s'.lanes[w].job == Fetching(s.lanes[w].job.t)
            && LaneOk(c, c.images[s.m], s'.lanes[w], w)
  {
    assert LaneOk(c, c.images[s.m], s.lanes[w], w);
  }

  /** Moving a held tile from "out" to "being fetched" moves no tile. */
  lemma SameHolders(c: Setup, s: State, s': State, w: nat)
    requires w < |s.lanes| == |s'.lanes| && TilesOut(s)
    requires s'.k == s.k && s'.lanes == s.lanes[w := s'.lanes[w]]
    requires s.lanes[w].job.Out? && s'.lanes[w].job == Fetching(s.lanes[w].job.t)
    ensures TilesOut(s')
    ensures forall t: nat :: Held(s, t) ==> Held(s', t)
  {
    assert forall i, t: nat :: 0 <= i < |s.lanes| ==> (Holds(s'.lanes[i].job, t) <==> Holds(s.lanes[i].job, t));
  }

  lemma TakeHeaderPhase(c: Setup, s: State, s': State, w: nat)
    requires WellSized(c, s) && WellSized(c, s') && w < |s.lanes| && s.pc.Collect? && PhaseOk(c, s)
    requires s.lanes[w].job.Out? && s.lanes[w].job.t < |c.images[s.m].tiles|
    requires s'.pc == Fetch(w, c.images[s.m].tiles[s.lanes[w].job.t])
    requires s'.lanes == s.lanes[w := s'.lanes[w]] && s'.lanes[w].job == Fetching(s.lanes[w].job.t)
    requires s'.m == s.m && s'.k == s.k && s'.stops == s.stops
    requires c.program == Spawned && s.k >= TILES ==> w == s.stops
    ensures PhaseOk(c, s')
  {
    SumUpdate(StopWeight, s.lanes, w, s'.lanes[w]);
  }

  lemma TakeHeaderOk(c: Setup, s: State, w: nat)
    requires Inv(c, s) && Enabled(c, s, TakeHeader(w))
    ensures Inv(c, Apply(c, s, TakeHeader(w)))
  {
    var s' := Apply(c, s, TakeHeader(w));
    TakeHeaderLane(c, s, w);
    TakeHeaderPhase(c, s, s', w);
    SameHolders(c, s, s', w);
  }

  /** When a body arrives after a header, it is the data of that header's tile, it has the length
      the receive asks for, and the tile fits the image. */
  lemma BodyMatchesHeader(c: Setup, s: State)
    requires Inv(c, s) && s.pc.Fetch?
    ensures 0 <= s.pc.source < c.workers
    ensures s.lanes[s.pc.source].bodies != [] ==>
              && Proper(s.pc.tile)
              && s.lanes[s.pc.source].bodies == [TileValues(c.scene, c.images[s.m].view, s.pc.tile)]
              && BodyFits(c, s, s.pc.tile, s.lanes[s.pc.source].bodies[0])
  {
    var w := s.pc.source;
    assert LaneOk(c, c.images[s.m], s.lanes[w], w);
    assert s.pc.tile in c.images[s.m].tiles;
    TileCellsInBounds(c.scene.across, c.scene.down, c.scene.down, s.pc.tile);
  }

  lemma TakeBodyGrid(c: Setup, s: State)
    requires Inv(c, s) && Enabled(c, s, TakeBody)
    ensures GridOk(c, Apply(c, s, TakeBody))
  {
    var s' := Apply(c, s, TakeBody);
    var w, im := s.pc.source, c.images[s.m];
    BodyMatchesHeader(c, s);
    assert s.pc.tile in im.tiles;
    DrawEffect(c.scene, im.view, c.scene.down, s.grid, s.pc.tile);
    forall t: nat | Held(s, t) && t != s.lanes[w].job.t ensures Held(s', t) {
      var i :| 0 <= i < |s.lanes| && Holds(s.lanes[i].job, t);
      assert Holds(s'.lanes[i].job, t);
    }
    forall t: nat | t < s.k && t < TILES && !Held(s', t)
      ensures ShowsTile(c.scene, im.view, c.scene.down, s'.grid, im.tiles[t])
    {
      if t != s.lanes[w].job.t {
        assert !Held(s, t);
        assert im.tiles[t] in im.tiles;
        forall x, y | Contains(im.tiles[t], x, y)
          ensures Shows(c.scene, im.view, c.scene.down, s'.grid, x, y)
        {
          assert Covered(c.scene.across, c.scene.down, x, y);
          assert Shows(c.scene, im.view, c.scene.down, s.grid, x, y);
        }
      }
    }
  }

  lemma TakeBodyPhase(c: Setup, s: State)
    requires WellSized(c, s) && Enabled(c, s, TakeBody) && PhaseOk(c, s)
    ensures PhaseOk(c, Apply(c, s, TakeBody))
  {
    SumUpdate(StopWeight, s.lanes, s.pc.source, Apply(c, s, TakeBody).lanes[s.pc.source]);
  }

  lemma TakeBodyOk(c: Setup, s: State)
    requires Inv(c, s) && Enabled(c, s, TakeBody)
    ensures Inv(c, Apply(c, s, TakeBody))
  {
    var s' := Apply(c, s, TakeBody);
    var w := s.pc.source;
    assert LaneOk(c, c.images[s.m], s.lanes[w], w);
    assert LaneOk(c, c.images[s.m], s'.lanes[w], w);
    TakeBodyPhase(c, s);
    TakeBodyGrid(c, s);
  }

  // The next tile, or the stop, goes to the worker that has just answered.
  lemma PostReplyLane(c: Setup, s: State)
    requires Inv(c, s) && Enabled(c, s, PostReply)
    ensures var s', w := Apply(c, s, PostReply), s.pc.source;
      && s'.lanes == s.lanes[w := s'.lanes[w]] && LaneOk(c, c.images[s.m], s'.lanes[w], w)
      && s.lanes[w].job.Drawn? && (if s.k < TILES then s'.lanes[w].job == Out(s.k) else s'.lanes[w].job.Stopped?)
  {
    assert LaneOk(c, c.images[s.m], s.lanes[s.pc.source], s.pc.source);
  }

  lemma PostReplyPhase(c: Setup, s: State)
    requires WellSized(c, s) && Enabled(c, s, PostReply) && PhaseOk(c, s)
    ensures PhaseOk(c, Apply(c, s, PostReply))
  {
    var s' := Apply(c, s, PostReply);
    SumUpdate(StopWeight, s.lanes, s.pc.source, s'.lanes[s.pc.source]);
    StopCountBounds(s.lanes);
  }

  lemma PostReplyTiles(c: Setup, s: State, s': State, w: nat)
    requires w < |s.lanes| == |s'.lanes| && TilesOut(s) && s.lanes[w].job.Drawn?
    requires s'.lanes == s.lanes[w := s'.lanes[w]]
    requires (s'.lanes[w].job == Out(s.k) && s'.k == s.k + 1) || (s'.lanes[w].job.Stopped? && s'.k == s.k)
    ensures TilesOut(s')
    ensures forall t: nat :: Held(s, t) ==> Held(s', t)
  {
    forall t: nat | Held(s, t) ensures Held(s', t) {
      var i :| 0 <= i < |s.lanes| && Holds(s.lanes[i].job, t);
      assert Holds(s'.lanes[i].job, t);
    }
  }

  lemma PostReplyOk(c: Setup, s: State)
    requires Inv(c, s) && Enabled(c, s, PostReply)
    ensures Inv(c, Apply(c, s, PostReply))
  {
    var s' := Apply(c, s, PostReply);
    PostReplyLane(c, s);
    PostReplyPhase(c, s);
    PostReplyTiles(c, s, s', s.pc.source);
    if s.k < TILES {
      HandOutGrid(c, s, s', s.pc.source);
    } else {
      SameTilesGrid(c, s, s');
    }
  }

  // The root moves on without a tile changing hands.
  lemma SameTilesGrid(c: Setup, s: State, s': State)
    requires WellSized(c, s) && WellSized(c, s') && GridOk(c, s)
    requires !s.pc.Announce? && !s.pc.Finished? && !s'.pc.Announce? && !s'.pc.Finished?
    requires s'.m == s.m && s'.k == s.k && s'.grid == s.grid && forall t: nat :: Held(s, t) ==> Held(s', t)
    ensures GridOk(c, s')
  {
  }

  lemma ReplyAgainOk(c: Setup, s: State)
    requires Inv(c, s) && Enabled(c, s, ReplyDone) && (s.k < TILES || s.stops < c.workers)
    ensures Inv(c, s.(pc := Collect))
  {
    var s' := s.(pc := Collect);
    assert forall t: nat :: Held(s, t) ==> Held(s', t);
    SameTilesGrid(c, s, s');
  }

  lemma ReplyNextOk(c: Setup, s: State)
    requires Inv(c, s) && Enabled(c, s, ReplyDone) && s.k == TILES && s.stops == c.workers
    ensures Inv(c, s.(pc := Announce(0, false), m := s.m + 1))
  {
    StopCountBounds(s.lanes);
    assert forall w :: 0 <= w < |s.lanes| ==> s.lanes[w].job.Stopped?;
    assert forall t: nat :: !Held(s, t);
    AllTilesShown(c, s);
  }

  lemma ReplyDoneOk(c: Setup, s: State)
    requires Inv(c, s) && Enabled(c, s, ReplyDone)
    ensures Inv(c, Apply(c, s, ReplyDone))
  {
    StopCountBounds(s.lanes);
    if s.k < TILES || s.stops < c.workers {
      ReplyAgainOk(c, s);
    } else {
      ReplyNextOk(c, s);
    }
  }

  /** When every tile has been drawn, the image is complete. */
  lemma AllTilesShown(c: Setup, s: State)
    requires Inv(c, s) && s.pc.Reply? && s.k == TILES
    requires forall t: nat :: !Held(s, t)
    ensures ImageComplete(c, s.m, s.grid)
  {
    var im := c.images[s.m];
    assert IsTiling(c.scene.across, c.scene.down, im.tiles);
    forall x, y | Covered(c.scene.across, c.scene.down, x, y)
      ensures Shows(c.scene, im.view, c.scene.down, s.grid, x, y)
    {
      var t :| 0 <= t < |im.tiles| && Contains(im.tiles[t], x, y);
      assert ShowsTile(c.scene, im.view, c.scene.down, s.grid, im.tiles[t]);
    }
  }

  lemma StepOk(c: Setup, s: State, step: Step)
    requires Inv(c, s) && Enabled(c, s, step)
    ensures Inv(c, Apply(c, s, step))
  {
    match step
    case Tell => TellOk(c, s);
    case TellDone => TellDoneOk(c, s);
    case PostDeal => PostDealOk(c, s);
    case DealDone => DealDoneOk(c, s);
    case TakeHeader(w) => TakeHeaderOk(c, s, w);
    case TakeBody => TakeBodyOk(c, s);
    case PostReply => PostReplyOk(c, s);
    case ReplyDone => ReplyDoneOk(c, s);
    case _ => WorkerStepOk(c, s, step);
  }

  /** Every state of every run satisfies the invariant. */
  lemma {:induction false} RunOk(c: Setup, states: seq<State>, steps: seq<Step>, i: nat)
    requires ValidSetup(c) && Run(c, states, steps) && i < |states|
    ensures Inv(c, states[i])
  {
    if i == 0 {
      StartOk(c);
    } else {
      RunOk(c, states, steps, i - 1);
      StepOk(c, states[i - 1], steps[i - 1]);
    }
  }

  // ----- whole runs

  /** The parallel image is the sequential one: whenever the root is back at the top of its loop, or
      has finished, the image of the previous input holds the sequential count of every covered
      pixel, and the rest of the array is as it was allocated.  This holds under every schedule,
      every shuffle, either program and every worker count from 1 to 400, and although workers may
      still be on their way out of the image. */
  lemma ImagesAreSequential(c: Setup, states: seq<State>, steps: seq<Step>, i: nat)
    requires ValidSetup(c) && Run(c, states, steps) && i < |states|
    requires (states[i].pc.Announce? || states[i].pc.Finished?) && states[i].m > 0
    ensures states[i].m - 1 < |c.images| && ImageComplete(c, states[i].m - 1, states[i].grid)
  {
    RunOk(c, states, steps, i);
  }

  /** No tile is with two workers; at the head of the main loop every worker has exactly one; a body
      taken after a header is that tile's data. */
  lemma NoTileTwice(c: Setup, states: seq<State>, steps: seq<Step>, i: nat)
    requires ValidSetup(c) && Run(c, states, steps) && i < |states|
    ensures var s := states[i];
            && TilesOut(s) && WellSized(c, s)
            && (s.pc.Collect? && s.k < TILES ==> forall w :: 0 <= w < |s.lanes| ==> s.lanes[w].job.Out?)
            && (s.pc.Fetch? && 0 <= s.pc.source < |s.lanes| && s.lanes[s.pc.source].bodies != [] ==>
                  && Proper(s.pc.tile)
                  && s.lanes[s.pc.source].bodies == [TileValues(c.scene, c.images[s.m].view, s.pc.tile)])
  {
    RunOk(c, states, steps, i);
    var s := states[i];
    if s.pc.Fetch? {
      BodyMatchesHeader(c, s);
    }
    StopCountBounds(s.lanes);
  }

  // A step that hands tile k of the current image to a worker.
  predicate HandsOut(s: State, step: Step) {
    step.PostDeal? || (step.PostReply? && s.k < TILES)
  }

  /** A hand-out step sends its worker the number k + 1 and the four bounds of tile k, and moves on
      to tile k + 1. */
  lemma HandOutSends(c: Setup, s: State, step: Step)
    requires WellSized(c, s) && Enabled(c, s, step) && HandsOut(s, step)
    ensures var s' := Apply(c, s, step);
      var w := if step.PostDeal? then s.pc.w else s.pc.source;
      && s'.k == s.k + 1
      && s'.lanes[w].work == s.lanes[w].work + [Record(s.k + 1, c.images[s.m].tiles[s.k])]
      && forall i :: 0 <= i < |s.lanes| && i != w ==> s'.lanes[i] == s.lanes[i]
  {
  }

  // Tile t of image m has been handed out.
  predicate Past(s: State, m: nat, t: nat) {
    s.m > m || (s.m == m && s.k > t && !s.pc.Announce? && !s.pc.Finished?)
  }

  lemma StepPast(c: Setup, s: State, step: Step, m: nat, t: nat)
    requires WellSized(c, s) && Enabled(c, s, step) && Past(s, m, t)
    ensures Past(Apply(c, s, step), m, t)
  {
  }

  lemma {:induction false} StaysPast(c: Setup, states: seq<State>, steps: seq<Step>, i: nat, j: nat, m: nat, t: nat)
    requires Run(c, states, steps) && i <= j < |states| && Past(states[i], m, t)
    ensures Past(states[j], m, t)
  {
    if i < j {
      StaysPast(c, states, steps, i, j - 1, m, t);
      StepPast(c, states[j - 1], steps[j - 1], m, t);
    }
  }

  /** In every run two steps that hand out tiles of the same image hand out different tiles. */
  lemma HandedOutOnce(c: Setup, states: seq<State>, steps: seq<Step>, i: nat, j: nat)
    requires Run(c, states, steps) && i < j < |steps|
    requires HandsOut(states[i], steps[i]) && HandsOut(states[j], steps[j]) && states[i].m == states[j].m
    ensures states[i].k < states[j].k
  {
    assert Past(states[i + 1], states[i].m, states[i].k);
    StaysPast(c, states, steps, i + 1, j, states[i].m, states[i].k);
  }

  /** At an image boundary the result channels are empty and the tag-100 channels hold at most the
      stop that the worker has yet to read; once the workers are there too, nothing is in flight. */
  lemma BoundaryIsQuiet(c: Setup, states: seq<State>, steps: seq<Step>, i: nat)
    requires ValidSetup(c) && Run(c, states, steps) && i < |states|
    requires states[i].pc == Announce(0, false)
    ensures forall w :: 0 <= w < |states[i].lanes| ==>
              var lane := states[i].lanes[w];
              && lane.views == [] && lane.headers == [] && lane.bodies == []
              && (lane.work == [] || lane.work == [STOP])
              && (lane.pc.AwaitView? ==> Silent(lane))
  {
    RunOk(c, states, steps, i);
    forall w | 0 <= w < |states[i].lanes|
      ensures LaneOk(c, c.images[states[i].m], states[i].lanes[w], w) && states[i].lanes[w].job.Stopped?
    {
    }
  }

  // ----- no run gets stuck

  // ----- runs in which no send is buffered

  // A worker that was told to stop has read it, unless the root is still in the call that tells it.
  ghost predicate StopsRead(s: State) {
    forall w :: 0 <= w < |s.lanes| && s.lanes[w].job.Stopped? && s.pc != Reply(w, true) ==> s.lanes[w].work == []
  }

  lemma StrictWorkerStep(c: Setup, s: State, step: Step)
    requires WellSized(c, s) && Enabled(c, s, step) && WorkerStep(step) && StopsRead(s)
    ensures StopsRead(Apply(c, s, step))
  {
    var lane, next := s.lanes[step.w], ApplyWorker(c, s, step);
    assert next.job == lane.job && (lane.work == [] ==> next.work == []);
  }

  lemma StrictRootStep(c: Setup, s: State, step: Step)
    requires WellSized(c, s) && Unbuffered(c, s, step) && !WorkerStep(step) && StopsRead(s)
    ensures StopsRead(Apply(c, s, step))
  {
    match step
    case Tell =>
    case TellDone =>
    case PostDeal =>
    case DealDone =>
    case TakeHeader(_) =>
    case TakeBody =>
    case PostReply =>
    case ReplyDone =>
  }

  lemma {:induction false} StrictRun(c: Setup, states: seq<State>, steps: seq<Step>, i: nat)
    requires Run(c, states, steps) && i < |states|
    requires forall j :: 0 <= j < |steps| ==> Unbuffered(c, states[j], steps[j])
    ensures StopsRead(states[i])
  {
    if i > 0 {
      StrictRun(c, states, steps, i - 1);
      if WorkerStep(steps[i - 1]) {
        StrictWorkerStep(c, states[i - 1], steps[i - 1]);
      } else {
        StrictRootStep(c, states[i - 1], steps[i - 1]);
      }
    }
  }

  /** If no send is buffered, every channel is empty and every worker waits for the next view
      whenever an image ends. */
  lemma StrictBoundaryIsSilent(c: Setup, states: seq<State>, steps: seq<Step>, i: nat)
    requires ValidSetup(c) && Run(c, states, steps) && i < |states| && states[i].pc == Announce(0, false)
    requires forall j :: 0 <= j < |steps| ==> Unbuffered(c, states[j], steps[j])
    ensures forall w :: 0 <= w < |states[i].lanes| ==> Silent(states[i].lanes[w]) && states[i].lanes[w].pc.AwaitView?
  {
    StrictRun(c, states, steps, i);
    RunOk(c, states, steps, i);
    forall w | 0 <= w < |states[i].lanes|
      ensures Silent(states[i].lanes[w]) && states[i].lanes[w].pc.AwaitView?
    {
      assert LaneOk(c, c.images[states[i].m], states[i].lanes[w], w);
    }
  }

  /** A lane that is not idle has a step of its own, or a message the root is waiting for. */
  lemma LaneCanMove(c: Setup, s: State, w: nat) returns (step: Step)
    requires Inv(c, s) && w < c.workers
    requires !s.lanes[w].job.Stopped? && !s.lanes[w].job.Drawn?
    requires s.lanes[w].job.Unsent? ==> s.lanes[w].views != []
    requires s.lanes[w].job.Out? ==> s.lanes[w].headers == []
    requires s.lanes[w].job.Fetching? ==> s.lanes[w].bodies == []
    ensures WorkerStep(step) && step.w == w && Unbuffered(c, s, step)
  {
    var lane := s.lanes[w];
    assert LaneOk(c, c.images[s.m], lane, w);
    match lane.pc
    case AwaitWork(_) => step := GetWork(w);
    case SendHeader(_, _, inside) => step := if inside then HeaderDone(w) else PostHeader(w);
    case SendBody(_, _, inside) => step := if inside then BodyDone(w) else PostBody(w);
    case _ => step := GetView(w);
  }

  lemma AnnounceMoves(c: Setup, s: State) returns (step: Step)
    requires Inv(c, s) && s.pc.Announce?
    ensures Unbuffered(c, s, step)
  {
    if !s.pc.inside {
      step := Tell;
    } else if exists i :: 0 <= i <= s.pc.w && s.lanes[i].views != [] {
      var i :| 0 <= i <= s.pc.w && s.lanes[i].views != [];
      step := LaneCanMove(c, s, i);
    } else {
      step := TellDone;
    }
  }

  lemma DealMoves(c: Setup, s: State) returns (step: Step)
    requires Inv(c, s) && s.pc.Deal?
    ensures Unbuffered(c, s, step)
  {
    if !s.pc.inside {
      step := PostDeal;
    } else if s.lanes[s.pc.w].work == [] {
      step := DealDone;
    } else {
      assert LaneOk(c, c.images[s.m], s.lanes[s.pc.w], s.pc.w);
      step := LaneCanMove(c, s, s.pc.w);
    }
  }

  lemma ReplyMoves(c: Setup, s: State) returns (step: Step)
    requires Inv(c, s) && s.pc.Reply?
    ensures Unbuffered(c, s, step)
  {
    var source := s.pc.source;
    assert LaneOk(c, c.images[s.m], s.lanes[source], source);
    if !s.pc.inside {
      step := PostReply;
    } else if s.lanes[source].work == [] {
      step := ReplyDone;
    } else {
      step := StoppedOrOutMoves(c, s, source);
    }
  }

  lemma RootOrLaneMoves(c: Setup, s: State) returns (step: Step)
    requires Inv(c, s) && !Final(s)
    ensures Unbuffered(c, s, step)
  {
    match s.pc
    case Announce(_, _) => step := AnnounceMoves(c, s);
    case Deal(_, _) => step := DealMoves(c, s);
    case Reply(_, _) => step := ReplyMoves(c, s);
    case Collect =>
      var w := SomeoneOut(c, s);
      if s.lanes[w].headers == [] {
        step := LaneCanMove(c, s, w);
      } else {
        step := TakeHeader(w);
      }
    case Fetch(source, _) =>
      BodyMatchesHeader(c, s);
      if s.lanes[source].bodies == [] {
        step := LaneCanMove(c, s, source);
      } else {
        step := TakeBody;
      }
    case Finished =>
      var w :| 0 <= w < |s.lanes| && !s.lanes[w].pc.Quit?;
      assert LaneOk(c, c.images[s.m], s.lanes[w], w);
      step := LaneCanMove(c, s, w);
  }

  /** While the root waits for a header, someone is still working on a tile; in pmandel_spawn.c's
      last loop it is the child the root waits for. */
  lemma SomeoneOut(c: Setup, s: State) returns (w: nat)
    requires Inv(c, s) && s.pc.Collect?
    ensures w < c.workers && s.lanes[w].job.Out?
    ensures c.program == Spawned && s.k >= TILES ==> w == s.stops
  {
    StopCountBounds(s.lanes);
    if c.program == Spawned {
      w := s.stops;
    } else {
      w :| 0 <= w < |s.lanes| && !s.lanes[w].job.Stopped?;
    }
  }

  /** A worker with an unread tag-100 message can move towards it. */
  lemma StoppedOrOutMoves(c: Setup, s: State, w: nat) returns (step: Step)
    requires Inv(c, s) && w < c.workers && s.lanes[w].work != []
    requires s.lanes[w].job.Stopped? || s.lanes[w].job.Out?
    ensures Unbuffered(c, s, step)
  {
    assert LaneOk(c, c.images[s.m], s.lanes[w], w);
    if s.lanes[w].job.Stopped? {
      step := if s.lanes[w].pc.AwaitWork? then GetWork(w) else BodyDone(w);
    } else {
      step := LaneCanMove(c, s, w);
    }
  }

  /** No reachable state short of the end is stuck, even when no send returns before its message has
      been received. */
  lemma NeverStuck(c: Setup, states: seq<State>, steps: seq<Step>, i: nat)
    requires ValidSetup(c) && Run(c, states, steps) && i < |states| && !Final(states[i])
    ensures WellSized(c, states[i]) && exists step :: Unbuffered(c, states[i], step)
  {
    RunOk(c, states, steps, i);
    var step := RootOrLaneMoves(c, states[i]);
  }

  // ----- every run has the same length

  /** Steps a queue of tag-100 messages still causes at the worker. */
  function QueueCost(q: seq<Record>): int {
    if q == [] then 0 else (if q[0].first != 0 then 5 else 1) + QueueCost(q[1..])
  }

  lemma {:induction false} QueueCostAppend(q: seq<Record>, r: Record)
    ensures QueueCost(q + [r]) == QueueCost(q) + QueueCost([r])
  {
    if q == [] {
      assert q + [r] == [r];
    } else {
      QueueCostAppend(q[1..], r);
      assert (q + [r])[1..] == q[1..] + [r];
    }
  }

  lemma {:induction false} QueueCostNonNegative(q: seq<Record>)
    ensures QueueCost(q) >= 0
  {
    if q != [] {
      QueueCostNonNegative(q[1..]);
    }
  }

  function PcCost(pc: WorkerPc): int {
    match pc
    case SendHeader(_, _, inside) => if inside then 3 else 4
    case SendBody(_, _, inside) => if inside then 1 else 2
    case _ => 0
  }

  /** Steps that the messages and the tile in a lane still cause, at the worker and at the root. */
  function LaneCost(lane: Lane): int {
    |lane.views| + QueueCost(lane.work) + PcCost(lane.pc)
    + match lane.job { case Out(_) => 2 case Fetching(_) => 1 case _ => 0 }
  }

  function AnnounceCost(c: Setup): int {
    c.workers + if c.program == Spawned then 2 * c.workers else 2
  }

  /** Steps from the first deal of an image to its last stop, if there is an image. */
  function DealCost(c: Setup, m: nat): int
    requires m < |c.images|
  {
    if IsQuit(c.images[m].view) then 0 else 9 * TILES + 3 * c.workers + FutureCost(c, m + 1)
  }

  function FutureCost(c: Setup, m: nat): int
    decreases |c.images| - m
  {
    if m >= |c.images| then 0
    else AnnounceCost(c) + if IsQuit(c.images[m].view) then 0 else 9 * TILES + 3 * c.workers + FutureCost(c, m + 1)
  }

  function RootCost(c: Setup, s: State): int
    requires s.m < |c.images|
  {
    match s.pc
    case Announce(w, inside) =>
      DealCost(c, s.m)
      + (if c.program == Spawned then (if inside then 3 * (c.workers - w) - 2 else 3 * (c.workers - w))
         else if inside then 1 else c.workers + 2)
    case Finished => 0
    case _ =>
      9 * (TILES - s.k) + 3 * (c.workers - s.stops) + FutureCost(c, s.m + 1)
      + if (s.pc.Deal? || s.pc.Reply?) && s.pc.inside then 1 else 0
  }

  function Cost(c: Setup, s: State): int
    requires s.m < |c.images|
  {
    RootCost(c, s) + Sum(LaneCost, s.lanes)
  }

  lemma WorkerStepLaneCost(c: Setup, s: State, step: Step)
    requires WellSized(c, s) && Enabled(c, s, step) && WorkerStep(step)
    ensures LaneCost(ApplyWorker(c, s, step)) == LaneCost(s.lanes[step.w]) - 1
  {
  }

  lemma WorkerStepCosts(c: Setup, s: State, step: Step)
    requires WellSized(c, s) && Enabled(c, s, step) && WorkerStep(step)
    ensures Cost(c, Apply(c, s, step)) == Cost(c, s) - 1
  {
    WorkerStepLaneCost(c, s, step);
    SumUpdate(LaneCost, s.lanes, step.w, ApplyWorker(c, s, step));
  }

  lemma AnnounceCosts(c: Setup, s: State, step: Step)
    requires WellSized(c, s) && Enabled(c, s, step) && (step.Tell? || step.TellDone?)
    requires PhaseOk(c, s)
    ensures Cost(c, Apply(c, s, step)) == Cost(c, s) - 1
  {
    var s' := Apply(c, s, step);
    if step.Tell? && c.program == Spawned {
      SumUpdate(LaneCost, s.lanes, s.pc.w, s'.lanes[s.pc.w]);
    } else if step.Tell? {
      SumShift(LaneCost, s.lanes, s'.lanes, 1);
    }
  }

  lemma HandOutCosts(c: Setup, s: State, step: Step)
    requires WellSized(c, s) && Enabled(c, s, step)
    requires (step.PostDeal? && s.lanes[s.pc.w].job.Unsent?) || (step.PostReply? && s.lanes[s.pc.source].job.Drawn?)
    ensures Cost(c, Apply(c, s, step)) == Cost(c, s) - 1
  {
    if step.PostDeal? {
      DealCosts(c, s);
    } else {
      ReplyCosts(c, s);
    }
  }

  lemma DealCosts(c: Setup, s: State)
    requires WellSized(c, s) && Enabled(c, s, PostDeal) && s.lanes[s.pc.w].job.Unsent?
    ensures Cost(c, Apply(c, s, PostDeal)) == Cost(c, s) - 1
  {
    QueueCostAppend(s.lanes[s.pc.w].work, WorkFor(c.images[s.m], s.k));
    SumUpdate(LaneCost, s.lanes, s.pc.w, Apply(c, s, PostDeal).lanes[s.pc.w]);
  }

  lemma ReplyCosts(c: Setup, s: State)
    requires WellSized(c, s) && Enabled(c, s, PostReply) && s.lanes[s.pc.source].job.Drawn?
    ensures Cost(c, Apply(c, s, PostReply)) == Cost(c, s) - 1
  {
    var s', w := Apply(c, s, PostReply), s.pc.source;
    ReplyLaneCost(c, s);
    SumUpdate(LaneCost, s.lanes, w, s'.lanes[w]);
    assert s'.lanes == s.lanes[w := s'.lanes[w]];
  }

  lemma ReplyLaneCost(c: Setup, s: State)
    requires WellSized(c, s) && Enabled(c, s, PostReply) && s.lanes[s.pc.source].job.Drawn?
    ensures var s', w := Apply(c, s, PostReply), s.pc.source;
      LaneCost(s'.lanes[w]) + RootCost(c, s') == LaneCost(s.lanes[w]) + RootCost(c, s) - 1
  {
    QueueCostAppend(s.lanes[s.pc.source].work, if s.k < TILES then WorkFor(c.images[s.m], s.k) else STOP);
  }

  lemma TakeCosts(c: Setup, s: State, step: Step)
    requires WellSized(c, s) && Enabled(c, s, step)
    requires (step.TakeHeader? && s.lanes[step.w].job.Out?) || (step.TakeBody? && s.lanes[s.pc.source].job.Fetching?)
    ensures Cost(c, Apply(c, s, step)) == Cost(c, s) - 1
  {
    if step.TakeBody? {
      TakeBodyCosts(c, s);
    } else {
      TakeHeaderCosts(c, s, step.w);
    }
  }

  lemma TakeHeaderCosts(c: Setup, s: State, w: nat)
    requires WellSized(c, s) && Enabled(c, s, TakeHeader(w)) && s.lanes[w].job.Out?
    ensures Cost(c, Apply(c, s, TakeHeader(w))) == Cost(c, s) - 1
  {
    SumUpdate(LaneCost, s.lanes, w, Apply(c, s, TakeHeader(w)).lanes[w]);
  }

  lemma TakeBodyCosts(c: Setup, s: State)
    requires WellSized(c, s) && Enabled(c, s, TakeBody) && s.lanes[s.pc.source].job.Fetching?
    ensures Cost(c, Apply(c, s, TakeBody)) == Cost(c, s) - 1
  {
    SumUpdate(LaneCost, s.lanes, s.pc.source, Apply(c, s, TakeBody).lanes[s.pc.source]);
  }

  lemma DoneCosts(c: Setup, s: State, step: Step)
    requires WellSized(c, s) && Enabled(c, s, step) && (step.DealDone? || step.ReplyDone?)
    requires PhaseOk(c, s) && ValidSetup(c)
    ensures Cost(c, Apply(c, s, step)) == Cost(c, s) - 1
  {
    StopCountBounds(s.lanes);
  }

  lemma RootStepCosts(c: Setup, s: State, step: Step)
    requires Inv(c, s) && Enabled(c, s, step) && !WorkerStep(step)
    ensures Cost(c, Apply(c, s, step)) == Cost(c, s) - 1
  {
    match step
    case Tell => AnnounceCosts(c, s, step);
    case TellDone => AnnounceCosts(c, s, step);
    case PostDeal => HandOutCosts(c, s, step);
    case PostReply => HandOutCosts(c, s, step);
    case TakeHeader(w) =>
      TakeHeaderLane(c, s, w);
      TakeCosts(c, s, step);
    case TakeBody => TakeCosts(c, s, step);
    case _ => DoneCosts(c, s, step);
  }

  lemma {:induction false} FutureCostNonNegative(c: Setup, m: nat)
    ensures FutureCost(c, m) >= 0
    decreases |c.images| - m
  {
    if m < |c.images| {
      FutureCostNonNegative(c, m + 1);
    }
  }

  lemma RootCostNonNegative(c: Setup, s: State)
    requires ValidSetup(c) && WellSized(c, s) && PhaseOk(c, s)
    ensures RootCost(c, s) >= 0
  {
    FutureCostNonNegative(c, s.m + 1);
    StopCountBounds(s.lanes);
  }

  lemma CostNonNegative(c: Setup, s: State)
    requires ValidSetup(c) && WellSized(c, s) && PhaseOk(c, s)
    ensures Cost(c, s) >= 0
  {
    forall w | 0 <= w < |s.lanes| ensures LaneCost(s.lanes[w]) >= 0 {
      QueueCostNonNegative(s.lanes[w].work);
    }
    SumNonNegative(LaneCost, s.lanes);
    RootCostNonNegative(c, s);
  }

  lemma FinalCostsNothing(c: Setup, s: State)
    requires Inv(c, s) && Final(s)
    ensures Cost(c, s) == 0
  {
    forall w | 0 <= w < |s.lanes| ensures LaneCost(s.lanes[w]) == 0 {
      assert LaneOk(c, c.images[s.m], s.lanes[w], w);
    }
    SumNonNegative(LaneCost, s.lanes);
  }

  /** The number of steps of a complete run: for every image, the announcement, nine steps per tile
      and three per stopped worker, and one more announcement to quit. */
  function RunLength(c: Setup): int {
    AnnounceCost(c) + (|c.images| - 1) * (AnnounceCost(c) + 9 * TILES + 3 * c.workers)
  }

  lemma {:induction false} FutureCostClosed(c: Setup, m: nat)
    requires ValidSetup(c) && m < |c.images|
    ensures FutureCost(c, m)
         == AnnounceCost(c) + (|c.images| - 1 - m) * (AnnounceCost(c) + 9 * TILES + 3 * c.workers)
    decreases |c.images| - m
  {
    if m < |c.images| - 1 {
      FutureCostClosed(c, m + 1);
      var u := AnnounceCost(c) + 9 * TILES + 3 * c.workers;
      assert (|c.images| - 1 - m) * u == (|c.images| - 2 - m) * u + u;
    }
  }

  lemma StartSum(lanes: seq<Lane>)
    requires forall w :: 0 <= w < |lanes| ==> lanes[w] == Lane(AwaitView, [], [], [], [], Stopped)
    ensures Sum(LaneCost, lanes) == 0
  {
    SumNonNegative(LaneCost, lanes);
  }

  lemma {:induction false} CostAlongRun(c: Setup, states: seq<State>, steps: seq<Step>, i: nat)
    requires ValidSetup(c) && Run(c, states, steps) && i < |states|
    ensures Inv(c, states[i]) && Cost(c, states[i]) == RunLength(c) - i
  {
    RunOk(c, states, steps, i);
    if i == 0 {
      FutureCostClosed(c, 0);
      StartSum(states[0].lanes);
      assert Cost(c, Start(c)) == FutureCost(c, 0);
    } else {
      CostAlongRun(c, states, steps, i - 1);
      if WorkerStep(steps[i - 1]) {
        WorkerStepCosts(c, states[i - 1], steps[i - 1]);
      } else {
        RootStepCosts(c, states[i - 1], steps[i - 1]);
      }
    }
  }

  /** Every run ends after the same number of steps, whatever the schedule: no run is longer, a run
      is at its end exactly when it has that length, and a shorter one can go on. */
  lemma AllRunsEqualLength(c: Setup, states: seq<State>, steps: seq<Step>)
    requires ValidSetup(c) && Run(c, states, steps)
    ensures |steps| <= RunLength(c)
    ensures |steps| == RunLength(c) <==> Final(states[|steps|])
  {
    var last := states[|steps|];
    CostAlongRun(c, states, steps, |steps|);
    CostNonNegative(c, last);
    if Final(last) {
      FinalCostsNothing(c, last);
    } else {
      var step := RootOrLaneMoves(c, last);
      StepOk(c, last, step);
      CostNonNegative(c, Apply(c, last, step));
      if WorkerStep(step) {
        WorkerStepCosts(c, last, step);
      } else {
        RootStepCosts(c, last, step);
      }
    }
  }
}
