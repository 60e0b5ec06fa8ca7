/** The message-passing Mandelbrot farms, examples/pmandel.c and examples/pmandel_spawn.c, as one
    step relation: a root, its workers, and a first-in-first-out channel for every
    (source, destination, tag) triple (section 3.5 of MPI 3.1).

    A send takes two steps: the message enters its channel, and later the send returns.  The
    relation `Enabled` lets a send return at any time, so it covers every buffering policy;
    `Unbuffered` lets it return only once its message has been received.  The broadcast that opens
    an image (`MPI_Bcast`) is treated the same way, and so is allowed to let the root run ahead of
    workers that have not even finished the previous image.
 */
module MessageFarm {
  import opened Tiles
  import opened Drawing
  import opened Records

  /** PointToPoint is pmandel.c, Spawned is pmandel_spawn.c. */
  datatype Program = PointToPoint | Spawned

  /** One line of input: the view, and the tiles in the order the shuffle left them. */
  datatype Image = Image(view: View, tiles: seq<Tile>)

  datatype Setup = Setup(program: Program, workers: nat, scene: Scene, images: seq<Image>)

  /** Between 1 and 400 workers, an image whose stride-`height` layout is sound, and inputs of which
      exactly the last one asks the program to quit. */
  ghost predicate ValidSetup(c: Setup) {
    && 1 <= c.workers <= TILES
    && c.scene.across >= 1 && c.scene.down >= 1
    && LayoutSound(c.scene.across, c.scene.down, c.scene.down)
    && |c.images| >= 1
    && IsQuit(c.images[|c.images| - 1].view)
    && forall m :: 0 <= m < |c.images| - 1 ==>
                     !IsQuit(c.images[m].view) && IsTiling(c.scene.across, c.scene.down, c.images[m].tiles)
  }

  function WorkFor(im: Image, k: nat): Record
    requires k < |im.tiles|
  {
    Record(k + 1, im.tiles[k])
  }

  /** A worker echoes its record: pmandel.c overwrites the first integer with the worker's rank,
      pmandel_spawn.c leaves it. */
  function HeaderFor(c: Setup, w: nat, r: Record): Record {
    if c.program == PointToPoint then Record(w + 1, r.tile) else r
  }

  /** Where a worker stands.  `inside` says that the send's message is already in its channel. */
  datatype WorkerPc =
    | AwaitView
    | AwaitWork(view: View)
    | SendHeader(view: View, rec: Record, inside: bool)
    | SendBody(view: View, rec: Record, inside: bool)
    | Quit

  /** The root's record of its dealings with a worker in the current image.  It is a history
      variable: no step consults it. */
  datatype Job = Unsent | Out(t: nat) | Fetching(t: nat) | Drawn | Stopped

  /** A worker together with its four channels: announcements and tag 100 from the root, tags 200
      and 201 to it. */
  datatype Lane = Lane(pc: WorkerPc, views: seq<View>, work: seq<Record>,
                       headers: seq<Record>, bodies: seq<seq<int>>, job: Job)

  /** Where the root stands: announcing the view to worker w, dealing the first tile to worker w,
      waiting for a header, waiting for the body from `source`, answering `source`. */
  datatype RootPc =
    | Announce(w: nat, inside: bool)
    | Deal(w: nat, inside: bool)
    | Collect
    | Fetch(source: int, tile: Tile)
    | Reply(source: int, inside: bool)
    | Finished

  /** m is the current input, k the next tile, stops the index of the last loop. */
  datatype State = State(pc: RootPc, m: nat, k: nat, stops: nat, grid: seq<int>, lanes: seq<Lane>)

  datatype Step =
    | Tell | TellDone
    | PostDeal | DealDone
    | TakeHeader(w: nat) | TakeBody
    | PostReply | ReplyDone
    | GetView(w: nat) | GetWork(w: nat)
    | PostHeader(w: nat) | HeaderDone(w: nat)
    | PostBody(w: nat) | BodyDone(w: nat)

  function Start(c: Setup): State
    requires c.scene.across >= 0 && c.scene.down >= 0
  {
    State(Announce(0, false), 0, 0, 0,
          seq(c.scene.across * c.scene.down, _ => 0),
          seq(c.workers, _ => Lane(AwaitView, [], [], [], [], Stopped)))
  }

  predicate WellSized(c: Setup, s: State) {
    |s.lanes| == c.workers && s.m < |c.images| && c.scene.across >= 1 && c.scene.down >= 1
  }

  /** A tag-201 message fits the receive that its header announced, and the tile fits the image. */
  predicate BodyFits(c: Setup, s: State, tile: Tile, body: seq<int>) {
    Proper(tile) && |body| == CellCount(tile) && CellsInBounds(tile, c.scene.down, |s.grid|)
  }

  predicate Enabled(c: Setup, s: State, step: Step)
    requires WellSized(c, s)
  {
    match step
    case Tell => s.pc.Announce? && !s.pc.inside && s.pc.w < c.workers
    case TellDone => s.pc.Announce? && s.pc.inside && s.pc.w < c.workers
    case PostDeal => s.pc.Deal? && !s.pc.inside && s.pc.w < c.workers && s.k < |c.images[s.m].tiles|
    case DealDone => s.pc.Deal? && s.pc.inside && s.pc.w < c.workers
    case TakeHeader(w) =>
      // pmandel.c receives from any source; pmandel_spawn.c uses MPI_Waitany while tiles remain
      // and then MPI_Wait on each child in turn
      && s.pc.Collect? && w < c.workers && s.lanes[w].headers != []
      && (c.program == Spawned && s.k >= TILES ==> w == s.stops)
    case TakeBody =>
      && s.pc.Fetch? && 0 <= s.pc.source < c.workers && s.lanes[s.pc.source].bodies != []
      && BodyFits(c, s, s.pc.tile, s.lanes[s.pc.source].bodies[0])
    case PostReply =>
      && s.pc.Reply? && !s.pc.inside && 0 <= s.pc.source < c.workers
      && (s.k < TILES ==> s.k < |c.images[s.m].tiles|)
    case ReplyDone => s.pc.Reply? && s.pc.inside && 0 <= s.pc.source < c.workers && s.m + 1 < |c.images|
    case GetView(w) => w < c.workers && s.lanes[w].pc.AwaitView? && s.lanes[w].views != []
    case GetWork(w) => w < c.workers && s.lanes[w].pc.AwaitWork? && s.lanes[w].work != []
    case PostHeader(w) => w < c.workers && s.lanes[w].pc.SendHeader? && !s.lanes[w].pc.inside
    case HeaderDone(w) => w < c.workers && s.lanes[w].pc.SendHeader? && s.lanes[w].pc.inside
    case PostBody(w) =>
      w < c.workers && s.lanes[w].pc.SendBody? && !s.lanes[w].pc.inside && Proper(s.lanes[w].pc.rec.tile)
    case BodyDone(w) => w < c.workers && s.lanes[w].pc.SendBody? && s.lanes[w].pc.inside
  }

  /** The same steps when no send, and no broadcast, returns before its message is received. */
  predicate Unbuffered(c: Setup, s: State, step: Step)
    requires WellSized(c, s)
  {
    && Enabled(c, s, step)
    && match step
       case TellDone =>
         if c.program == Spawned then s.lanes[s.pc.w].views == []
         else forall w :: 0 <= w < c.workers ==> s.lanes[w].views == []
       case DealDone => s.lanes[s.pc.w].work == []
       case ReplyDone => s.lanes[s.pc.source].work == []
       case HeaderDone(w) => s.lanes[w].headers == []
       case BodyDone(w) => s.lanes[w].bodies == []
       case _ => true
  }

  function WithLane(s: State, w: nat, lane: Lane): State
    requires w < |s.lanes|
  {
    s.(lanes := s.lanes[w := lane])
  }

  function Told(lane: Lane, view: View): Lane {
    lane.(views := lane.views + [view], job := Unsent)
  }

  /** Effect of a root step. */
  function ApplyRoot(c: Setup, s: State, step: Step): (s': State)
    requires WellSized(c, s) && Enabled(c, s, step) && !WorkerStep(step)
    ensures |s'.lanes| == |s.lanes| && |s'.grid| == |s.grid|
  {
    var im := c.images[s.m];
    match step
    case Tell =>
      if c.program == Spawned then
        WithLane(s, s.pc.w, Told(s.lanes[s.pc.w], im.view)).(pc := Announce(s.pc.w, true))
      else
        s.(pc := Announce(c.workers - 1, true),
           lanes := seq(|s.lanes|, w requires 0 <= w < |s.lanes| => Told(s.lanes[w], im.view)))
    case TellDone =>
      if s.pc.w + 1 < c.workers then s.(pc := Announce(s.pc.w + 1, false))
      else if IsQuit(im.view) then s.(pc := Finished)
      else s.(pc := Deal(0, false), k := 0, stops := 0)
    case PostDeal =>
      var lane := s.lanes[s.pc.w];
      WithLane(s, s.pc.w, lane.(work := lane.work + [WorkFor(im, s.k)], job := Out(s.k)))
      .(pc := Deal(s.pc.w, true), k := s.k + 1)
    case DealDone =>
      if s.pc.w + 1 < c.workers then s.(pc := Deal(s.pc.w + 1, false)) else s.(pc := Collect)
    case TakeHeader(w) =>
      var lane := s.lanes[w];
      var h := lane.headers[0];
      var source := if c.program == PointToPoint then h.first - 1 else w;
      WithLane(s, w, lane.(headers := lane.headers[1..],
                           job := if lane.job.Out? then Fetching(lane.job.t) else lane.job))
      .(pc := Fetch(source, h.tile))
    case TakeBody =>
      var lane := s.lanes[s.pc.source];
      WithLane(s, s.pc.source, lane.(bodies := lane.bodies[1..], job := Drawn))
      .(pc := Reply(s.pc.source, false), grid := Draw(s.grid, s.pc.tile, lane.bodies[0], c.scene.down))
    case PostReply =>
      var lane := s.lanes[s.pc.source];
      if s.k < TILES then
        WithLane(s, s.pc.source, lane.(work := lane.work + [WorkFor(im, s.k)], job := Out(s.k)))
        .(pc := Reply(s.pc.source, true), k := s.k + 1)
      else
        WithLane(s, s.pc.source, lane.(work := lane.work + [STOP], job := Stopped))
        .(pc := Reply(s.pc.source, true), stops := s.stops + 1)
    case ReplyDone =>
      if s.k < TILES || s.stops < c.workers then s.(pc := Collect)
      else s.(pc := Announce(0, false), m := s.m + 1)
  }

  predicate WorkerStep(step: Step) {
    step.GetView? || step.GetWork? || step.PostHeader? || step.HeaderDone? || step.PostBody? || step.BodyDone?
  }

  /** Effect of a worker step on the worker's own lane. */
  function ApplyWorker(c: Setup, s: State, step: Step): Lane
    requires WellSized(c, s) && Enabled(c, s, step) && WorkerStep(step)
  {
    var lane := s.lanes[step.w];
    match step
    case GetView(_) =>
      lane.(views := lane.views[1..], pc := if IsQuit(lane.views[0]) then Quit else AwaitWork(lane.views[0]))
    case GetWork(_) =>
      lane.(work := lane.work[1..],
            pc := if lane.work[0].first != 0 then SendHeader(lane.pc.view, lane.work[0], false) else AwaitView)
    case PostHeader(w) =>
      lane.(headers := lane.headers + [HeaderFor(c, w, lane.pc.rec)],
            pc := SendHeader(lane.pc.view, lane.pc.rec, true))
    case HeaderDone(_) => lane.(pc := SendBody(lane.pc.view, lane.pc.rec, false))
    case PostBody(_) =>
      lane.(bodies := lane.bodies + [TileValues(c.scene, lane.pc.view, lane.pc.rec.tile)],
            pc := SendBody(lane.pc.view, lane.pc.rec, true))
    case BodyDone(_) => lane.(pc := AwaitWork(lane.pc.view))
  }

  function Apply(c: Setup, s: State, step: Step): (s': State)
    requires WellSized(c, s) && Enabled(c, s, step)
    ensures |s'.lanes| == |s.lanes| && |s'.grid| == |s.grid|
  {
    if WorkerStep(step) then WithLane(s, step.w, ApplyWorker(c, s, step)) else ApplyRoot(c, s, step)
  }

  /** A run: every state follows from the one before by an enabled step. */
  ghost predicate Run(c: Setup, states: seq<State>, steps: seq<Step>) {
    && |states| == |steps| + 1
    && c.scene.across >= 1 && c.scene.down >= 1
    && states[0] == Start(c)
    && forall i :: 0 <= i < |steps| ==>
                     WellSized(c, states[i]) && Enabled(c, states[i], steps[i])
                     && states[i + 1] == Apply(c, states[i], steps[i])
  }

  /** Everyone has received the quitting announcement. */
  predicate Final(s: State) {
    s.pc.Finished? && forall w :: 0 <= w < |s.lanes| ==> s.lanes[w].pc.Quit?
  }

  /** Image m is complete: every covered pixel holds its sequential count and nothing else in the
      array was ever written. */
  ghost predicate ImageComplete(c: Setup, m: nat, grid: seq<int>)
    requires c.scene.across >= 1 && c.scene.down >= 1 && m < |c.images|
  {
    && (forall x, y :: Covered(c.scene.across, c.scene.down, x, y) ==>
                         Shows(c.scene, c.images[m].view, c.scene.down, grid, x, y))
    && BackgroundKept(c, grid)
  }

  ghost predicate BackgroundKept(c: Setup, grid: seq<int>) {
    forall i :: 0 <= i < |grid| && Untouched(c.scene.across, c.scene.down, c.scene.down, i) ==> grid[i] == 0
  }
}
