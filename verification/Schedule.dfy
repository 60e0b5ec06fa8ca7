/**
 * Nonblocking-collective schedules: the buffer stack and its COMMIT and REAP
 * (src/include/mpir_nbc.h) on top of the engine that starts and completes the entries of a
 * schedule (src/mpid/common/sched/mpidu_sched.c).
 */
module Schedule {

  type Buffer = nat

  datatype Kind =
    | Send                   // send, synchronous or deferred send
    | Recv
    | Local                  // reduce or copy: performed when it is started
    | Callback
    | FreeBuffer(buf: Buffer) // the callback MPIR_Sched_cb_free_buf

  datatype Status = NotStarted | Started | Complete | Failed

  // `request` says whether a send or receive has a request that can complete.
  datatype Entry = Entry(kind: Kind, status: Status, isBarrier: bool, request: bool)

  predicate Done(e: Entry) {
    e.status == Complete || e.status == Failed   // the source compares status >= COMPLETE
  }

  // History of a run: an entry began, an entry ended.
  datatype Event = Began(i: nat) | Ended(i: nat)

  datatype Sched = Sched(entries: seq<Entry>, idx: nat, err: bool, log: seq<Event>)

  // What the world decides during one call of the engine: which requests are complete, which
  // operations fail to start, which receives that fail to start have got no request, and which
  // messages arrive with an error status.
  datatype World = World(ready: nat -> bool, fails: nat -> bool, bare: nat -> bool, garbled: nat -> bool)

  datatype Outcome = Outcome(s: Sched, aborted: bool)

  // ---- Building a schedule ----

  function Add(s: Sched, kind: Kind): Sched {
    s.(entries := s.entries + [Entry(kind, NotStarted, false, false)])
  }

  // MPIDU_Sched_barrier marks the previous entry, if there is one.
  function Barrier(s: Sched): Sched {
    if s.entries == [] then s
    else
      var last := |s.entries| - 1;
      s.(entries := s.entries[last := s.entries[last].(isBarrier := true)])
  }

  // MPIR_SCHED_CHKPMEM_COMMIT pops the stack of allocated buffers into callbacks behind a barrier.
  function Commit(s: Sched, stack: seq<Buffer>): Sched {
    FreeAll(Barrier(s), stack)
  }

  function FreeAll(s: Sched, stack: seq<Buffer>): Sched
    decreases |stack|
  {
    if stack == [] then s
    else FreeAll(Add(s, FreeBuffer(stack[|stack| - 1])), stack[..|stack| - 1])
  }

  // ---- The engine ----

  function Begin(s: Sched, i: nat, request: bool): (r: Sched)
    requires i < |s.entries|
    ensures |r.entries| == |s.entries|
  {
    s.(entries := s.entries[i := s.entries[i].(status := Started, request := request)], log := s.log + [Began(i)])
  }

  function End(s: Sched, i: nat, status: Status, err: bool): (r: Sched)
    requires i < |s.entries|
    ensures |r.entries| == |s.entries|
  {
    s.(entries := s.entries[i := s.entries[i].(status := status, request := false)], err := err,
       log := s.log + [Ended(i)])
  }

  // MPIDU_Sched_start_entry. A receive that fails to start counts as started, with or without a
  // request.
  function StartEntry(s: Sched, i: nat, fails: bool, bare: bool): Outcome
    requires i < |s.entries|
  {
    match s.entries[i].kind
    case Send =>
      Outcome(if fails then End(Begin(s, i, false), i, Failed, true) else Begin(s, i, true), false)
    case Recv => Outcome(Begin(s, i, !(fails && bare)).(err := s.err || fails), false)
    case Local => Outcome(End(Begin(s, i, false), i, if fails then Failed else Complete, s.err), fails)
    case Callback =>
      Outcome(End(Begin(s, i, false), i, if fails then Failed else Complete, s.err || fails), false)
    case FreeBuffer(_) => Outcome(End(Begin(s, i, false), i, Complete, s.err), false)
  }

  function Advance(s: Sched, i: nat): Sched
    requires i < |s.entries|
  {
    if i == s.idx && Done(s.entries[i]) then s.(idx := s.idx + 1) else s
  }

  // One turn of the loop of MPIDU_Sched_continue, and whether the loop stops after it.
  function Turn(s: Sched, i: nat, w: World): (r: Outcome)
    requires i < |s.entries|
    ensures |r.s.entries| == |s.entries|
  {
    var o := if s.entries[i].status == NotStarted then StartEntry(s, i, w.fails(i), w.bare(i)) else Outcome(s, false);
    if o.aborted then o else Outcome(Advance(o.s, i), false)
  }

  predicate Halts(s: Sched, i: nat)
    requires i < |s.entries|
  {
    s.entries[i].isBarrier && (!Done(s.entries[i]) || s.idx != i + 1)
  }

  function ContinueFrom(s: Sched, i: nat, w: World): (r: Outcome)
    ensures |r.s.entries| == |s.entries|
    decreases |s.entries| - i
  {
    if i >= |s.entries| then Outcome(s, false)
    else
      var o := Turn(s, i, w);
      if o.aborted || Halts(o.s, i) then o else ContinueFrom(o.s, i + 1, w)
  }

  // A request of the entry that is found complete.
  function Test(s: Sched, i: nat, w: World): (r: Sched)
    requires i < |s.entries|
    ensures |r.entries| == |s.entries|
  {
    var e := s.entries[i];
    if e.status == Started && e.request && w.ready(i) then
      var err := s.err || (e.kind == Recv && w.garbled(i));
      End(s, i, if err then Failed else Complete, err)
    else
      s
  }

  // One turn of the loop of MPIDU_Sched_progress_state over a schedule: passing a barrier starts
  // the next round.
  function Visit(s: Sched, i: nat, w: World): (r: Outcome)
    requires i < |s.entries|
    ensures |r.s.entries| == |s.entries|
  {
    var c := Test(s, i, w);
    var t := Advance(c, i);
    if t.idx != c.idx && t.entries[i].isBarrier then ContinueFrom(t, t.idx, w) else Outcome(t, false)
  }

  predicate Blocks(s: Sched, i: nat)
    requires i < |s.entries|
  {
    s.entries[i].isBarrier && !Done(s.entries[i])
  }

  function ProgressFrom(s: Sched, i: nat, w: World): (r: Outcome)
    ensures |r.s.entries| == |s.entries|
    decreases |s.entries| - i
  {
    if i >= |s.entries| then Outcome(s, false)
    else
      var o := Visit(s, i, w);
      if o.aborted || Blocks(Test(s, i, w), i) then o else ProgressFrom(o.s, i + 1, w)
  }

  // MPIDU_Sched_start and one pass of the progress engine
  function Start(s: Sched, w: World): Outcome {
    ContinueFrom(s, s.idx, w)
  }

  function Poll(s: Sched, w: World): Outcome {
    ProgressFrom(s, s.idx, w)
  }

  // Passes of the progress engine. A pass that aborts on a failed local operation leaves the
  // schedule in the list, so polling goes on.
  function Polls(s: Sched, polls: seq<World>): Sched {
    if polls == [] then s else Poll(Polls(s, polls[..|polls| - 1]), polls[|polls| - 1]).s
  }

  // A run: the schedule is started and then polled. If the start aborts, the schedule never enters
  // the list of the progress engine and no pass reaches it.
  function Run(s: Sched, first: World, polls: seq<World>): Sched {
    var o := Start(s, first);
    if o.aborted then o.s else Polls(o.s, polls)
  }
}
