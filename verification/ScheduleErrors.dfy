/**
 * What becomes of each entry of a schedule, and of its error flag, in terms of what the world
 * decides: which operations fail to start, which requests complete, which messages arrive garbled.
 */
module ScheduleErrors {
  import opened Schedule
  import opened ScheduleProofs

  predicate Begun(e: Entry) {
    e.status != NotStarted
  }

  // ---- The fate of an entry over a call of the engine ----

  // A request that is found complete makes its entry failed if the error flag was set before the
  // call, and complete if it is not set after it.
  predicate EndsRight(b: Entry, errBefore: bool, errAfter: bool) {
    Done(b) && (errBefore ==> b.status == Failed) && (!errAfter ==> b.status == Complete)
  }

  // What starting the entry makes of it.
  predicate StartsRight(a: Entry, b: Entry, w: World, j: nat, errBefore: bool, errAfter: bool) {
    match a.kind
    case Local => b.status == if w.fails(j) then Failed else Complete
    case Callback => b.status == if w.fails(j) then Failed else Complete
    case FreeBuffer(_) => b.status == Complete
    case Send =>
      if w.fails(j) then b.status == Failed
      else (b.status == Started && b.request) || (w.ready(j) && EndsRight(b, errBefore, errAfter))
    case Recv =>
      var bare := w.fails(j) && w.bare(j);
      (b.status == Started && b.request == !bare) || (!bare && w.ready(j) && EndsRight(b, errBefore, errAfter))
  }

  predicate Fate(a: Entry, b: Entry, w: World, j: nat, errBefore: bool, errAfter: bool) {
    && a.kind == b.kind && a.isBarrier == b.isBarrier
    && (|| b == a
        || (a.status == NotStarted && StartsRight(a, b, w, j, errBefore, errAfter))
        || (a.status == Started && a.request && w.ready(j) && EndsRight(b, errBefore, errAfter)))
  }

  lemma FateChain(a: Entry, m: Entry, b: Entry, w: World, j: nat, e0: bool, e1: bool, e2: bool)
    requires Fate(a, m, w, j, e0, e1) && Fate(m, b, w, j, e1, e2) && (e0 ==> e1) && (e1 ==> e2)
    ensures Fate(a, b, w, j, e0, e2)
  {
  }

  // ---- Faults: what sets the error flag ----

  /** Entry j failed to start, other than as a local operation or a free, or was a receive that
      completed garbled. */
  predicate FaultAt(a: seq<Entry>, b: seq<Entry>, w: World, j: nat) {
    && j < |a| == |b|
    && (|| (!Begun(a[j]) && Begun(b[j]) && a[j].kind != Local && !a[j].kind.FreeBuffer? && w.fails(j))
        || (a[j].kind == Recv && !Done(a[j]) && Done(b[j]) && w.garbled(j)))
  }

  ghost predicate SomeFault(a: seq<Entry>, b: seq<Entry>, w: World) {
    exists j: nat :: FaultAt(a, b, w, j)
  }

  /** From s to t every entry has its fate, and the flag is set exactly if it was or by a fault. */
  ghost predicate Follows(s: Sched, t: Sched, w: World) {
    && |s.entries| == |t.entries|
    && (forall j: nat :: j < |s.entries| ==> Fate(s.entries[j], t.entries[j], w, j, s.err, t.err))
    && (t.err <==> s.err || SomeFault(s.entries, t.entries, w))
  }

  lemma FaultChain(a: seq<Entry>, m: seq<Entry>, b: seq<Entry>, w: World, j: nat)
    requires |a| == |m| == |b| && j < |a| && a[j].kind == m[j].kind == b[j].kind
    requires Begun(a[j]) ==> Begun(m[j])
    requires Begun(m[j]) ==> Begun(b[j])
    requires Done(a[j]) ==> Done(m[j])
    requires Done(m[j]) ==> Done(b[j])
    ensures FaultAt(a, b, w, j) <==> FaultAt(a, m, w, j) || FaultAt(m, b, w, j)
  {
  }

  lemma FateGrows(a: Entry, b: Entry, w: World, j: nat, e0: bool, e1: bool)
    requires Fate(a, b, w, j, e0, e1)
    ensures a.kind == b.kind && (Begun(a) ==> Begun(b)) && (Done(a) ==> Done(b))
  {
  }

  lemma SomeFaultChain(s: Sched, m: Sched, t: Sched, w: World)
    requires Follows(s, m, w) && Follows(m, t, w)
    ensures SomeFault(s.entries, t.entries, w) <==> SomeFault(s.entries, m.entries, w) || SomeFault(m.entries, t.entries, w)
  {
    forall j: nat | j < |s.entries|
      ensures FaultAt(s.entries, t.entries, w, j) <==> FaultAt(s.entries, m.entries, w, j) || FaultAt(m.entries, t.entries, w, j)
    {
      FateGrows(s.entries[j], m.entries[j], w, j, s.err, m.err);
      FateGrows(m.entries[j], t.entries[j], w, j, m.err, t.err);
      FaultChain(s.entries, m.entries, t.entries, w, j);
    }
  }

  lemma FollowsChain(s: Sched, m: Sched, t: Sched, w: World)
    requires Follows(s, m, w) && Follows(m, t, w)
    ensures Follows(s, t, w)
  {
    SomeFaultChain(s, m, t, w);
    forall j: nat | j < |s.entries|
      ensures Fate(s.entries[j], t.entries[j], w, j, s.err, t.err)
    {
      FateChain(s.entries[j], m.entries[j], t.entries[j], w, j, s.err, m.err, t.err);
    }
  }

  lemma FollowsSame(s: Sched, t: Sched, w: World)
    requires t.entries == s.entries && t.err == s.err
    ensures Follows(s, t, w)
  {
  }

  // One entry changed.
  lemma FollowsOne(s: Sched, t: Sched, w: World, i: nat)
    requires i < |s.entries| == |t.entries| && t.entries == s.entries[i := t.entries[i]]
    requires Fate(s.entries[i], t.entries[i], w, i, s.err, t.err)
    requires t.err <==> s.err || FaultAt(s.entries, t.entries, w, i)
    ensures Follows(s, t, w)
  {
    forall j: nat | j < |s.entries| && j != i
      ensures !FaultAt(s.entries, t.entries, w, j)
    {
      assert t.entries[j] == s.entries[j];
    }
    if FaultAt(s.entries, t.entries, w, i) {
      assert SomeFault(s.entries, t.entries, w);
    }
  }

  // ---- The calls ----

  lemma StartFollows(s: Sched, i: nat, w: World)
    requires i < |s.entries| && s.entries[i].status == NotStarted
    ensures Follows(s, StartEntry(s, i, w.fails(i), w.bare(i)).s, w)
  {
    FollowsOne(s, StartEntry(s, i, w.fails(i), w.bare(i)).s, w, i);
  }

  lemma TurnFollows(s: Sched, i: nat, w: World)
    requires i < |s.entries|
    ensures Follows(s, Turn(s, i, w).s, w)
  {
    var o := if s.entries[i].status == NotStarted then StartEntry(s, i, w.fails(i), w.bare(i)) else Outcome(s, false);
    if s.entries[i].status == NotStarted {
      StartFollows(s, i, w);
    } else {
      FollowsSame(s, s, w);
    }
    FollowsSame(o.s, Turn(s, i, w).s, w);
    FollowsChain(s, o.s, Turn(s, i, w).s, w);
  }

  lemma {:induction false} ContinueFollows(s: Sched, i: nat, w: World)
    ensures Follows(s, ContinueFrom(s, i, w).s, w)
    decreases |s.entries| - i
  {
    if i >= |s.entries| {
      FollowsSame(s, s, w);
    } else {
      TurnFollows(s, i, w);
      var o := Turn(s, i, w);
      if !o.aborted && !Halts(o.s, i) {
        ContinueFollows(o.s, i + 1, w);
        FollowsChain(s, o.s, ContinueFrom(s, i, w).s, w);
      }
    }
  }

  lemma TestFollows(s: Sched, i: nat, w: World)
    requires i < |s.entries|
    ensures Follows(s, Test(s, i, w), w)
  {
    if s.entries[i].status == Started && s.entries[i].request && w.ready(i) {
      FollowsOne(s, Test(s, i, w), w, i);
    } else {
      FollowsSame(s, s, w);
    }
  }

  lemma VisitFollows(s: Sched, i: nat, w: World)
    requires i < |s.entries|
    ensures Follows(s, Visit(s, i, w).s, w)
  {
    var c := Test(s, i, w);
    var t := Advance(c, i);
    TestFollows(s, i, w);
    FollowsSame(c, t, w);
    FollowsChain(s, c, t, w);
    ContinueFollows(t, t.idx, w);
    FollowsChain(s, t, ContinueFrom(t, t.idx, w).s, w);
  }

  lemma {:induction false} ProgressFollows(s: Sched, i: nat, w: World)
    ensures Follows(s, ProgressFrom(s, i, w).s, w)
    decreases |s.entries| - i
  {
    if i >= |s.entries| {
      FollowsSame(s, s, w);
    } else {
      VisitFollows(s, i, w);
      var o := Visit(s, i, w);
      if !o.aborted && !Blocks(Test(s, i, w), i) {
        ProgressFollows(o.s, i + 1, w);
        FollowsChain(s, o.s, ProgressFrom(s, i, w).s, w);
      }
    }
  }

  /** Every call of the engine, at the start or in a pass, gives each entry the fate that the world
      decides, and sets the error flag exactly by a fault. */
  lemma CallsFollow(s: Sched, w: World)
    ensures Follows(s, Start(s, w).s, w) && Follows(s, Poll(s, w).s, w)
  {
    ContinueFollows(s, s.idx, w);
    ProgressFollows(s, s.idx, w);
  }

  // ---- Runs ----

  ghost predicate PollsFault(s: Sched, polls: seq<World>) {
    polls != [] &&
    var init := polls[..|polls| - 1];
    PollsFault(s, init) || SomeFault(Polls(s, init).entries, Polls(s, polls).entries, polls[|polls| - 1])
  }

  // Some call of the run had a fault.
  ghost predicate HadFault(s: Sched, first: World, polls: seq<World>) {
    var o := Start(s, first);
    SomeFault(s.entries, o.s.entries, first) || (!o.aborted && PollsFault(o.s, polls))
  }

  lemma {:induction false} PollsErrIff(s: Sched, polls: seq<World>)
    ensures Polls(s, polls).err <==> s.err || PollsFault(s, polls)
  {
    if polls != [] {
      PollsErrIff(s, polls[..|polls| - 1]);
      CallsFollow(Polls(s, polls[..|polls| - 1]), polls[|polls| - 1]);
    }
  }

  /** In every run the error flag is set if and only if some entry other than a local operation
      failed to start, or some receive completed garbled. */
  lemma ErrorIff(s: Sched, first: World, polls: seq<World>)
    requires !s.err
    ensures Run(s, first, polls).err <==> HadFault(s, first, polls)
  {
    CallsFollow(s, first);
    var o := Start(s, first);
    if !o.aborted {
      PollsErrIff(o.s, polls);
    }
  }

  // ---- Nothing fails ----

  ghost predicate Quiet(w: World) {
    forall j: nat :: !w.fails(j) && !w.garbled(j)
  }

  predicate AllWell(s: Sched) {
    !s.err && forall j :: 0 <= j < |s.entries| ==> s.entries[j].status != Failed
  }

  lemma QuietCall(s: Sched, t: Sched, w: World)
    requires Follows(s, t, w) && Quiet(w) && AllWell(s)
    ensures AllWell(t)
  {
    forall j: nat
      ensures !FaultAt(s.entries, t.entries, w, j)
    {
    }
    forall j: nat | j < |t.entries|
      ensures t.entries[j].status != Failed
    {
      assert Fate(s.entries[j], t.entries[j], w, j, s.err, t.err);
    }
  }

  lemma {:induction false} QuietPolls(s: Sched, polls: seq<World>)
    requires AllWell(s) && forall w <- polls :: Quiet(w)
    ensures AllWell(Polls(s, polls))
  {
    if polls != [] {
      var init := polls[..|polls| - 1];
      QuietPolls(s, init);
      CallsFollow(Polls(s, init), polls[|polls| - 1]);
      QuietCall(Polls(s, init), Polls(s, polls), polls[|polls| - 1]);
    }
  }

  /** If nothing fails and nothing arrives garbled, no run reports an error and every entry that
      has ended is complete. */
  lemma QuietRunSucceeds(s: Sched, first: World, polls: seq<World>)
    requires Unstarted(s) && !s.err && Quiet(first) && forall w <- polls :: Quiet(w)
    ensures var t := Run(s, first, polls);
      && !t.err && !Start(s, first).aborted
      && forall j :: 0 <= j < |t.entries| && Done(t.entries[j]) ==> t.entries[j].status == Complete
  {
    CallsFollow(s, first);
    var o := Start(s, first);
    QuietCall(s, o.s, first);
    if o.aborted {
      AbortedStartStays(s, first);
    } else {
      QuietPolls(o.s, polls);
    }
  }
}
