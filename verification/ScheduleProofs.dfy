/**
 * What the schedule engine guarantees: entries respect barriers in every run, begin and end at most
 * once, and no failure goes unreported; and exactly which schedules finish. Two things are fatal: a
 * local operation that fails, in the first round or in the wrong place of a later one, and a
 * receive that fails to start without a request.
 */
module ScheduleProofs {
  import opened Schedule

  // ---- What holds in every state of a run ----

  function Occurs(log: seq<Event>, e: Event): nat {
    if log == [] then 0
    else Occurs(log[..|log| - 1], e) + if log[|log| - 1] == e then 1 else 0
  }

  // No entry began before every entry up to an earlier barrier had ended.
  predicate Ordered(entries: seq<Entry>, log: seq<Event>) {
    log != [] ==>
      var before := log[..|log| - 1];
      && Ordered(entries, before)
      && match log[|log| - 1]
         case Began(j) =>
           forall i: nat, b: nat :: i <= b < j && b < |entries| && entries[b].isBarrier ==> Occurs(before, Ended(i)) >= 1
         case Ended(_) => true
  }

  ghost predicate LogMatches(entries: seq<Entry>, log: seq<Event>) {
    && (forall i: nat :: Occurs(log, Began(i)) == if i < |entries| && entries[i].status != NotStarted then 1 else 0)
    && (forall i: nat :: Occurs(log, Ended(i)) == if i < |entries| && Done(entries[i]) then 1 else 0)
  }

  // Entries before `idx` are done, entries are started in order, and every barrier before a
  // started entry has been passed.
  predicate Front(entries: seq<Entry>, idx: nat) {
    && idx <= |entries|
    && (forall i :: 0 <= i < idx ==> Done(entries[i]))
    && (forall i, j :: 0 <= i < j < |entries| && entries[i].status == NotStarted ==> entries[j].status == NotStarted)
    && (forall b, i :: 0 <= b < i < |entries| && entries[b].isBarrier && entries[i].status != NotStarted ==> b < idx)
  }

  ghost predicate Inv(s: Sched) {
    Front(s.entries, s.idx) && LogMatches(s.entries, s.log) && Ordered(s.entries, s.log)
  }

  // The engine never changes what an entry is or where the barriers are.
  predicate SamePlan(a: seq<Entry>, b: seq<Entry>) {
    |a| == |b| && forall i :: 0 <= i < |a| ==> a[i].kind == b[i].kind && a[i].isBarrier == b[i].isBarrier
  }

  lemma {:induction false} OrderedSamePlan(a: seq<Entry>, b: seq<Entry>, log: seq<Event>)
    requires SamePlan(a, b) && Ordered(a, log)
    ensures Ordered(b, log)
  {
    if log != [] {
      OrderedSamePlan(a, b, log[..|log| - 1]);
    }
  }

  lemma OccursSnoc(log: seq<Event>, e: Event, x: Event)
    ensures Occurs(log + [e], x) == Occurs(log, x) + if e == x then 1 else 0
  {
    assert (log + [e])[..|log|] == log;
  }

  // Entry i may begin: it is the next one, and every barrier before it has been passed.
  predicate MayBegin(s: Sched, i: nat) {
    && i < |s.entries| && s.entries[i].status == NotStarted
    && (forall j :: 0 <= j < i ==> s.entries[j].status != NotStarted)
    && (forall b :: 0 <= b < i && s.entries[b].isBarrier ==> b < s.idx)
  }

  lemma BeginOrdered(s: Sched, i: nat, request: bool)
    requires Inv(s) && MayBegin(s, i)
    ensures Ordered(Begin(s, i, request).entries, Begin(s, i, request).log)
  {
    var t := Begin(s, i, request);
    assert t.log[..|t.log| - 1] == s.log;
    OrderedSamePlan(s.entries, t.entries, s.log);
    forall k: nat, b: nat | k <= b < i && b < |t.entries| && t.entries[b].isBarrier
      ensures Occurs(s.log, Ended(k)) >= 1
    {
      assert Done(s.entries[k]);
    }
  }

  lemma BeginKeeps(s: Sched, i: nat, request: bool)
    requires Inv(s) && MayBegin(s, i)
    ensures Inv(Begin(s, i, request)) && SamePlan(s.entries, Begin(s, i, request).entries)
  {
    BeginOrdered(s, i, request);
    forall x { OccursSnoc(s.log, Began(i), x); }
  }

  lemma EndKeeps(s: Sched, i: nat, status: Status, err: bool)
    requires Inv(s) && i < |s.entries| && s.entries[i].status == Started && (status == Complete || status == Failed)
    ensures Inv(End(s, i, status, err)) && SamePlan(s.entries, End(s, i, status, err).entries)
  {
    var t := End(s, i, status, err);
    assert t.log[..|t.log| - 1] == s.log;
    OrderedSamePlan(s.entries, t.entries, s.log);
    forall x { OccursSnoc(s.log, Ended(i), x); }
  }

  lemma StartLocalKeeps(s: Sched, i: nat, status: Status, err: bool)
    requires Inv(s) && MayBegin(s, i) && (status == Complete || status == Failed)
    ensures var t := End(Begin(s, i, false), i, status, err);
      Inv(t) && SamePlan(s.entries, t.entries)
  {
    BeginKeeps(s, i, false);
    EndKeeps(Begin(s, i, false), i, status, err);
  }

  lemma BeginErrKeeps(s: Sched, i: nat, request: bool, err: bool)
    requires Inv(s) && MayBegin(s, i)
    ensures Inv(Begin(s, i, request).(err := err))
  {
    BeginKeeps(s, i, request);
  }

  lemma StartInv(s: Sched, i: nat, fails: bool, bare: bool)
    requires Inv(s) && MayBegin(s, i)
    ensures Inv(StartEntry(s, i, fails, bare).s)
  {
    match s.entries[i].kind {
      case Send =>
        BeginKeeps(s, i, true);
        StartLocalKeeps(s, i, Failed, true);
      case Recv => BeginErrKeeps(s, i, !(fails && bare), s.err || fails);
      case Local => StartLocalKeeps(s, i, if fails then Failed else Complete, s.err);
      case Callback => StartLocalKeeps(s, i, if fails then Failed else Complete, s.err || fails);
      case FreeBuffer(_) => StartLocalKeeps(s, i, Complete, s.err);
    }
  }

  lemma StartFrame(s: Sched, i: nat, fails: bool, bare: bool)
    requires i < |s.entries|
    ensures var t := StartEntry(s, i, fails, bare).s;
      && SamePlan(s.entries, t.entries) && t.idx == s.idx
      && t.entries == s.entries[i := t.entries[i]] && t.entries[i].status != NotStarted
  {
  }

  lemma StartKeeps(s: Sched, i: nat, fails: bool, bare: bool)
    requires Inv(s) && MayBegin(s, i)
    ensures var t := StartEntry(s, i, fails, bare).s;
      && Inv(t) && SamePlan(s.entries, t.entries) && t.idx == s.idx
      && t.entries == s.entries[i := t.entries[i]] && t.entries[i].status != NotStarted
  {
    StartInv(s, i, fails, bare);
    StartFrame(s, i, fails, bare);
  }

  lemma AdvanceKeeps(s: Sched, i: nat)
    requires Inv(s) && i < |s.entries|
    ensures Inv(Advance(s, i))
  {
  }

  // ---- Continue ----

  // Some barrier lies in the range from a up to b.
  predicate BarrierIn(entries: seq<Entry>, a: nat, b: nat) {
    exists k :: a <= k < b && k < |entries| && entries[k].isBarrier
  }

  // Whatever has not been started waits behind a barrier that has not been passed.
  predicate Fed(s: Sched) {
    forall j: nat :: s.idx <= j < |s.entries| && s.entries[j].status == NotStarted ==> BarrierIn(s.entries, s.idx, j)
  }

  // The head of the loop of MPIDU_Sched_continue.
  predicate ContinueHead(s: Sched, i: nat) {
    && s.idx <= i <= |s.entries|
    && (forall j :: 0 <= j < i ==> s.entries[j].status != NotStarted)
    && (forall b :: 0 <= b < i && s.entries[b].isBarrier ==> b < s.idx)
  }

  lemma TurnKeeps(s: Sched, i: nat, w: World)
    requires Inv(s) && ContinueHead(s, i) && i < |s.entries|
    ensures var o := Turn(s, i, w);
      && Inv(o.s) && SamePlan(s.entries, o.s.entries) && s.idx <= o.s.idx <= i + 1
      && (forall j :: 0 <= j <= i ==> o.s.entries[j].status != NotStarted)
  {
    var pending := s.entries[i].status == NotStarted;
    if pending {
      StartKeeps(s, i, w.fails(i), w.bare(i));
    }
    var o := if pending then StartEntry(s, i, w.fails(i), w.bare(i)) else Outcome(s, false);
    AdvanceKeeps(o.s, i);
  }

  lemma HaltsFed(s: Sched, i: nat)
    requires i < |s.entries| && s.idx <= i + 1 && Halts(s, i) && Inv(s)
    requires forall j :: 0 <= j <= i ==> s.entries[j].status != NotStarted
    ensures Fed(s)
  {
    assert s.idx <= i;
  }

  lemma TurnHead(s: Sched, i: nat, w: World)
    requires Inv(s) && ContinueHead(s, i) && i < |s.entries|
    requires !Turn(s, i, w).aborted && !Halts(Turn(s, i, w).s, i)
    ensures ContinueHead(Turn(s, i, w).s, i + 1)
  {
    TurnKeeps(s, i, w);
  }

  lemma SamePlanChain(a: seq<Entry>, b: seq<Entry>, c: seq<Entry>)
    requires SamePlan(a, b) && SamePlan(b, c)
    ensures SamePlan(a, c)
  {
  }

  lemma {:induction false} ContinueKeeps(s: Sched, i: nat, w: World)
    requires Inv(s) && ContinueHead(s, i)
    ensures var o := ContinueFrom(s, i, w);
      Inv(o.s) && SamePlan(s.entries, o.s.entries) && o.s.idx >= s.idx
    decreases |s.entries| - i
  {
    if i < |s.entries| {
      TurnKeeps(s, i, w);
      var o := Turn(s, i, w);
      if !o.aborted && !Halts(o.s, i) {
        TurnHead(s, i, w);
        ContinueKeeps(o.s, i + 1, w);
        SamePlanChain(s.entries, o.s.entries, ContinueFrom(s, i, w).s.entries);
      }
    }
  }

  lemma AllBegunFed(s: Sched, i: nat)
    requires ContinueHead(s, i) && i >= |s.entries|
    ensures Fed(s)
  {
  }

  lemma {:induction false} ContinueFeeds(s: Sched, i: nat, w: World)
    requires Inv(s) && ContinueHead(s, i) && !ContinueFrom(s, i, w).aborted
    ensures Fed(ContinueFrom(s, i, w).s)
    decreases |s.entries| - i
  {
    if i >= |s.entries| {
      AllBegunFed(s, i);
    } else {
      TurnKeeps(s, i, w);
      var o := Turn(s, i, w);
      if Halts(o.s, i) {
        HaltsFed(o.s, i);
      } else {
        TurnHead(s, i, w);
        ContinueFeeds(o.s, i + 1, w);
      }
    }
  }

  // ---- Progress ----

  lemma TestKeeps(s: Sched, i: nat, w: World)
    requires Inv(s) && i < |s.entries|
    ensures var t := Test(s, i, w);
      && Inv(t) && SamePlan(s.entries, t.entries) && t.idx == s.idx
      && (forall j :: 0 <= j < |s.entries| ==> (t.entries[j].status == NotStarted <==> s.entries[j].status == NotStarted))
  {
    if s.entries[i].status == Started {
      EndKeeps(s, i, Failed, true);
      EndKeeps(s, i, Failed, s.err);
      EndKeeps(s, i, Complete, s.err);
    }
  }

  lemma AdvanceFed(s: Sched, i: nat)
    requires Fed(s) && i < |s.entries| && !s.entries[i].isBarrier
    ensures Fed(Advance(s, i))
  {
    var t := Advance(s, i);
    forall j: nat | t.idx <= j < |t.entries| && t.entries[j].status == NotStarted
      ensures BarrierIn(t.entries, t.idx, j)
    {
      assert BarrierIn(s.entries, s.idx, j);
    }
  }

  lemma TestFed(s: Sched, i: nat, w: World)
    requires Inv(s) && Fed(s) && i < |s.entries|
    ensures Fed(Test(s, i, w))
  {
    TestKeeps(s, i, w);
    var t := Test(s, i, w);
    forall j: nat | t.idx <= j < |t.entries| && t.entries[j].status == NotStarted
      ensures BarrierIn(t.entries, t.idx, j)
    {
      assert BarrierIn(s.entries, s.idx, j);
    }
  }

  lemma VisitKeeps(s: Sched, i: nat, w: World)
    requires Inv(s) && i < |s.entries|
    ensures var o := Visit(s, i, w);
      && Inv(o.s) && SamePlan(s.entries, o.s.entries) && o.s.idx >= s.idx
      && (Fed(s) && !o.aborted ==> Fed(o.s))
  {
    TestKeeps(s, i, w);
    var c := Test(s, i, w);
    AdvanceKeeps(c, i);
    var t := Advance(c, i);
    if t.idx != c.idx && t.entries[i].isBarrier {
      ContinueKeeps(t, t.idx, w);
      if !Visit(s, i, w).aborted {
        ContinueFeeds(t, t.idx, w);
      }
    } else if Fed(s) {
      TestFed(s, i, w);
      if t.idx != c.idx {
        AdvanceFed(c, i);
      }
    }
  }

  lemma {:induction false} ProgressKeeps(s: Sched, i: nat, w: World)
    requires Inv(s)
    ensures var o := ProgressFrom(s, i, w);
      && Inv(o.s) && SamePlan(s.entries, o.s.entries) && o.s.idx >= s.idx
      && (Fed(s) && !o.aborted ==> Fed(o.s))
    decreases |s.entries| - i
  {
    if i < |s.entries| {
      VisitKeeps(s, i, w);
      var o := Visit(s, i, w);
      if !o.aborted && !Blocks(Test(s, i, w), i) {
        ProgressKeeps(o.s, i + 1, w);
      }
    }
  }

  // ---- Runs ----

  // A schedule as it was built: nothing started.
  predicate Unstarted(s: Sched) {
    s.idx == 0 && s.log == [] && forall i :: 0 <= i < |s.entries| ==> s.entries[i].status == NotStarted
  }

  lemma {:induction false} PollsKeep(s: Sched, polls: seq<World>)
    requires Inv(s)
    ensures Inv(Polls(s, polls)) && SamePlan(s.entries, Polls(s, polls).entries)
  {
    if polls != [] {
      var init := Polls(s, polls[..|polls| - 1]);
      PollsKeep(s, polls[..|polls| - 1]);
      ProgressKeeps(init, init.idx, polls[|polls| - 1]);
      SamePlanChain(s.entries, init.entries, Polls(s, polls).entries);
    }
  }

  lemma {:induction false} PollsAppend(s: Sched, polls: seq<World>, more: seq<World>)
    ensures Polls(s, polls + more) == Polls(Polls(s, polls), more)
  {
    if more == [] {
      assert polls + more == polls;
    } else {
      PollsAppend(s, polls, more[..|more| - 1]);
      assert (polls + more)[..|polls + more| - 1] == polls + more[..|more| - 1];
    }
  }

  lemma UnstartedHead(s: Sched)
    requires Unstarted(s)
    ensures Inv(s) && ContinueHead(s, 0)
  {
  }

  lemma StartRoundKeeps(s: Sched, first: World)
    requires Unstarted(s)
    ensures Inv(Start(s, first).s) && SamePlan(s.entries, Start(s, first).s.entries)
    ensures !Start(s, first).aborted ==> Fed(Start(s, first).s)
  {
    UnstartedHead(s);
    ContinueKeeps(s, 0, first);
    if !Start(s, first).aborted {
      ContinueFeeds(s, 0, first);
    }
  }

  lemma RunKeeps(s: Sched, first: World, polls: seq<World>)
    requires Unstarted(s)
    ensures Inv(Run(s, first, polls)) && SamePlan(s.entries, Run(s, first, polls).entries)
  {
    StartRoundKeeps(s, first);
    var o := Start(s, first);
    if !o.aborted {
      PollsKeep(o.s, polls);
      SamePlanChain(s.entries, o.s.entries, Polls(o.s, polls).entries);
    }
  }

  lemma {:induction false} OrderedAt(entries: seq<Entry>, log: seq<Event>, q: nat, i: nat, b: nat, j: nat)
    requires Ordered(entries, log) && q < |log| && log[q] == Began(j)
    requires i <= b < j && b < |entries| && entries[b].isBarrier
    ensures Occurs(log[..q], Ended(i)) >= 1
  {
    var before := log[..|log| - 1];
    if q < |before| {
      OrderedAt(entries, before, q, i, b, j);
      assert before[..q] == log[..q];
    }
  }

  /** In every run, whenever an entry behind a barrier begins, every entry up to that barrier
      has ended before. */
  lemma BarriersHold(s: Sched, first: World, polls: seq<World>, q: nat, i: nat, b: nat, j: nat)
    requires Unstarted(s) && q < |Run(s, first, polls).log| && Run(s, first, polls).log[q] == Began(j)
    requires i <= b < j && b < |s.entries| && s.entries[b].isBarrier
    ensures Occurs(Run(s, first, polls).log[..q], Ended(i)) >= 1
  {
    RunKeeps(s, first, polls);
    var t := Run(s, first, polls);
    OrderedAt(t.entries, t.log, q, i, b, j);
  }

  /** In every run an entry begins and ends at most once, and exactly once if the schedule has
      finished. */
  lemma EntriesRunOnce(s: Sched, first: World, polls: seq<World>, i: nat)
    requires Unstarted(s) && i < |s.entries|
    ensures var t := Run(s, first, polls);
      && |t.entries| == |s.entries|
      && Occurs(t.log, Ended(i)) <= Occurs(t.log, Began(i)) <= 1
      && (t.idx == |t.entries| ==> Occurs(t.log, Ended(i)) == 1)
  {
    RunKeeps(s, first, polls);
  }

  // ---- Errors ----

  // Every failed entry has set the error flag, except local operations, which abort the call.
  predicate ErrorsShown(s: Sched) {
    forall i :: 0 <= i < |s.entries| && s.entries[i].status == Failed && s.entries[i].kind != Local ==> s.err
  }

  lemma TurnErrors(s: Sched, i: nat, w: World)
    requires ErrorsShown(s) && i < |s.entries|
    ensures ErrorsShown(Turn(s, i, w).s) && (s.err ==> Turn(s, i, w).s.err)
  {
  }

  lemma {:induction false} ContinueErrors(s: Sched, i: nat, w: World)
    requires ErrorsShown(s)
    ensures ErrorsShown(ContinueFrom(s, i, w).s) && (s.err ==> ContinueFrom(s, i, w).s.err)
    decreases |s.entries| - i
  {
    if i < |s.entries| {
      TurnErrors(s, i, w);
      var o := Turn(s, i, w);
      if !o.aborted && !Halts(o.s, i) {
        ContinueErrors(o.s, i + 1, w);
      }
    }
  }

  lemma {:induction false} ProgressErrors(s: Sched, i: nat, w: World)
    requires ErrorsShown(s)
    ensures ErrorsShown(ProgressFrom(s, i, w).s) && (s.err ==> ProgressFrom(s, i, w).s.err)
    decreases |s.entries| - i
  {
    if i < |s.entries| {
      var t := Advance(Test(s, i, w), i);
      ContinueErrors(t, t.idx, w);
      var o := Visit(s, i, w);
      if !o.aborted && !Blocks(Test(s, i, w), i) {
        ProgressErrors(o.s, i + 1, w);
      }
    }
  }

  lemma {:induction false} PollsErrors(s: Sched, polls: seq<World>)
    requires ErrorsShown(s)
    ensures ErrorsShown(Polls(s, polls)) && (s.err ==> Polls(s, polls).err)
  {
    if polls != [] {
      var init := Polls(s, polls[..|polls| - 1]);
      PollsErrors(s, polls[..|polls| - 1]);
      ProgressErrors(init, init.idx, polls[|polls| - 1]);
    }
  }

  /** No failure is lost: after any run the error flag is set if any entry other than a local
      operation has failed, and once set it stays set. */
  lemma FailuresAreReported(s: Sched, first: World, polls: seq<World>, more: seq<World>)
    requires Unstarted(s)
    ensures var t := Run(s, first, polls);
      ErrorsShown(t) && (t.err ==> Run(s, first, polls + more).err)
  {
    ContinueErrors(s, 0, first);
    var o := Start(s, first);
    if !o.aborted {
      PollsErrors(o.s, polls);
      PollsErrors(Polls(o.s, polls), more);
      PollsAppend(o.s, polls, more);
    }
  }

  // ---- Finishing ----

  lemma FedEntryBegan(s: Sched)
    requires Fed(s) && s.idx < |s.entries|
    ensures s.entries[s.idx].status != NotStarted
  {
    assert !BarrierIn(s.entries, s.idx, s.idx);
  }

  /** A started entry without a request: no pass will ever find it complete. */
  predicate Orphan(s: Sched, j: nat) {
    j < |s.entries| && s.entries[j].status == Started && !s.entries[j].request
  }

  lemma TurnOrphan(s: Sched, i: nat, w: World, j: nat)
    requires Orphan(s, j) && i < |s.entries|
    ensures Orphan(Turn(s, i, w).s, j)
  {
  }

  lemma {:induction false} ContinueOrphan(s: Sched, i: nat, w: World, j: nat)
    requires Orphan(s, j)
    ensures Orphan(ContinueFrom(s, i, w).s, j)
    decreases |s.entries| - i
  {
    if i < |s.entries| {
      TurnOrphan(s, i, w, j);
      var o := Turn(s, i, w);
      if !o.aborted && !Halts(o.s, i) {
        ContinueOrphan(o.s, i + 1, w, j);
      }
    }
  }

  lemma VisitOrphan(s: Sched, i: nat, w: World, j: nat)
    requires Orphan(s, j) && i < |s.entries|
    ensures Orphan(Visit(s, i, w).s, j)
  {
    var t := Advance(Test(s, i, w), i);
    assert Orphan(t, j);
    ContinueOrphan(t, t.idx, w, j);
  }

  lemma {:induction false} ProgressOrphan(s: Sched, i: nat, w: World, j: nat)
    requires Orphan(s, j)
    ensures Orphan(ProgressFrom(s, i, w).s, j)
    decreases |s.entries| - i
  {
    if i < |s.entries| {
      VisitOrphan(s, i, w, j);
      var o := Visit(s, i, w);
      if !o.aborted && !Blocks(Test(s, i, w), i) {
        ProgressOrphan(o.s, i + 1, w, j);
      }
    }
  }

  lemma {:induction false} PollsOrphan(s: Sched, polls: seq<World>, j: nat)
    requires Orphan(s, j)
    ensures Orphan(Polls(s, polls), j)
  {
    if polls != [] {
      var init := Polls(s, polls[..|polls| - 1]);
      PollsOrphan(s, polls[..|polls| - 1], j);
      ProgressOrphan(init, init.idx, polls[|polls| - 1], j);
    }
  }

  lemma VisitPasses(s: Sched, i: nat, w: World)
    requires Inv(s) && Fed(s) && i < |s.entries| && i <= s.idx && w.ready(i) && !Orphan(s, i)
    ensures Done(Test(s, i, w).entries[i])
    ensures !Visit(s, i, w).aborted ==> Visit(s, i, w).s.idx > i
  {
    TestKeeps(s, i, w);
    var c := Test(s, i, w);
    if i == s.idx {
      FedEntryBegan(s);
    }
    var t := Advance(c, i);
    assert t.idx > i;
    if t.idx != c.idx && t.entries[i].isBarrier {
      AdvanceKeeps(c, i);
      ContinueKeeps(t, t.idx, w);
    }
  }

  ghost predicate AllReady(w: World) {
    forall k: nat :: w.ready(k)
  }

  // The head of the progress loop when every request is found complete.
  ghost predicate Ahead(s: Sched, i: nat) {
    Inv(s) && Fed(s) && i <= s.idx
  }

  lemma VisitAhead(s: Sched, i: nat, w: World)
    requires Ahead(s, i) && i < |s.entries| && w.ready(i) && !Orphan(s, i)
    ensures !Blocks(Test(s, i, w), i)
    ensures !Visit(s, i, w).aborted ==> Ahead(Visit(s, i, w).s, i + 1)
  {
    VisitPasses(s, i, w);
    VisitKeeps(s, i, w);
  }

  lemma AheadAtEnd(s: Sched, i: nat)
    requires Ahead(s, i) && i >= |s.entries|
    ensures s.idx == |s.entries|
  {
  }

  lemma {:induction false} ProgressFinishes(s: Sched, i: nat, w: World)
    requires Ahead(s, i) && AllReady(w)
    requires !ProgressFrom(s, i, w).aborted && forall j: nat :: !Orphan(ProgressFrom(s, i, w).s, j)
    ensures ProgressFrom(s, i, w).s.idx == |s.entries|
    decreases |s.entries| - i
  {
    if i >= |s.entries| {
      AheadAtEnd(s, i);
    } else {
      if Orphan(s, i) {
        ProgressOrphan(s, i, w, i);
      }
      VisitAhead(s, i, w);
      ProgressFinishes(Visit(s, i, w).s, i + 1, w);
    }
  }

  // ---- A failed local operation ----

  /** Entry j has not begun and nothing that can still happen will begin it. */
  predicate Lost(s: Sched, j: nat) {
    s.idx <= j < |s.entries| && s.entries[j].status == NotStarted && !BarrierIn(s.entries, s.idx, j)
  }

  lemma FedOrLost(s: Sched)
    ensures !Fed(s) <==> exists j: nat :: Lost(s, j)
  {
    if !Fed(s) {
      var j: nat :| s.idx <= j < |s.entries| && s.entries[j].status == NotStarted && !BarrierIn(s.entries, s.idx, j);
      assert Lost(s, j);
    }
  }

  lemma VisitLost(s: Sched, i: nat, w: World, j: nat)
    requires Lost(s, j) && i < |s.entries|
    ensures !Visit(s, i, w).aborted && Lost(Visit(s, i, w).s, j)
  {
    var c := Test(s, i, w);
    var t := Advance(c, i);
    assert forall k :: 0 <= k < |s.entries| ==> c.entries[k].isBarrier == s.entries[k].isBarrier;
    assert c.entries[j].status == NotStarted;
    if t.idx != c.idx {
      assert i != j;
      assert !s.entries[i].isBarrier;
    }
    assert !BarrierIn(t.entries, t.idx, j);
  }

  lemma {:induction false} ProgressLost(s: Sched, i: nat, w: World, j: nat)
    requires Lost(s, j)
    ensures Lost(ProgressFrom(s, i, w).s, j)
    decreases |s.entries| - i
  {
    if i < |s.entries| {
      VisitLost(s, i, w, j);
      if !Blocks(Test(s, i, w), i) {
        ProgressLost(Visit(s, i, w).s, i + 1, w, j);
      }
    }
  }

  /** A schedule that has lost an entry never finishes, however often it is polled. */
  lemma {:induction false} LostForever(s: Sched, polls: seq<World>, j: nat)
    requires Lost(s, j)
    ensures Lost(Polls(s, polls), j) && Polls(s, polls).idx < |Polls(s, polls).entries|
  {
    if polls != [] {
      var init := Polls(s, polls[..|polls| - 1]);
      LostForever(s, polls[..|polls| - 1], j);
      ProgressLost(init, init.idx, polls[|polls| - 1], j);
    }
  }

  // The entry whose event is the last one: after an aborted call, the operation that failed.
  function FailedEntry(s: Sched): nat {
    if s.log == [] then 0 else s.log[|s.log| - 1].i
  }

  /** An aborted call leaves exactly the entries up to the failed operation begun, with every
      barrier before it passed. */
  ghost predicate CutShort(t: Sched) {
    var f := FailedEntry(t);
    && t.idx <= f < |t.entries| && t.entries[f].kind == Local && t.entries[f].status == Failed
    && (forall j :: 0 <= j < |t.entries| ==> (t.entries[j].status == NotStarted <==> f < j))
    && (forall b :: 0 <= b < f && t.entries[b].isBarrier ==> b < t.idx)
  }

  lemma AbortedTurn(s: Sched, i: nat, w: World)
    requires Inv(s) && ContinueHead(s, i) && i < |s.entries| && Turn(s, i, w).aborted
    ensures CutShort(Turn(s, i, w).s)
  {
    StartKeeps(s, i, w.fails(i), w.bare(i));
  }

  lemma CutShortLoses(t: Sched)
    requires CutShort(t)
    ensures var f := FailedEntry(t);
      (exists j: nat :: Lost(t, j)) <==> f + 1 < |t.entries| && !t.entries[f].isBarrier
  {
    var f := FailedEntry(t);
    if f + 1 < |t.entries| && !t.entries[f].isBarrier {
      assert Lost(t, f + 1);
    }
    if t.entries[f].isBarrier {
      forall j: nat
        ensures !Lost(t, j)
      {
        assert f < j ==> BarrierIn(t.entries, t.idx, j);
      }
    }
  }

  lemma {:induction false} ContinueCutShort(s: Sched, i: nat, w: World)
    requires Inv(s) && ContinueHead(s, i) && ContinueFrom(s, i, w).aborted
    ensures CutShort(ContinueFrom(s, i, w).s)
    decreases |s.entries| - i
  {
    if Turn(s, i, w).aborted {
      AbortedTurn(s, i, w);
    } else {
      TurnKeeps(s, i, w);
      TurnHead(s, i, w);
      ContinueCutShort(Turn(s, i, w).s, i + 1, w);
    }
  }

  lemma VisitCutShort(s: Sched, i: nat, w: World)
    requires Inv(s) && i < |s.entries| && Visit(s, i, w).aborted
    ensures CutShort(Visit(s, i, w).s)
  {
    TestKeeps(s, i, w);
    var c := Test(s, i, w);
    AdvanceKeeps(c, i);
    var t := Advance(c, i);
    ContinueCutShort(t, t.idx, w);
  }

  lemma {:induction false} ProgressCutShort(s: Sched, i: nat, w: World)
    requires Inv(s) && ProgressFrom(s, i, w).aborted
    ensures CutShort(ProgressFrom(s, i, w).s)
    decreases |s.entries| - i
  {
    if Visit(s, i, w).aborted {
      VisitCutShort(s, i, w);
    } else {
      VisitKeeps(s, i, w);
      ProgressCutShort(Visit(s, i, w).s, i + 1, w);
    }
  }

  /** The pass was cut short by an operation that is neither a barrier nor the last entry. */
  predicate Loses(o: Outcome) {
    var f := FailedEntry(o.s);
    o.aborted && f + 1 < |o.s.entries| && !o.s.entries[f].isBarrier
  }

  /** A pass over a schedule that has lost nothing loses an entry if and only if the operation
      that failed is neither a barrier nor the last entry. */
  lemma AbortLoses(s: Sched, w: World)
    requires Inv(s) && Fed(s)
    ensures Loses(Poll(s, w)) <==> exists j: nat :: Lost(Poll(s, w).s, j)
  {
    var o := Poll(s, w);
    if o.aborted {
      ProgressCutShort(s, s.idx, w);
      CutShortLoses(o.s);
    } else {
      ProgressKeeps(s, s.idx, w);
      FedOrLost(o.s);
    }
  }

  // No pass of the run loses an entry.
  predicate NothingLost(s: Sched, polls: seq<World>) {
    polls != [] ==>
      && NothingLost(s, polls[..|polls| - 1])
      && !Loses(Poll(Polls(s, polls[..|polls| - 1]), polls[|polls| - 1]))
  }

  lemma {:induction false} PollsFedIff(s: Sched, polls: seq<World>)
    requires Inv(s) && Fed(s)
    ensures Fed(Polls(s, polls)) <==> NothingLost(s, polls)
  {
    if polls != [] {
      var init, w := Polls(s, polls[..|polls| - 1]), polls[|polls| - 1];
      PollsFedIff(s, polls[..|polls| - 1]);
      PollsKeep(s, polls[..|polls| - 1]);
      FedOrLost(init);
      FedOrLost(Polls(s, polls));
      if Fed(init) {
        AbortLoses(init, w);
      } else {
        var j: nat :| Lost(init, j);
        ProgressLost(init, init.idx, w, j);
      }
    }
  }

  // ---- Which schedules finish ----

  // Every request is complete and nothing fails.
  function KindWorld(): World {
    World(_ => true, _ => false, _ => false, _ => false)
  }

  ghost predicate NoOrphan(s: Sched) {
    forall j: nat :: !Orphan(s, j)
  }

  lemma {:induction false} KindContinue(s: Sched, i: nat)
    requires NoOrphan(s)
    ensures !ContinueFrom(s, i, KindWorld()).aborted && NoOrphan(ContinueFrom(s, i, KindWorld()).s)
    decreases |s.entries| - i
  {
    if i < |s.entries| {
      KindTurn(s, i);
      var o := Turn(s, i, KindWorld());
      if !Halts(o.s, i) {
        KindContinue(o.s, i + 1);
      }
    }
  }

  lemma KindTurn(s: Sched, i: nat)
    requires NoOrphan(s) && i < |s.entries|
    ensures !Turn(s, i, KindWorld()).aborted && NoOrphan(Turn(s, i, KindWorld()).s)
  {
    var t := Turn(s, i, KindWorld()).s;
    forall j: nat
      ensures !Orphan(t, j)
    {
      assert !Orphan(s, j);
    }
  }

  lemma KindTest(s: Sched, i: nat)
    requires NoOrphan(s) && i < |s.entries|
    ensures NoOrphan(Advance(Test(s, i, KindWorld()), i))
  {
    var t := Advance(Test(s, i, KindWorld()), i);
    forall j: nat
      ensures !Orphan(t, j)
    {
      assert !Orphan(s, j);
    }
  }

  lemma {:induction false} KindProgress(s: Sched, i: nat)
    requires NoOrphan(s)
    ensures !ProgressFrom(s, i, KindWorld()).aborted && NoOrphan(ProgressFrom(s, i, KindWorld()).s)
    decreases |s.entries| - i
  {
    if i < |s.entries| {
      KindTest(s, i);
      var t := Advance(Test(s, i, KindWorld()), i);
      KindContinue(t, t.idx);
      var o := Visit(s, i, KindWorld());
      if !Blocks(Test(s, i, KindWorld()), i) {
        KindProgress(o.s, i + 1);
      }
    }
  }

  lemma OnePassFinishes(s: Sched)
    requires Inv(s) && Fed(s) && NoOrphan(s)
    ensures Polls(s, [KindWorld()]).idx == |s.entries|
  {
    KindProgress(s, s.idx);
    ProgressFinishes(s, s.idx, KindWorld());
    assert [KindWorld()][..0] == [];
  }

  /** Some continuation of the run finishes the schedule. */
  ghost predicate CanFinish(s: Sched, first: World, polls: seq<World>) {
    exists more: seq<World> :: Run(s, first, polls + more).idx == |s.entries|
  }

  lemma OrphanUnfinished(s: Sched, j: nat)
    requires Inv(s) && Orphan(s, j)
    ensures s.idx <= j < |s.entries|
  {
  }

  lemma AbortedStartStays(s: Sched, first: World)
    requires Unstarted(s) && Start(s, first).aborted
    ensures CutShort(Start(s, first).s) && SamePlan(s.entries, Start(s, first).s.entries)
  {
    UnstartedHead(s);
    ContinueCutShort(s, 0, first);
    ContinueKeeps(s, 0, first);
  }

  lemma OrphanNeverFinishes(s: Sched, first: World, polls: seq<World>, j: nat)
    requires Unstarted(s) && !Start(s, first).aborted && Orphan(Run(s, first, polls), j)
    ensures !CanFinish(s, first, polls)
  {
    forall more: seq<World>
      ensures Run(s, first, polls + more).idx != |s.entries|
    {
      PollsAppend(Start(s, first).s, polls, more);
      PollsOrphan(Run(s, first, polls), more, j);
      RunKeeps(s, first, polls + more);
      OrphanUnfinished(Run(s, first, polls + more), j);
    }
  }

  lemma LostNeverFinishes(s: Sched, first: World, polls: seq<World>, j: nat)
    requires Unstarted(s) && !Start(s, first).aborted && Lost(Run(s, first, polls), j)
    ensures !CanFinish(s, first, polls)
  {
    forall more: seq<World>
      ensures Run(s, first, polls + more).idx != |s.entries|
    {
      PollsAppend(Start(s, first).s, polls, more);
      LostForever(Run(s, first, polls), more, j);
      RunKeeps(s, first, polls + more);
    }
  }

  lemma OneMorePass(s: Sched, first: World, polls: seq<World>)
    requires Unstarted(s) && !Start(s, first).aborted
    requires Fed(Run(s, first, polls)) && NoOrphan(Run(s, first, polls))
    ensures CanFinish(s, first, polls)
  {
    RunKeeps(s, first, polls);
    OnePassFinishes(Run(s, first, polls));
    PollsAppend(Start(s, first).s, polls, [KindWorld()]);
    assert Run(s, first, polls + [KindWorld()]).idx == |s.entries|;
  }

  /** A run can still finish if and only if its start did not abort, it has lost no entry and no
      started entry lacks its request. */
  lemma FinishesUnlessLost(s: Sched, first: World, polls: seq<World>)
    requires Unstarted(s)
    ensures var t := Run(s, first, polls);
      CanFinish(s, first, polls) <==> !Start(s, first).aborted && !(exists j: nat :: Lost(t, j)) && NoOrphan(t)
  {
    var t := Run(s, first, polls);
    if Start(s, first).aborted {
      AbortedStartStays(s, first);
      assert !CanFinish(s, first, polls);
    } else if j: nat :| Lost(t, j) {
      LostNeverFinishes(s, first, polls, j);
    } else if j: nat :| Orphan(t, j) {
      OrphanNeverFinishes(s, first, polls, j);
    } else {
      FedOrLost(t);
      OneMorePass(s, first, polls);
    }
  }

  /** Which schedules finish: those whose first round is not cut short, none of whose later rounds
      is cut short by an operation that is neither a barrier nor the last entry, and none of whose
      receives has failed to start without a request. */
  lemma FinishesIff(s: Sched, first: World, polls: seq<World>)
    requires Unstarted(s)
    ensures CanFinish(s, first, polls)
       <==> !Start(s, first).aborted && NothingLost(Start(s, first).s, polls) && NoOrphan(Run(s, first, polls))
  {
    FinishesUnlessLost(s, first, polls);
    var o := Start(s, first);
    if !o.aborted {
      StartRoundKeeps(s, first);
      PollsFedIff(o.s, polls);
      FedOrLost(Run(s, first, polls));
    }
  }

  /** A run that has lost nothing is never stuck: it has finished or its first outstanding entry
      has begun, and the next pass that finds all requests complete and starts everything it
      reaches finishes the schedule, whatever barriers it has. */
  lemma NeverStuck(s: Sched, first: World, polls: seq<World>, w: World)
    requires Unstarted(s) && !Start(s, first).aborted && NothingLost(Start(s, first).s, polls)
    ensures var t := Run(s, first, polls);
      && (t.idx == |t.entries| || (t.idx < |t.entries| && t.entries[t.idx].status != NotStarted))
      && (AllReady(w) && !Poll(t, w).aborted && NoOrphan(Poll(t, w).s) ==> Poll(t, w).s.idx == |t.entries|)
  {
    StartRoundKeeps(s, first);
    PollsFedIff(Start(s, first).s, polls);
    RunKeeps(s, first, polls);
    var t := Run(s, first, polls);
    if t.idx < |t.entries| {
      FedEntryBegan(t);
    }
    if AllReady(w) && !Poll(t, w).aborted && NoOrphan(Poll(t, w).s) {
      ProgressFinishes(t, t.idx, w);
    }
  }
}
