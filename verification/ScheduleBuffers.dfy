/**
 * The buffers that COMMIT hands to a schedule: in every run each is freed at most once and only
 * after everything it was committed for, and exactly when it is freed at all. At the end,
 * schedules for which the engine fails.
 */
module ScheduleBuffers {
  import opened Schedule
  import opened ScheduleProofs

  // ---- Committed buffers ----

  // How often a buffer was freed: each time an entry that frees it began.
  function FreeCalls(entries: seq<Entry>, log: seq<Event>, b: Buffer): nat {
    if log == [] then 0
    else
      var e := log[|log| - 1];
      FreeCalls(entries, log[..|log| - 1], b)
        + if e.Began? && e.i < |entries| && entries[e.i].kind == FreeBuffer(b) then 1 else 0
  }

  lemma {:induction false} FreeAllShape(s: Sched, stack: seq<Buffer>)
    ensures var t := FreeAll(s, stack);
      && |t.entries| == |s.entries| + |stack| && t.entries[..|s.entries|] == s.entries
      && forall k :: 0 <= k < |stack| ==>
           t.entries[|s.entries| + |stack| - 1 - k] == Entry(FreeBuffer(stack[k]), NotStarted, false, false)
    decreases |stack|
  {
    if stack != [] {
      var last := |stack| - 1;
      var one := Add(s, FreeBuffer(stack[last]));
      FreeAllShape(one, stack[..last]);
      var t := FreeAll(s, stack);
      assert t.entries[..|s.entries|] == t.entries[..|one.entries|][..|s.entries|];
      assert t.entries[|s.entries|] == t.entries[..|one.entries|][|s.entries|];
    }
  }

  // u is t with more entries behind it and perhaps more barriers.
  predicate Extends(t: seq<Entry>, u: seq<Entry>) {
    |t| <= |u| && forall i :: 0 <= i < |t| ==> u[i].kind == t[i].kind && (t[i].isBarrier ==> u[i].isBarrier)
  }

  lemma CommitShape(s: Sched, stack: seq<Buffer>, u: seq<Entry>)
    requires Extends(Commit(s, stack).entries, u)
    ensures var n := |s.entries|;
      && n + |stack| <= |u| && (n > 0 ==> u[n - 1].isBarrier)
      && forall k :: 0 <= k < |stack| ==> u[n + |stack| - 1 - k].kind == FreeBuffer(stack[k])
  {
    FreeAllShape(Barrier(s), stack);
    var t, n := Commit(s, stack), |s.entries|;
    assert n > 0 ==> t.entries[..n][n - 1].isBarrier;
  }

  predicate OnlyFreedAt(entries: seq<Entry>, b: Buffer, m: nat) {
    forall i :: 0 <= i < |entries| ==> (entries[i].kind == FreeBuffer(b) <==> i == m)
  }

  lemma {:induction false} FreeCallsAre(entries: seq<Entry>, log: seq<Event>, b: Buffer, m: nat)
    requires m < |entries| && OnlyFreedAt(entries, b, m)
    ensures FreeCalls(entries, log, b) == Occurs(log, Began(m))
  {
    if log != [] {
      FreeCallsAre(entries, log[..|log| - 1], b, m);
    }
  }

  lemma {:induction false} OccursAt(log: seq<Event>, e: Event) returns (q: nat)
    requires Occurs(log, e) >= 1
    ensures q < |log| && log[q] == e
  {
    if log[|log| - 1] == e {
      q := |log| - 1;
    } else {
      q := OccursAt(log[..|log| - 1], e);
    }
  }

  lemma {:induction false} OccursPrefix(log: seq<Event>, q: nat, e: Event)
    requires q <= |log|
    ensures Occurs(log[..q], e) <= Occurs(log, e)
  {
    if q < |log| {
      OccursPrefix(log[..|log| - 1], q, e);
      assert log[..|log| - 1][..q] == log[..q];
    } else {
      assert log[..q] == log;
    }
  }

  /** The buffer was freed at most once, exactly once if the schedule has finished, and at no
      time before the first n entries had ended. */
  ghost predicate FreedProperly(t: Sched, buf: Buffer, n: nat) {
    && FreeCalls(t.entries, t.log, buf) <= 1
    && (t.idx == |t.entries| ==> FreeCalls(t.entries, t.log, buf) == 1)
    && forall p, i: nat :: 0 <= p <= |t.log| && i < n && FreeCalls(t.entries, t.log[..p], buf) >= 1
         ==> Occurs(t.log[..p], Ended(i)) >= 1
  }

  lemma FreedBehindBarrier(t: Sched, buf: Buffer, m: nat, n: nat)
    requires Inv(t) && n <= m < |t.entries| && OnlyFreedAt(t.entries, buf, m)
    requires n > 0 ==> t.entries[n - 1].isBarrier
    ensures FreedProperly(t, buf, n)
  {
    FreeCallsAre(t.entries, t.log, buf, m);
    forall p, i: nat | 0 <= p <= |t.log| && i < n && FreeCalls(t.entries, t.log[..p], buf) >= 1
      ensures Occurs(t.log[..p], Ended(i)) >= 1
    {
      FreedAfter(t.entries, t.log, buf, m, n - 1, p, i);
    }
  }

  lemma OnlyFreedSame(a: seq<Entry>, b: seq<Entry>, buf: Buffer, m: nat)
    requires SamePlan(a, b) && OnlyFreedAt(a, buf, m)
    ensures OnlyFreedAt(b, buf, m)
  {
  }

  /** COMMIT, for any schedule, any stack of distinct buffers, any entries added later and any
      run: each buffer is freed at most once, exactly once if the schedule finishes, and never
      before the entries that preceded the COMMIT have ended. */
  lemma CommittedBuffers(s: Sched, stack: seq<Buffer>, u: Sched, first: World, polls: seq<World>, k: nat)
    requires Unstarted(u) && Extends(Commit(s, stack).entries, u.entries) && k < |stack|
    requires forall a, b :: 0 <= a < b < |stack| ==> stack[a] != stack[b]
    requires forall i :: 0 <= i < |u.entries| && u.entries[i].kind == FreeBuffer(stack[k]) ==>
      |s.entries| <= i < |s.entries| + |stack|
    ensures FreedProperly(Run(u, first, polls), stack[k], |s.entries|)
  {
    var t, n := Run(u, first, polls), |s.entries|;
    var m := n + |stack| - 1 - k;
    RunKeeps(u, first, polls);
    CommitShape(s, stack, u.entries);
    CommittedOnlyAt(s, stack, u.entries, k);
    OnlyFreedSame(u.entries, t.entries, stack[k], m);
    FreedBehindBarrier(t, stack[k], m, n);
  }

  // A buffer that is freed behind a barrier is freed after the entries before the barrier.
  lemma FreedAfter(entries: seq<Entry>, log: seq<Event>, buf: Buffer, m: nat, b: nat, p: nat, i: nat)
    requires Ordered(entries, log) && m < |entries| && OnlyFreedAt(entries, buf, m)
    requires i <= b < m && entries[b].isBarrier && p <= |log| && FreeCalls(entries, log[..p], buf) >= 1
    ensures Occurs(log[..p], Ended(i)) >= 1
  {
    FreeCallsAre(entries, log[..p], buf, m);
    var q := OccursAt(log[..p], Began(m));
    OrderedAt(entries, log, q, i, b, m);
    OccursPrefix(log[..p], q, Ended(i));
    assert log[..p][..q] == log[..q];
  }

  lemma CommittedOnlyAt(s: Sched, stack: seq<Buffer>, u: seq<Entry>, k: nat)
    requires Extends(Commit(s, stack).entries, u) && k < |stack|
    requires forall a, b :: 0 <= a < b < |stack| ==> stack[a] != stack[b]
    requires forall i :: 0 <= i < |u| && u[i].kind == FreeBuffer(stack[k]) ==> |s.entries| <= i < |s.entries| + |stack|
    ensures |s.entries| + |stack| <= |u|
    ensures OnlyFreedAt(u, stack[k], |s.entries| + |stack| - 1 - k)
  {
    CommitShape(s, stack, u);
    var top := |s.entries| + |stack| - 1;
    forall i | 0 <= i < |u|
      ensures u[i].kind == FreeBuffer(stack[k]) <==> i == top - k
    {
      if |s.entries| <= i <= top {
        var a := top - i;
        assert u[top - a].kind == FreeBuffer(stack[a]);
      } else {
        assert u[i].kind != FreeBuffer(stack[k]);
      }
    }
  }

  // ---- Which committed buffers are freed ----

  predicate HasBegun(s: Sched, m: nat) {
    m < |s.entries| && s.entries[m].status != NotStarted
  }

  /** Some continuation of the run frees the buffer. */
  ghost predicate CanBeFreed(u: Sched, first: World, polls: seq<World>, buf: Buffer) {
    exists more: seq<World> ::
      FreeCalls(Run(u, first, polls + more).entries, Run(u, first, polls + more).log, buf) >= 1
  }

  lemma FreedIffBegun(t: Sched, buf: Buffer, m: nat)
    requires Inv(t) && m < |t.entries| && OnlyFreedAt(t.entries, buf, m)
    ensures FreeCalls(t.entries, t.log, buf) >= 1 <==> HasBegun(t, m)
  {
    FreeCallsAre(t.entries, t.log, buf, m);
  }

  // In front of entry m, or at it, an entry was lost: m never begins.
  lemma LostStaysUnbegun(t: Sched, polls: seq<World>, j: nat, m: nat)
    requires Inv(t) && Lost(t, j) && m < |t.entries| && !HasBegun(t, m)
    ensures !HasBegun(Polls(t, polls), m)
  {
    PollsKeep(t, polls);
    if j <= m {
      LostForever(t, polls, j);
    } else {
      assert Lost(t, m);
      LostForever(t, polls, m);
    }
  }

  // An entry that waits behind a barrier waits forever for an entry without a request.
  lemma OrphanStaysUnbegun(t: Sched, polls: seq<World>, j: nat, m: nat)
    requires Inv(t) && Fed(t) && Orphan(t, j) && m < |t.entries| && !HasBegun(t, m)
    ensures !HasBegun(Polls(t, polls), m)
  {
    assert j < m && t.idx <= m;
    assert BarrierIn(t.entries, t.idx, m);
    var b :| t.idx <= b < m && t.entries[b].isBarrier;
    assert j <= b;
    PollsKeep(t, polls);
    PollsOrphan(t, polls, j);
    OrphanUnfinished(Polls(t, polls), j);
  }

  // A run that cannot finish begins no further entry.
  lemma UnbegunForever(u: Sched, first: World, polls: seq<World>, more: seq<World>, m: nat)
    requires Unstarted(u) && m < |u.entries|
    requires !HasBegun(Run(u, first, polls), m) && !CanFinish(u, first, polls)
    ensures !HasBegun(Run(u, first, polls + more), m)
  {
    var o, t := Start(u, first), Run(u, first, polls);
    FinishesUnlessLost(u, first, polls);
    if !o.aborted {
      PollsAppend(o.s, polls, more);
      RunKeeps(u, first, polls);
      if j: nat :| Lost(t, j) {
        LostStaysUnbegun(t, more, j, m);
      } else {
        FedOrLost(t);
        var j: nat :| Orphan(t, j);
        OrphanStaysUnbegun(t, more, j, m);
      }
    }
  }

  /** A buffer with one freeing entry m can still be freed if and only if that entry has begun or
      the run can still finish. After an aborted start it has begun exactly if it lies in front of
      the operation that failed. */
  lemma FreedIff(u: Sched, first: World, polls: seq<World>, buf: Buffer, m: nat)
    requires Unstarted(u) && m < |u.entries| && OnlyFreedAt(u.entries, buf, m)
    ensures var t := Run(u, first, polls);
      && (CanBeFreed(u, first, polls, buf) <==> HasBegun(t, m) || CanFinish(u, first, polls))
      && (Start(u, first).aborted ==> (CanBeFreed(u, first, polls, buf) <==> m < FailedEntry(t)))
  {
    var t := Run(u, first, polls);
    forall more: seq<World>
      ensures var r := Run(u, first, polls + more);
        FreeCalls(r.entries, r.log, buf) >= 1 <==> HasBegun(r, m)
    {
      RunKeeps(u, first, polls + more);
      OnlyFreedSame(u.entries, Run(u, first, polls + more).entries, buf, m);
      FreedIffBegun(Run(u, first, polls + more), buf, m);
    }
    FreedIfBegun(u, first, polls, buf, m);
    if !HasBegun(t, m) && !CanFinish(u, first, polls) {
      forall more: seq<World> {
        UnbegunForever(u, first, polls, more, m);
      }
    }
    if Start(u, first).aborted {
      AbortedStartStays(u, first);
      FinishesUnlessLost(u, first, polls);
    }
  }

  lemma FreedIfBegun(u: Sched, first: World, polls: seq<World>, buf: Buffer, m: nat)
    requires Unstarted(u) && m < |u.entries| && OnlyFreedAt(u.entries, buf, m)
    requires forall more: seq<World> :: var r := Run(u, first, polls + more);
      FreeCalls(r.entries, r.log, buf) >= 1 <==> HasBegun(r, m)
    ensures HasBegun(Run(u, first, polls), m) || CanFinish(u, first, polls) ==> CanBeFreed(u, first, polls, buf)
  {
    if HasBegun(Run(u, first, polls), m) {
      assert polls + [] == polls;
      assert HasBegun(Run(u, first, polls + []), m);
    } else if CanFinish(u, first, polls) {
      var more: seq<World> :| Run(u, first, polls + more).idx == |u.entries|;
      RunKeeps(u, first, polls + more);
      assert HasBegun(Run(u, first, polls + more), m);
    }
  }

  /** COMMIT: exactly when a committed buffer can still be freed. */
  lemma CommittedFreedIff(s: Sched, stack: seq<Buffer>, u: Sched, first: World, polls: seq<World>, k: nat)
    requires Unstarted(u) && Extends(Commit(s, stack).entries, u.entries) && k < |stack|
    requires forall a, b :: 0 <= a < b < |stack| ==> stack[a] != stack[b]
    requires forall i :: 0 <= i < |u.entries| && u.entries[i].kind == FreeBuffer(stack[k]) ==>
      |s.entries| <= i < |s.entries| + |stack|
    ensures var t, m := Run(u, first, polls), |s.entries| + |stack| - 1 - k;
      CanBeFreed(u, first, polls, stack[k]) <==>
         if Start(u, first).aborted then m < FailedEntry(t)
         else HasBegun(t, m) || (NothingLost(Start(u, first).s, polls) && NoOrphan(t))
  {
    CommitShape(s, stack, u.entries);
    CommittedOnlyAt(s, stack, u.entries, k);
    FreedIff(u, first, polls, stack[k], |s.entries| + |stack| - 1 - k);
    FinishesIff(u, first, polls);
  }

  // ---- Schedules that fail ----

  function Plain(kind: Kind): Entry {
    Entry(kind, NotStarted, false, false)
  }

  function Fresh(entries: seq<Entry>): Sched {
    Sched(entries, 0, false, [])
  }

  // Every request is complete, and operation f fails to start.
  function FailsAt(f: nat): World {
    World(_ => true, i => i == f, _ => false, _ => false)
  }

  /** A schedule whose first operation is local and fails: its start aborts, so it never finishes,
      whatever follows the operation. */
  lemma FirstRoundFails(rest: seq<Entry>, isBarrier: bool, polls: seq<World>)
    requires forall i :: 0 <= i < |rest| ==> rest[i].status == NotStarted
    ensures var s := Fresh([Plain(Local).(isBarrier := isBarrier)] + rest);
      Start(s, FailsAt(0)).aborted && FailedEntry(Start(s, FailsAt(0)).s) == 0 && !CanFinish(s, FailsAt(0), polls)
  {
    var s := Fresh([Plain(Local).(isBarrier := isBarrier)] + rest);
    assert s.entries[0].kind == Local;
    assert Turn(s, 0, FailsAt(0)).aborted;
    FinishesIff(s, FailsAt(0), polls);
  }

  // One entry in the first round, behind whose barrier the second round starts.
  function TwoRounds(rest: seq<Entry>): Sched {
    Fresh([Plain(Send).(isBarrier := true)] + rest)
  }

  lemma FirstRoundWaits(rest: seq<Entry>)
    ensures Start(TwoRounds(rest), KindWorld()) == Outcome(Begin(TwoRounds(rest), 0, true), false)
  {
    var s := TwoRounds(rest);
    assert s.entries[0].kind == Send;
    assert Turn(s, 0, KindWorld()) == Outcome(Begin(s, 0, true), false);
  }

  // The second round is cut short by its first operation.
  lemma SecondRoundFails(rest: seq<Entry>)
    requires rest != [] && rest[0].kind == Local && rest[0].status == NotStarted
    ensures var o := Poll(Start(TwoRounds(rest), KindWorld()).s, FailsAt(1));
      o.aborted && FailedEntry(o.s) == 1 && |o.s.entries| == 1 + |rest| && o.s.entries[1].isBarrier == rest[0].isBarrier
    ensures Start(TwoRounds(rest), KindWorld()).s.idx == 0
  {
    FirstRoundWaits(rest);
    var s := Begin(TwoRounds(rest), 0, true);
    var w := FailsAt(1);
    assert s.entries[1] == rest[0];
    var c := End(s, 0, Complete, false);
    assert Test(s, 0, w) == c;
    var t := c.(idx := 1);
    assert Advance(c, 0) == t;
    assert Turn(t, 1, w).aborted;
    assert Visit(s, 0, w) == Turn(t, 1, w);
  }

  /** In a later round the same failure is fatal with another entry behind it, and harmless when
      the failed operation is the last one. */
  lemma LaterRoundFails()
    ensures Unstarted(TwoRounds([Plain(Local), Plain(Callback)])) && Unstarted(TwoRounds([Plain(Local)]))
    ensures !CanFinish(TwoRounds([Plain(Local), Plain(Callback)]), KindWorld(), [FailsAt(1)])
    ensures CanFinish(TwoRounds([Plain(Local)]), KindWorld(), [FailsAt(1)])
  {
    LaterRoundDecides([Plain(Local), Plain(Callback)]);
    LaterRoundDecides([Plain(Local)]);
  }

  lemma LaterRoundDecides(rest: seq<Entry>)
    requires rest != [] && rest[0] == Plain(Local)
    requires forall i :: 0 <= i < |rest| ==> rest[i].status == NotStarted && !rest[i].request
    ensures CanFinish(TwoRounds(rest), KindWorld(), [FailsAt(1)]) <==> |rest| == 1
  {
    var s := TwoRounds(rest);
    var o := Start(s, KindWorld());
    FirstRoundWaits(rest);
    SecondRoundFails(rest);
    assert [FailsAt(1)][..0] == [];
    var p := Poll(o.s, FailsAt(1));
    assert Polls(o.s, [FailsAt(1)]) == p.s;
    FinishesIff(s, KindWorld(), [FailsAt(1)]);
    assert NothingLost(o.s, []);
    assert NothingLost(o.s, [FailsAt(1)]) <==> !Loses(p);
    NoRequestLacking(s, rest);
  }

  // Failing operations that are local leave no receive without its request.
  lemma NoRequestLacking(s: Sched, rest: seq<Entry>)
    requires rest != [] && rest[0] == Plain(Local) && s == TwoRounds(rest)
    requires forall i :: 0 <= i < |rest| ==> rest[i].status == NotStarted && !rest[i].request
    ensures NoOrphan(Poll(Start(s, KindWorld()).s, FailsAt(1)).s)
  {
    FirstRoundWaits(rest);
    var b, w := Begin(s, 0, true), FailsAt(1);
    assert b.entries[1] == rest[0];
    var c := End(b, 0, Complete, false);
    assert Test(b, 0, w) == c;
    var t := c.(idx := 1);
    assert Advance(c, 0) == t && Turn(t, 1, w).aborted;
    assert Visit(b, 0, w) == Turn(t, 1, w);
    var r := Turn(t, 1, w).s;
    assert forall i :: 2 <= i < |r.entries| ==> r.entries[i] == rest[i - 1];
  }

  /** A receive that fails to start without a request keeps its schedule from finishing. */
  lemma ReceiveNeverStarts(polls: seq<World>)
    ensures var s, w := Fresh([Plain(Recv)]), FailsAt(0).(bare := _ => true);
      !Start(s, w).aborted && !CanFinish(s, w, polls)
  {
    var s, w := Fresh([Plain(Recv)]), FailsAt(0).(bare := _ => true);
    var t := Begin(s, 0, false).(err := true);
    assert Turn(s, 0, w) == Outcome(t, false);
    assert Start(s, w) == ContinueFrom(t, 1, w) == Outcome(t, false);
    PollsOrphan(t, polls, 0);
    OrphanNeverFinishes(s, w, polls, 0);
  }

  /** Buffers leak: one committed behind a local operation that fails in the first round is never
      freed. */
  lemma CommitLeaks(buf: Buffer, polls: seq<World>)
    ensures var u := Commit(Add(Fresh([]), Local), [buf]);
      Unstarted(u) && !CanBeFreed(u, FailsAt(0), polls, buf)
  {
    var s := Add(Fresh([]), Local);
    var u := Commit(s, [buf]);
    assert s.entries == [Plain(Local)];
    assert Barrier(s).entries == [Plain(Local).(isBarrier := true)];
    assert [buf][..0] == [];
    var v := Add(Barrier(s), FreeBuffer(buf));
    assert FreeAll(v, []) == v;
    assert FreeAll(Barrier(s), [buf]) == FreeAll(v, [buf][..0]);
    assert u == v;
    assert u.entries == [Plain(Local).(isBarrier := true)] + [Plain(FreeBuffer(buf))];
    FirstRoundFails([Plain(FreeBuffer(buf))], true, polls);
    CommittedFreedIff(s, [buf], u, FailsAt(0), polls, 0);
  }
}
