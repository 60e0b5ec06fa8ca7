/**
 * The objects behind a schedule: the entries that the engine updates in place, and the stack of
 * buffers that COMMIT and REAP empty. The loops are proved to compute what `Schedule` defines.
 */
module ScheduleObjects {
  import opened Schedule

  // MPIDU_Sched
  class ScheduleObject {
    var entries: seq<Entry>
    var idx: nat
    var err: bool
    ghost var log: seq<Event>

    ghost function Value(): Sched
      reads this
    {
      Sched(entries, idx, err, log)
    }

    constructor ()
      ensures Value() == Sched([], 0, false, [])
    {
      entries, idx, err, log := [], 0, false, [];
    }

    method AddEntry(kind: Kind)
      modifies this
      ensures Value() == Add(old(Value()), kind)
    {
      entries := entries + [Entry(kind, NotStarted, false, false)];
    }

    method AddBarrier()
      modifies this
      ensures Value() == Barrier(old(Value()))
    {
      if |entries| > 0 {
        entries := entries[|entries| - 1 := entries[|entries| - 1].(isBarrier := true)];
      }
    }

    method SetStatus(i: nat, status: Status, request: bool)
      requires i < |entries|
      modifies this`entries
      ensures entries == old(entries[i := entries[i].(status := status, request := request)])
    {
      entries := entries[i := entries[i].(status := status, request := request)];
    }

    method Launch(i: nat, fails: bool, bare: bool) returns (aborted: bool)
      requires i < |entries|
      modifies this
      ensures Outcome(Value(), aborted) == StartEntry(old(Value()), i, fails, bare)
    {
      aborted := false;
      var kind := entries[i].kind;
      SetStatus(i, Started, (kind == Send && !fails) || (kind == Recv && !(fails && bare)));
      log := log + [Began(i)];
      match kind
      case Send => {
        if fails {
          err := true;
          SetStatus(i, Failed, false);
          log := log + [Ended(i)];
        }
      }
      case Recv => {
        err := err || fails;   // the entry still counts as started
      }
      case Local => {
        SetStatus(i, if fails then Failed else Complete, false);
        log := log + [Ended(i)];
        aborted := fails;
      }
      case Callback => {
        err := err || fails;
        SetStatus(i, if fails then Failed else Complete, false);
        log := log + [Ended(i)];
      }
      case FreeBuffer(_) => {
        SetStatus(i, Complete, false);
        log := log + [Ended(i)];
      }
    }

    method Step(i: nat)
      requires i < |entries|
      modifies this`idx
      ensures Value() == Advance(old(Value()), i)
    {
      if i == idx && Done(entries[i]) {
        idx := idx + 1;
      }
    }

    // MPIDU_Sched_continue
    method Continue(w: World) returns (aborted: bool)
      modifies this
      ensures Outcome(Value(), aborted) == ContinueFrom(old(Value()), old(idx), w)
    {
      var i: nat := idx;
      while i < |entries|
        invariant ContinueFrom(Value(), i, w) == ContinueFrom(old(Value()), old(idx), w)
        decreases |entries| - i
      {
        if entries[i].status == NotStarted {
          var failed := Launch(i, w.fails(i), w.bare(i));
          if failed {
            return true;
          }
        }
        Step(i);
        if entries[i].isBarrier && (!Done(entries[i]) || idx != i + 1) {
          return false;
        }
        i := i + 1;
      }
      return false;
    }

    // MPIDU_Sched_progress_state, for this schedule
    method Progress(w: World) returns (aborted: bool)
      modifies this
      ensures Outcome(Value(), aborted) == Poll(old(Value()), w)
    {
      var i: nat := idx;
      while i < |entries|
        invariant ProgressFrom(Value(), i, w) == Poll(old(Value()), w)
        decreases |entries| - i
      {
        var again, halt := Look(i, w);
        if again || halt {
          return again;
        }
        i := i + 1;
      }
      return false;
    }

    method TestRequest(i: nat, w: World)
      requires i < |entries|
      modifies this
      ensures Value() == Test(old(Value()), i, w)
    {
      if entries[i].status == Started && entries[i].request && w.ready(i) {
        if entries[i].kind == Recv && w.garbled(i) {
          err := true;
        }
        SetStatus(i, if err then Failed else Complete, false);
        log := log + [Ended(i)];
      }
    }

    // One entry of the progress loop: aborted, or stopped at a barrier.
    method Look(i: nat, w: World) returns (aborted: bool, halt: bool)
      requires i < |entries|
      modifies this
      ensures Outcome(Value(), aborted) == Visit(old(Value()), i, w)
      ensures halt <==> Blocks(Test(old(Value()), i, w), i)
    {
      aborted, halt := false, false;
      TestRequest(i, w);
      if i == idx && Done(entries[i]) {
        idx := idx + 1;
        if entries[i].isBarrier {
          aborted := Continue(w);
        }
      } else if entries[i].isBarrier && !Done(entries[i]) {
        halt := true;
      }
    }
  }

  // The local stack of MPIR_SCHED_CHKPMEM_DECL, and the memory that was freed without delay.
  class BufferStack {
    const stk: array<Buffer>
    var sp: nat
    var freed: seq<Buffer>

    ghost predicate Valid()
      reads this
    {
      sp <= stk.Length
    }

    ghost function Stack(): seq<Buffer>
      reads this, stk
      requires Valid()
    {
      stk[..sp]
    }

    constructor (size: nat)
      ensures Valid() && Stack() == [] && freed == [] && stk.Length == size && fresh(stk)
    {
      stk := new Buffer[size];
      sp, freed := 0, [];
    }

    // MPIR_SCHED_CHKPMEM_MALLOC; `p` is what malloc returned, 0 for NULL.
    method Malloc(p: Buffer, nbytes: nat) returns (failed: bool)
      requires Valid() && (p != 0 ==> sp < stk.Length)
      modifies this`sp, stk
      ensures Valid() && (failed <==> p == 0 && nbytes > 0)
      ensures Stack() == if p != 0 then old(Stack()) + [p] else old(Stack())
    {
      failed := false;
      if p != 0 {
        stk[sp] := p;
        sp := sp + 1;
      } else if nbytes > 0 {
        failed := true;
      }
    }

    // MPIR_SCHED_CHKPMEM_REAP: every buffer is freed at once, the last one first.
    method Reap()
      requires Valid()
      modifies this
      ensures Valid() && Stack() == []
      ensures freed == old(freed) + Reverse(old(Stack()))
    {
      ghost var all := Stack();
      while sp > 0
        invariant Valid() && sp <= |all| && stk[..sp] == all[..sp]
        invariant freed + Reverse(all[..sp]) == old(freed) + Reverse(all)
      {
        sp := sp - 1;
        assert all[..sp + 1][..sp] == all[..sp];
        freed := freed + [stk[sp]];
      }
    }

    // MPIR_SCHED_CHKPMEM_COMMIT on the schedule the buffers are used in
    method CommitTo(s: ScheduleObject)
      requires Valid()
      modifies this`sp, s
      ensures Valid() && Stack() == []
      ensures s.Value() == Commit(old(s.Value()), old(Stack()))
    {
      ghost var all := Stack();
      s.AddBarrier();
      while sp > 0
        invariant Valid() && sp <= |all| && stk[..sp] == all[..sp]
        invariant FreeAll(s.Value(), all[..sp]) == Commit(old(s.Value()), all)
      {
        sp := sp - 1;
        assert all[..sp + 1][..sp] == all[..sp];
        s.AddEntry(FreeBuffer(stk[sp]));
      }
    }
  }

  function Reverse(bufs: seq<Buffer>): seq<Buffer> {
    if bufs == [] then [] else [bufs[|bufs| - 1]] + Reverse(bufs[..|bufs| - 1])
  }
}
