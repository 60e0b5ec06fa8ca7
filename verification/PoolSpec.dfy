/** The pooled allocator of src/include/mpir_handlemem.h on values: which handles are free, in list
    order, and which are live.  Objects are named by their handles.
 */
module PoolSpec {
  import opened Handles

  /** What is fixed about a pool. */
  datatype Shape = Shape(kind: int, directSize: int)

  /** At least one object is preallocated: with none, the first allocation would hand out the
      address behind an empty array. */
  predicate ValidShape(sh: Shape) {
    ValidKind(sh.kind) && 1 <= sh.directSize < MPI_KIND_UNIT
  }

  /** `started` is the `initialized` flag, `table` says whether the table of indirect blocks exists. */
  datatype PoolState = PoolState(started: bool, table: bool, blocks: nat, free: seq<Handle>, live: set<Handle>)

  const EMPTY := PoolState(false, false, 0, [], {})

  function DirectHandles(sh: Shape, from: int): (r: seq<Handle>)
    requires ValidShape(sh) && 0 <= from <= sh.directSize
    ensures |r| == sh.directSize - from
    ensures forall i {:trigger r[i]} :: 0 <= i < |r| ==> r[i] == DirectHandle(sh.kind, from + i)
  {
    seq<Handle>(sh.directSize - from, i requires 0 <= i < sh.directSize - from => DirectHandle(sh.kind, from + i))
  }

  function BlockHandles(sh: Shape, b: int, from: int): (r: seq<Handle>)
    requires ValidShape(sh) && 0 <= b < HANDLE_NUM_BLOCKS && 0 <= from <= HANDLE_NUM_INDICES
    ensures |r| == HANDLE_NUM_INDICES - from
    ensures forall i {:trigger r[i]} :: 0 <= i < |r| ==> r[i] == IndirectHandle(sh.kind, b, from + i)
  {
    seq<Handle>(HANDLE_NUM_INDICES - from,
        i requires 0 <= i < HANDLE_NUM_INDICES - from => IndirectHandle(sh.kind, b, from + i))
  }

  /** h names an object of the direct block or of one of the first `blocks` indirect blocks. */
  ghost predicate Exists(sh: Shape, started: bool, blocks: nat, h: Handle)
    requires ValidShape(sh) && blocks <= HANDLE_NUM_BLOCKS
  {
    if blocks == 0 then started && h in DirectHandles(sh, 0)
    else Exists(sh, started, blocks - 1, h) || (started && h in BlockHandles(sh, blocks - 1, 0))
  }

  lemma InDirect(sh: Shape, h: Handle)
    requires ValidShape(sh)
    ensures h in DirectHandles(sh, 0) <==>
            GetKind(h) == HANDLE_KIND_DIRECT && GetMpiKind(h) == sh.kind && GetIndex(h) < sh.directSize
  {
    if h in DirectHandles(sh, 0) {
      var i :| 0 <= i < sh.directSize && DirectHandles(sh, 0)[i] == h;
      DirectFields(sh.kind, i);
    }
    if GetKind(h) == HANDLE_KIND_DIRECT && GetMpiKind(h) == sh.kind && GetIndex(h) < sh.directSize {
      FieldsDetermine(h);
      assert DirectHandles(sh, 0)[GetIndex(h)] == h;
    }
  }

  lemma InBlock(sh: Shape, b: int, h: Handle)
    requires ValidShape(sh) && 0 <= b < HANDLE_NUM_BLOCKS
    ensures h in BlockHandles(sh, b, 0) <==>
            GetKind(h) == HANDLE_KIND_INDIRECT && GetMpiKind(h) == sh.kind
            && GetBlock(h) == b && GetBlockIndex(h) < HANDLE_NUM_INDICES
  {
    if h in BlockHandles(sh, b, 0) {
      var i :| 0 <= i < HANDLE_NUM_INDICES && BlockHandles(sh, b, 0)[i] == h;
      IndirectFields(sh.kind, b, i);
    }
    if GetKind(h) == HANDLE_KIND_INDIRECT && GetMpiKind(h) == sh.kind
       && GetBlock(h) == b && GetBlockIndex(h) < HANDLE_NUM_INDICES {
      FieldsDetermine(h);
      assert BlockHandles(sh, b, 0)[GetBlockIndex(h)] == h;
    }
  }

  /** The same in terms of the handle's fields. */
  lemma {:induction false} ExistsByFields(sh: Shape, started: bool, blocks: nat, h: Handle)
    requires ValidShape(sh) && blocks <= HANDLE_NUM_BLOCKS
    ensures Exists(sh, started, blocks, h) <==>
            && started
            && GetMpiKind(h) == sh.kind
            && (|| (GetKind(h) == HANDLE_KIND_DIRECT && GetIndex(h) < sh.directSize)
                || (GetKind(h) == HANDLE_KIND_INDIRECT && GetBlock(h) < blocks
                    && GetBlockIndex(h) < HANDLE_NUM_INDICES))
  {
    if blocks == 0 {
      InDirect(sh, h);
    } else {
      ExistsByFields(sh, started, blocks - 1, h);
      InBlock(sh, blocks - 1, h);
    }
  }

  function Capacity(sh: Shape, s: PoolState): int {
    if s.started then sh.directSize + HANDLE_NUM_INDICES * s.blocks else 0
  }

  datatype Outcome = Fails | Gets(h: Handle)

  /** An allocation.  The two flags say whether the operating system would provide the block table
      and a new block. */
  function Alloc(sh: Shape, s: PoolState, tableMemory: bool, blockMemory: bool): (PoolState, Outcome)
    requires ValidShape(sh)
  {
    if s.free != [] then
      (s.(free := s.free[1..], live := s.live + {s.free[0]}), Gets(s.free[0]))
    else if !s.started then
      var h := DirectHandle(sh.kind, 0);
      (s.(started := true, free := DirectHandles(sh, 1), live := s.live + {h}), Gets(h))
    else if !s.table && !tableMemory then (s, Fails)
    else if s.blocks >= HANDLE_NUM_BLOCKS || !blockMemory then (s.(table := true), Fails)
    else
      var h := IndirectHandle(sh.kind, s.blocks, 0);
      (s.(table := true, blocks := s.blocks + 1, free := BlockHandles(sh, s.blocks, 1), live := s.live + {h}),
       Gets(h))
  }

  function Free(s: PoolState, h: Handle): PoolState {
    s.(free := [h] + s.free, live := s.live - {h})
  }

  predicate Distinct(q: seq<Handle>) {
    forall i, j :: 0 <= i < j < |q| ==> q[i] != q[j]
  }

  /** The objects that exist split exactly into the live ones and the free list, which repeats
      nothing. */
  ghost predicate Inv(sh: Shape, s: PoolState) {
    && ValidShape(sh) && s.blocks <= HANDLE_NUM_BLOCKS
    && Distinct(s.free)
    && (forall h :: h in s.free ==> h !in s.live)
    && (forall h :: Exists(sh, s.started, s.blocks, h) <==> h in s.free || h in s.live)
    && |s.free| + |s.live| == Capacity(sh, s)
    && (!s.started ==> s.blocks == 0)
  }

  /** The handles of a block are its first one and the rest, all different. */
  lemma DirectHandlesSplit(sh: Shape)
    requires ValidShape(sh)
    ensures DirectHandles(sh, 0) == [DirectHandle(sh.kind, 0)] + DirectHandles(sh, 1)
    ensures Distinct(DirectHandles(sh, 0))
  {
  }

  lemma BlockHandlesSplit(sh: Shape, b: int)
    requires ValidShape(sh) && 0 <= b < HANDLE_NUM_BLOCKS
    ensures BlockHandles(sh, b, 0) == [IndirectHandle(sh.kind, b, 0)] + BlockHandles(sh, b, 1)
    ensures Distinct(BlockHandles(sh, b, 0))
  {
  }

  /** The handles of a new block do not exist before. */
  lemma NewBlockIsNew(sh: Shape, started: bool, b: nat, h: Handle)
    requires ValidShape(sh) && b < HANDLE_NUM_BLOCKS && h in BlockHandles(sh, b, 0)
    ensures !Exists(sh, started, b, h)
  {
    InBlock(sh, b, h);
    ExistsByFields(sh, started, b, h);
  }

  lemma AllocKeepsInv(sh: Shape, s: PoolState, tableMemory: bool, blockMemory: bool)
    requires Inv(sh, s)
    ensures Inv(sh, Alloc(sh, s, tableMemory, blockMemory).0)
  {
    var (s', r) := Alloc(sh, s, tableMemory, blockMemory);
    if s.free != [] {
      assert s.free == [s.free[0]] + s.free[1..];
    } else if !s.started {
      FirstBlockKeepsInv(sh, s, s');
    } else if r.Gets? {
      AddedBlockKeepsInv(sh, s, s');
    }
  }

  lemma FirstBlockKeepsInv(sh: Shape, s: PoolState, s': PoolState)
    requires Inv(sh, s) && !s.started && s.free == []
    requires s' == PoolState(true, s.table, 0, DirectHandles(sh, 1), s.live + {DirectHandle(sh.kind, 0)})
    ensures Inv(sh, s')
  {
    var q := DirectHandles(sh, 0);
    DirectHandlesSplit(sh);
    assert s.live == {} by {
      assert forall h :: !Exists(sh, s.started, s.blocks, h);
    }
    assert forall h :: h in q <==> h == q[0] || h in s'.free;
  }

  lemma AddedBlockKeepsInv(sh: Shape, s: PoolState, s': PoolState)
    requires Inv(sh, s) && s.started && s.free == [] && s.blocks < HANDLE_NUM_BLOCKS
    requires s' == PoolState(true, true, s.blocks + 1, BlockHandles(sh, s.blocks, 1),
                             s.live + {IndirectHandle(sh.kind, s.blocks, 0)})
    ensures Inv(sh, s')
  {
    var q := BlockHandles(sh, s.blocks, 0);
    BlockHandlesSplit(sh, s.blocks);
    forall h | h in q ensures h !in s.live {
      NewBlockIsNew(sh, true, s.blocks, h);
    }
    assert q[0] in q;
    assert forall h :: h in q <==> h == q[0] || h in s'.free;
  }

  lemma FreeKeepsInv(sh: Shape, s: PoolState, h: Handle)
    requires Inv(sh, s) && h in s.live
    ensures Inv(sh, Free(s, h))
  {
  }

  /** What an allocation does: it fails exactly when nothing is free and no block can be added; and
      what it returns was not live, exists afterwards, and is the only change to the live set. */
  lemma AllocMeaning(sh: Shape, s: PoolState, tableMemory: bool, blockMemory: bool)
    requires Inv(sh, s)
    ensures var (s', r) := Alloc(sh, s, tableMemory, blockMemory);
            && (r.Fails? <==> s.started && s.free == []
                              && (s.blocks == 8192 || (!s.table && !tableMemory) || !blockMemory))
            && (r.Fails? ==> s'.live == s.live && s'.free == s.free && s'.blocks == s.blocks)
            && s'.blocks <= HANDLE_NUM_BLOCKS
            && (r.Gets? ==>
                  && r.h !in s.live && s'.live == s.live + {r.h} && r.h !in s'.free
                  && Exists(sh, s'.started, s'.blocks, r.h)
                  && (Exists(sh, s.started, s.blocks, r.h) ==> s.free != [] && r.h == s.free[0]))
  {
    AllocKeepsInv(sh, s, tableMemory, blockMemory);
    var (s', r) := Alloc(sh, s, tableMemory, blockMemory);
    if s.free == [] && s.started && r.Gets? {
      BlockHandlesSplit(sh, s.blocks);
      NewBlockIsNew(sh, true, s.blocks, r.h);
    }
  }

  // ----- runs

  datatype Op = DoAlloc(tableMemory: bool, blockMemory: bool) | DoFree(h: Handle)

  function Perform(sh: Shape, s: PoolState, op: Op): PoolState
    requires ValidShape(sh)
  {
    match op
    case DoAlloc(t, b) => Alloc(sh, s, t, b).0
    case DoFree(h) => Free(s, h)
  }

  /** A program may free only what it holds. */
  ghost predicate Run(sh: Shape, states: seq<PoolState>, ops: seq<Op>)
    requires ValidShape(sh)
  {
    && |states| == |ops| + 1 && states[0] == EMPTY
    && forall i :: 0 <= i < |ops| ==>
                     && (ops[i].DoFree? ==> ops[i].h in states[i].live)
                     && states[i + 1] == Perform(sh, states[i], ops[i])
  }

  /** In every state of every run, live objects and free list partition the objects, and together
      they number direct_size + 1024 * blocks. */
  lemma {:induction false} RunKeepsInv(sh: Shape, states: seq<PoolState>, ops: seq<Op>, i: nat)
    requires ValidShape(sh) && Run(sh, states, ops) && i < |states|
    ensures Inv(sh, states[i])
    ensures states[i].blocks <= 8192
    ensures states[i].started ==> |states[i].live| + |states[i].free| == sh.directSize + 1024 * states[i].blocks
  {
    if i > 0 {
      RunKeepsInv(sh, states, ops, i - 1);
      match ops[i - 1]
      case DoAlloc(t, b) => AllocKeepsInv(sh, states[i - 1], t, b);
      case DoFree(h) => FreeKeepsInv(sh, states[i - 1], h);
    }
  }

  lemma PerformKeepsExisting(sh: Shape, s: PoolState, op: Op, h: Handle)
    requires Inv(sh, s) && Exists(sh, s.started, s.blocks, h)
    ensures var s' := Perform(sh, s, op);
            s'.blocks <= HANDLE_NUM_BLOCKS && Exists(sh, s'.started, s'.blocks, h)
  {
    ExistsByFields(sh, s.started, s.blocks, h);
    var s' := Perform(sh, s, op);
    ExistsByFields(sh, s'.started, s'.blocks, h);
  }

  /** An object, once it exists, exists for the rest of the run: blocks are never given back. */
  lemma {:induction false} ExistsForever(sh: Shape, states: seq<PoolState>, ops: seq<Op>, i: nat, j: nat, h: Handle)
    requires ValidShape(sh) && Run(sh, states, ops) && i <= j < |states|
    requires states[i].blocks <= HANDLE_NUM_BLOCKS && Exists(sh, states[i].started, states[i].blocks, h)
    ensures states[j].blocks <= HANDLE_NUM_BLOCKS && Exists(sh, states[j].started, states[j].blocks, h)
  {
    if i < j {
      ExistsForever(sh, states, ops, i, j - 1, h);
      RunKeepsInv(sh, states, ops, j - 1);
      PerformKeepsExisting(sh, states[j - 1], ops[j - 1], h);
    }
  }

  /** Between two allocations that return the same object there is a free of it: a live object is
      never handed out again. */
  lemma {:induction false} NeverHandedOutTwice(sh: Shape, states: seq<PoolState>, ops: seq<Op>, i: nat, j: nat, h: Handle)
    requires ValidShape(sh) && Run(sh, states, ops) && i <= j < |ops|
    requires h in states[i].live
    requires forall n :: i <= n < j ==> ops[n] != DoFree(h)
    ensures h in states[j].live
    ensures ops[j].DoAlloc? ==> Alloc(sh, states[j], ops[j].tableMemory, ops[j].blockMemory).1 != Gets(h)
    decreases j - i
  {
    RunKeepsInv(sh, states, ops, j);
    if i < j {
      NeverHandedOutTwice(sh, states, ops, i, j - 1, h);
    }
    if ops[j].DoAlloc? {
      AllocMeaning(sh, states[j], ops[j].tableMemory, ops[j].blockMemory);
    }
  }

  /** Whatever is live in a run lies in the direct or the indirect quarter of the handle space and
      carries the pool's kind: a builtin or invalid handle is never handed out. */
  lemma LiveHandleNumbers(sh: Shape, states: seq<PoolState>, ops: seq<Op>, i: nat, h: Handle)
    requires ValidShape(sh) && Run(sh, states, ops) && i < |states| && h in states[i].live
    ensures 0x8000_0000 <= h
    ensures h < 0xC000_0000 ==> 0 <= h - 0x8000_0000 - sh.kind * 0x400_0000 < sh.directSize
    ensures h >= 0xC000_0000 ==> 0 <= h - 0xC000_0000 - sh.kind * 0x400_0000 < states[i].blocks * 0x1000
  {
    RunKeepsInv(sh, states, ops, i);
    var s := states[i];
    assert Exists(sh, s.started, s.blocks, h);
    ExistsByFields(sh, s.started, s.blocks, h);
    KindQuarters(h);
    FieldsDetermine(h);
  }

  // ----- which handle comes when

  /** The n-th object of a pool: the direct block in order, then block after block. */
  function Nth(sh: Shape, n: nat): Handle
    requires ValidShape(sh) && n < sh.directSize + 1024 * 8192
  {
    if n < sh.directSize then DirectHandle(sh.kind, n)
    else
      var m := n - sh.directSize;
      IndirectHandle(sh.kind, m / 1024, m % 1024)
  }

  // The pool after n allocations and no free, with memory for every block.
  function Fresh(sh: Shape, n: nat): PoolState
    requires ValidShape(sh)
  {
    if n == 0 then EMPTY else Alloc(sh, Fresh(sh, n - 1), true, true).0
  }

  /** What is left of the newest block after n allocations. */
  ghost predicate FreshOk(sh: Shape, s: PoolState, n: nat)
    requires ValidShape(sh) && n <= sh.directSize + 1024 * 8192
  {
    if n == 0 then s == EMPTY
    else if n <= sh.directSize then s.started && s.blocks == 0 && s.free == DirectHandles(sh, n)
    else
      var m := n - sh.directSize - 1;
      s.started && s.blocks == m / 1024 + 1 && s.free == BlockHandles(sh, m / 1024, m % 1024 + 1)
  }

  lemma FreshStep(sh: Shape, s: PoolState, n: nat)
    requires ValidShape(sh) && n < sh.directSize + 1024 * 8192 && FreshOk(sh, s, n)
    ensures var (s', r) := Alloc(sh, s, true, true);
      r == Gets(Nth(sh, n)) && FreshOk(sh, s', n + 1)
  {
    var (s', r) := Alloc(sh, s, true, true);
    if 0 < n < sh.directSize {
      assert s'.free == DirectHandles(sh, n + 1);
    } else if n > sh.directSize {
      var m := n - sh.directSize;
      if m % 1024 != 0 {
        assert (m - 1) / 1024 == m / 1024 && (m - 1) % 1024 + 1 == m % 1024;
        assert s'.free == BlockHandles(sh, m / 1024, m % 1024 + 1);
      } else {
        assert (m - 1) / 1024 + 1 == m / 1024 && (m - 1) % 1024 + 1 == 1024;
      }
    }
  }

  lemma {:induction false} FreshIs(sh: Shape, n: nat)
    requires ValidShape(sh) && n <= sh.directSize + 1024 * 8192
    ensures FreshOk(sh, Fresh(sh, n), n)
  {
    if n > 0 {
      FreshIs(sh, n - 1);
      FreshStep(sh, Fresh(sh, n - 1), n - 1);
    }
  }

  /** Without frees the pool hands out its objects in order, 1024 to a block, and after the last of
      8192 blocks it fails. */
  lemma AllocsInOrder(sh: Shape, n: nat)
    requires ValidShape(sh) && n <= sh.directSize + 1024 * 8192
    ensures var r := Alloc(sh, Fresh(sh, n), true, true).1;
      if n < sh.directSize + 1024 * 8192 then r == Gets(Nth(sh, n)) else r == Fails
  {
    FreshIs(sh, n);
    if n < sh.directSize + 1024 * 8192 {
      FreshStep(sh, Fresh(sh, n), n);
    }
  }

  /** What was freed last is handed out first. */
  lemma LastFreedFirst(sh: Shape, s: PoolState, h: Handle, tableMemory: bool, blockMemory: bool)
    requires Inv(sh, s) && h in s.live
    ensures Alloc(sh, Free(s, h), tableMemory, blockMemory) == (s, Gets(h))
  {
    var f := Free(s, h);
    assert f.free[1..] == s.free && f.live + {h} == s.live;
  }
}
