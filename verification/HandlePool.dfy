/** The pooled allocator of src/include/mpir_handlemem.h over linked objects, proved against
    PoolSpec.

    A free object's `next` chains it into the avail list.  A live object's own data overlays that
    field, so nothing here may depend on the `next` of a live object.
 */
module HandlePool {
  import opened Handles
  import opened PoolSpec

  class Object {
    var handle: Handle
    var next: Object?

    constructor ()
    {
      handle, next := 0, null;
    }
  }

  predicate NoRepeats(objs: seq<Object>) {
    forall i, j :: 0 <= i < j < |objs| ==> objs[i] != objs[j]
  }

  /** The element after position i, null after the last one. */
  function Following(objs: seq<Object>, i: nat): Object? {
    if i + 1 < |objs| then objs[i + 1] else null
  }

  /** objs are linked in order, the last one to null. */
  ghost predicate Chained(objs: seq<Object>)
    reads objs
  {
    forall i {:trigger objs[i].next} :: 0 <= i < |objs| ==> objs[i].next == Following(objs, i)
  }

  /** objs carry these handles, in order. */
  ghost predicate Labelled(objs: seq<Object>, handles: seq<Handle>)
    reads objs`handle
  {
    |objs| == |handles| && forall i :: 0 <= i < |objs| ==> objs[i].handle == handles[i]
  }

  lemma ChainTail(objs: seq<Object>)
    requires Chained(objs) && objs != []
    ensures objs[0].next == (if objs[1..] == [] then null else objs[1..][0])
    ensures Chained(objs[1..])
  {
    var tail := objs[1..];
    forall i | 0 <= i < |tail| ensures tail[i].next == Following(tail, i) {
      assert objs[i + 1].next == Following(objs, i + 1);
    }
  }

  lemma ChainPush(o: Object, objs: seq<Object>)
    requires Chained(objs) && o !in objs
    requires o.next == if objs == [] then null else objs[0]
    ensures Chained([o] + objs)
  {
    var all := [o] + objs;
    forall i | 0 <= i < |all| ensures all[i].next == Following(all, i) {
      if i > 0 {
        assert objs[i - 1].next == Following(objs, i - 1);
      }
    }
  }

  /** The storage of one block, as calloc returns it. */
  method NewBlock(n: nat) returns (objs: seq<Object>)
    ensures |objs| == n && NoRepeats(objs) && fresh(objs)
  {
    objs := [];
    for i := 0 to n
      invariant |objs| == i && NoRepeats(objs) && fresh(objs)
    {
      var o := new Object();
      objs := objs + [o];
    }
  }

  /** The loop shared by MPIR_Handle_direct_init and MPIR_Handle_indirect_init: chain the objects in
      order and give each its handle. */
  method InitBlock(objs: seq<Object>, handles: seq<Handle>)
    requires |objs| == |handles| > 0 && NoRepeats(objs)
    modifies objs
    ensures Chained(objs) && Labelled(objs, handles)
  {
    for i := 0 to |objs|
      invariant forall k :: 0 <= k < i ==> objs[k].handle == handles[k]
      invariant forall k :: 0 <= k < i ==> objs[k].next == Following(objs, k)
    {
      objs[i].next := Following(objs, i);
      objs[i].handle := handles[i];
    }
  }

  class Pool {
    const shape: Shape
    const direct: seq<Object>
    var avail: Object?
    var initialized: bool
    var hasTable: bool
    var indirect: seq<seq<Object>>

    /** The abstract state, and the objects on the avail list in order. */
    ghost var view: PoolState
    ghost var chain: seq<Object>

    /** All objects of the pool. */
    ghost function Objects(): set<Object>
      reads this`indirect
    {
      (set o | o in direct) + (set b, i | 0 <= b < |indirect| && 0 <= i < |indirect[b]| :: indirect[b][i])
    }

    /** Each object carries the handle of its place. */
    ghost predicate HandlesInPlace()
      reads this`indirect, this`initialized, Objects()`handle
    {
      && ValidShape(shape) && |direct| == shape.directSize && NoRepeats(direct)
      && |indirect| <= HANDLE_NUM_BLOCKS
      && (initialized ==> Labelled(direct, DirectHandles(shape, 0)))
      && forall b :: 0 <= b < |indirect| ==> Labelled(indirect[b], BlockHandles(shape, b, 0))
    }

    /** The avail list is the chain, link by link, and it holds the free handles in order. */
    ghost predicate ListInPlace()
      reads this`avail, this`chain, this`view, this`indirect, chain
    {
      && avail == (if chain == [] then null else chain[0])
      && Chained(chain)
      && Labelled(chain, view.free)
      && forall o :: o in chain ==> o in Objects()
    }

    ghost predicate Valid()
      reads this, Objects(), chain
    {
      && HandlesInPlace()
      && ListInPlace()
      && view.started == initialized && view.table == hasTable && view.blocks == |indirect|
      && PoolSpec.Inv(shape, view)
    }

    constructor (shape: Shape, direct: seq<Object>)
      requires ValidShape(shape) && |direct| == shape.directSize && NoRepeats(direct)
      ensures Valid() && view == EMPTY && this.shape == shape && this.direct == direct
    {
      this.shape, this.direct := shape, direct;
      avail, initialized, hasTable, indirect := null, false, false, [];
      view, chain := EMPTY, [];
    }

    /** MPIR_Handle_obj_alloc_unsafe.  It changes no object that was already in use. */
    method Alloc(tableMemory: bool, blockMemory: bool) returns (o: Object?)
      requires Valid()
      modifies this, if initialized then {} else set d | d in direct
      ensures Valid()
      ensures (view, if o == null then Fails else Gets(o.handle))
           == PoolSpec.Alloc(shape, old(view), tableMemory, blockMemory)
      ensures o != null ==> o in Objects()
      ensures old(indirect) <= indirect
    {
      if avail != null {
        o := TakeFirst(tableMemory, blockMemory);
      } else if !initialized {
        o := FirstBlock(tableMemory, blockMemory);
      } else {
        if !hasTable {
          if !tableMemory {
            return null;
          }
          hasTable := true;
          view := view.(table := true);
        }
        if |indirect| >= HANDLE_NUM_BLOCKS || !blockMemory {
          return null;
        }
        o := NextBlock(tableMemory, blockMemory);
      }
    }

    /** The common case: unlink the first free object. */
    method TakeFirst(ghost tableMemory: bool, ghost blockMemory: bool) returns (o: Object)
      requires Valid() && avail != null
      modifies this`avail, this`view, this`chain
      ensures Valid() && o in Objects()
      ensures (view, Gets(o.handle)) == PoolSpec.Alloc(shape, old(view), tableMemory, blockMemory)
    {
      AllocKeepsInv(shape, view, tableMemory, blockMemory);
      ChainTail(chain);
      o := avail;
      avail := avail.next;
      chain := chain[1..];
      view := PoolSpec.Alloc(shape, view, tableMemory, blockMemory).0;
    }

    /** MPIR_Handle_direct_init: the direct block is set up at the first allocation. */
    method FirstBlock(ghost tableMemory: bool, ghost blockMemory: bool) returns (o: Object)
      requires Valid() && !initialized && avail == null
      modifies this`initialized, this`avail, this`view, this`chain, direct
      ensures Valid() && o in Objects()
      ensures (view, Gets(o.handle)) == PoolSpec.Alloc(shape, old(view), tableMemory, blockMemory)
    {
      initialized := true;
      InitBlock(direct, DirectHandles(shape, 0));
      ChainTail(direct);
      o := direct[0];
      avail := o.next;
      chain := direct[1..];
      StartView(tableMemory, blockMemory);
      assert Labelled(chain, view.free);
    }

    /** The abstract counterpart of setting up the direct block. */
    ghost method StartView(tableMemory: bool, blockMemory: bool)
      requires PoolSpec.Inv(shape, view) && view.free == [] && !view.started
      modifies this`view
      ensures PoolSpec.Inv(shape, view)
      ensures (view, Gets(DirectHandle(shape.kind, 0)))
           == PoolSpec.Alloc(shape, old(view), tableMemory, blockMemory)
      ensures view.started && view.table == old(view.table) && view.blocks == old(view.blocks)
      ensures view.free == DirectHandles(shape, 1)
    {
      AllocKeepsInv(shape, view, tableMemory, blockMemory);
      view := PoolSpec.Alloc(shape, view, tableMemory, blockMemory).0;
    }

    /** MPIR_Handle_indirect_init: later blocks are added to the table one at a time. */
    method NextBlock(ghost tableMemory: bool, ghost blockMemory: bool) returns (o: Object)
      requires Valid() && initialized && avail == null && hasTable && blockMemory
      requires |indirect| < HANDLE_NUM_BLOCKS
      modifies this`indirect, this`avail, this`view, this`chain
      ensures Valid() && o in Objects() && old(indirect) <= indirect
      ensures (view, Gets(o.handle)) == PoolSpec.Alloc(shape, old(view), tableMemory, blockMemory)
    {
      var block := MakeBlock();
      o := AddBlock(block);
      GrowView(tableMemory, blockMemory);
    }

    /** The storage of the next block, chained and labelled. */
    method MakeBlock() returns (block: seq<Object>)
      requires ValidShape(shape) && |indirect| < HANDLE_NUM_BLOCKS
      ensures fresh(block) && |block| == HANDLE_NUM_INDICES
      ensures Chained(block) && Labelled(block, BlockHandles(shape, |indirect|, 0))
    {
      block := NewBlock(HANDLE_NUM_INDICES);
      InitBlock(block, BlockHandles(shape, |indirect|, 0));
    }

    /** The abstract counterpart of a new block. */
    ghost method GrowView(tableMemory: bool, blockMemory: bool)
      requires PoolSpec.Inv(shape, view) && view.free == [] && view.started && view.table && blockMemory
      requires view.blocks < HANDLE_NUM_BLOCKS
      modifies this`view
      ensures PoolSpec.Inv(shape, view)
      ensures (view, Gets(IndirectHandle(shape.kind, old(view.blocks), 0)))
           == PoolSpec.Alloc(shape, old(view), tableMemory, blockMemory)
      ensures view.started && view.table && view.blocks == old(view.blocks) + 1
      ensures view.free == BlockHandles(shape, old(view.blocks), 1)
    {
      AllocKeepsInv(shape, view, tableMemory, blockMemory);
      view := PoolSpec.Alloc(shape, view, tableMemory, blockMemory).0;
    }

    /** Enter an initialized block into the table and put all but its first object on the list. */
    method AddBlock(block: seq<Object>) returns (o: Object)
      requires HandlesInPlace() && |indirect| < HANDLE_NUM_BLOCKS && block != []
      requires Chained(block) && Labelled(block, BlockHandles(shape, |indirect|, 0))
      modifies this`indirect, this`avail, this`chain
      ensures HandlesInPlace() && indirect == old(indirect) + [block]
      ensures avail == (if chain == [] then null else chain[0])
      ensures chain == block[1..] && Chained(chain)
      ensures Labelled(chain, BlockHandles(shape, |indirect| - 1, 1))
      ensures o in Objects() && o.handle == IndirectHandle(shape.kind, old(|indirect|), 0)
      ensures forall p :: p in chain ==> p in Objects()
    {
      ChainTail(block);
      o := block[0];
      indirect := indirect + [block];
      avail := block[0].next;
      chain := block[1..];
      forall p | p in block ensures p in Objects() {
        var i :| 0 <= i < |block| && block[i] == p;
        assert indirect[|indirect| - 1][i] == p;
      }
    }

    /** MPIR_Handle_obj_free. */
    method Free(o: Object)
      requires Valid() && o in Objects() && o.handle in view.live
      modifies this`avail, this`view, this`chain, o`next
      ensures Valid() && view == PoolSpec.Free(old(view), o.handle)
    {
      assert o !in chain;
      Push(o);
      FreeView(o.handle);
    }

    /** Put an object at the front of the list. */
    method Push(o: Object)
      requires ListInPlace() && o in Objects() && o !in chain
      modifies this`avail, this`chain, o`next
      ensures avail == o && chain == [o] + old(chain) && Chained(chain)
      ensures Labelled(chain, [o.handle] + view.free)
    {
      o.next := avail;
      avail := o;
      ChainPush(o, chain);
      chain := [o] + chain;
    }

    /** The abstract counterpart of a free. */
    ghost method FreeView(h: Handle)
      requires PoolSpec.Inv(shape, view) && h in view.live
      modifies this`view
      ensures PoolSpec.Inv(shape, view) && view == PoolSpec.Free(old(view), h)
      ensures view.free == [h] + old(view.free)
      ensures view.started == old(view.started) && view.table == old(view.table) && view.blocks == old(view.blocks)
    {
      FreeKeepsInv(shape, view, h);
      view := PoolSpec.Free(view, h);
    }

    /** The owner of a live object may overwrite the word that `next` shares with its own data. */
    method OwnerWrites(o: Object, data: Object?)
      requires Valid() && o in Objects() && o.handle in view.live
      modifies o`next
      ensures Valid()
    {
      assert o !in chain;
      o.next := data;
    }

    /** Every handle that exists names exactly one object. */
    lemma UniqueObject(o: Object, p: Object)
      requires HandlesInPlace() && initialized && o in Objects() && p in Objects() && o.handle == p.handle
      ensures o == p
    {
      ObjectPlace(o);
      ObjectPlace(p);
    }

    /** The place of an object is given by its handle's fields. */
    lemma ObjectPlace(o: Object)
      requires HandlesInPlace() && initialized && o in Objects()
      ensures GetMpiKind(o.handle) == shape.kind
      ensures || (GetKind(o.handle) == HANDLE_KIND_DIRECT
                  && GetIndex(o.handle) < |direct| && o == direct[GetIndex(o.handle)])
              || (GetKind(o.handle) == HANDLE_KIND_INDIRECT
                  && GetBlock(o.handle) < |indirect| && GetBlockIndex(o.handle) < |indirect[GetBlock(o.handle)]|
                  && o == indirect[GetBlock(o.handle)][GetBlockIndex(o.handle)])
    {
      if o in direct {
        var i :| 0 <= i < |direct| && direct[i] == o;
        DirectFields(shape.kind, i);
      } else {
        var b, i :| 0 <= b < |indirect| && 0 <= i < |indirect[b]| && indirect[b][i] == o;
        assert Labelled(indirect[b], BlockHandles(shape, b, 0));
        IndirectFields(shape.kind, b, i);
      }
    }

    /** MPIR_Get_ptr: the object a handle refers to.  A direct index, and an index into an existing
        block, are not range-checked by the source; `wild` marks the pointers that then result. */
    method Lookup(h: Handle) returns (o: Object?, wild: bool)
      requires Valid() && initialized
      ensures wild ==> o == null
      ensures wild <==> (GetKind(h) == HANDLE_KIND_DIRECT && GetIndex(h) >= shape.directSize)
                        || (GetKind(h) == HANDLE_KIND_INDIRECT && GetMpiKind(h) == shape.kind
                            && GetBlock(h) < |indirect| && GetBlockIndex(h) >= HANDLE_NUM_INDICES)
      ensures PoolSpec.Exists(shape, true, |indirect|, h) ==> o != null && o in Objects() && o.handle == h
      ensures o != null && GetMpiKind(h) == shape.kind ==> o in Objects() && o.handle == h
      ensures o != null && GetMpiKind(h) != shape.kind ==> GetKind(h) == HANDLE_KIND_DIRECT && o.handle != h
    {
      o, wild := null, false;
      FieldsDetermine(h);
      ExistsByFields(shape, true, |indirect|, h);
      if GetKind(h) == HANDLE_KIND_DIRECT {
        if GetIndex(h) < |direct| {
          o := direct[GetIndex(h)];
          DirectFields(shape.kind, GetIndex(h));
        } else {
          wild := true;
        }
      } else if GetKind(h) == HANDLE_KIND_INDIRECT {
        if GetMpiKind(h) != shape.kind {
          return;
        }
        var block, index := GetBlock(h), GetBlockIndex(h);
        if block >= |indirect| {
          return;
        }
        assert Labelled(indirect[block], BlockHandles(shape, block, 0));
        if index < |indirect[block]| {
          o := indirect[block][index];
          IndirectFields(shape.kind, block, index);
        } else {
          wild := true;
        }
      }
    }
  }
}
