/**
 * The performance-variable objects themselves: a watermark variable with its cached first handle
 * and the further handles in a doubly linked list, updated in place. Every method performs the
 * operation of the same name of `Watermark`, and a ghost history of the operations says what a
 * read returns.
 */
module Pvar {
  import opened Watermark

  class Handle {
    var first: bool
    var started: bool
    var once: bool
    var watermark: real
    var next2: Handle?
    var prev2: Handle?

    function Fields(): HandleFields
      reads this`first, this`started, this`once, this`watermark
    {
      HandleFields(first, started, once, watermark)
    }

    // A zeroed handle, which is started if its variable is continuous.
    constructor (continuous: bool)
      ensures Fields() == HandleFields(false, continuous, continuous, 0.0) && next2 == null && prev2 == null
    {
      first, started, once, watermark := false, continuous, continuous, 0.0;
      next2, prev2 := null, null;
    }
  }

  // ---- The links of a list ----

  function NextIn(chain: seq<Handle>, k: nat): Handle?
    requires k < |chain|
  {
    if k + 1 < |chain| then chain[k + 1] else null
  }

  // The head's back link points to itself.
  function PrevIn(chain: seq<Handle>, k: nat): Handle
    requires k < |chain|
  {
    if k > 0 then chain[k - 1] else chain[0]
  }

  ghost predicate Linked(chain: seq<Handle>, head: Handle?)
    reads chain`next2, chain`prev2
  {
    && head == (if chain == [] then null else chain[0])
    && (forall k: nat {:trigger chain[k].next2} :: k < |chain| ==> chain[k].next2 == NextIn(chain, k))
    && (forall k: nat {:trigger chain[k].prev2} :: k < |chain| ==> chain[k].prev2 == PrevIn(chain, k))
  }

  // Links the neighbours of a handle that is not the head to each other.
  method Bypass(ghost all: seq<Handle>, hnd: Handle, ghost k: nat)
    requires 0 < k < |all| && all[k] == hnd && Linked(all, all[0])
    requires forall i, j :: 0 <= i < j < |all| ==> all[i] != all[j]
    modifies all`next2, all`prev2
    ensures forall m: nat :: m < |all| ==> all[m].next2 == if m == k - 1 then NextIn(all, k) else NextIn(all, m)
    ensures forall m: nat :: m < |all| ==> all[m].prev2 == if m == k + 1 then all[k - 1] else PrevIn(all, m)
  {
    hnd.prev2.next2 := hnd.next2;
    if hnd.next2 != null {
      hnd.next2.prev2 := hnd.prev2;
    }
  }

  // The walk along a list.
  method UpdateListed(info: Info, hlist: Handle?, ghost chain: seq<Handle>, v: real)
    requires Linked(chain, hlist) && forall i, j :: 0 <= i < j < |chain| ==> chain[i] != chain[j]
    modifies chain`watermark
    ensures forall k: nat :: k < |chain| ==> chain[k].Fields() == UpdatedHandle(info, true, old(chain[k].Fields()), v)
  {
    var head := hlist;
    ghost var i: nat := 0;
    while head != null
      invariant i <= |chain| && head == (if i < |chain| then chain[i] else null)
      invariant forall k: nat :: k < |chain| ==> chain[k].Fields() == UpdatedHandle(info, k < i, old(chain[k].Fields()), v)
      decreases |chain| - i
    {
      if head.started && Beats(info.high, v, head.watermark) {
        head.watermark := v;
      }
      head := head.next2;
      i := i + 1;
    }
  }

  class Variable {
    const info: Info
    var current: real
    var watermark: real
    var firstUsed: bool
    var firstStarted: bool
    var hlist: Handle?
    ghost var chain: seq<Handle>            // the list from `hlist` on
    ghost var handles: set<Handle>          // the allocated handles
    ghost var view: State<Handle>           // the abstract state
    ghost const level0: real                // the level at initialization
    ghost var ops: seq<Op<Handle>>          // what has been done since

    // The list is well linked and holds allocated handles other than the cached one, each once.
    ghost predicate Tidy()
      reads this`hlist, this`chain, this`handles, chain`next2, chain`prev2, chain`first
    {
      && Linked(chain, hlist) && Unique(chain)
      && (forall h <- chain :: h in handles && !h.first)
      && (!info.marked ==> chain == [])
    }

    // The objects hold the abstract state.
    ghost predicate Matches()
      reads this`current, this`watermark, this`firstUsed, this`firstStarted, this`chain, this`handles, this`view,
            handles`first, handles`started, handles`once, handles`watermark
    {
      && view.info == info && view.caching && view.current == current && view.watermark == watermark
      && view.firstUsed == firstUsed && view.firstStarted == firstStarted && view.hlist == chain
      && view.handles.Keys == handles && forall h <- handles :: h.Fields() == view.handles[h]
    }

    // An abstract state is what a history of operations calls for.
    ghost predicate Explains(history: seq<Op<Handle>>, v: State<Handle>) {
      && v.info == info && v.current == Level(level0, history)
      && (info.marked ==> Inv(v, level0, history))
    }

    ghost predicate Valid()
      reads this, handles, chain
    {
      Tidy() && Matches() && Explains(ops, view)
    }

    constructor (info: Info, level: real)
      ensures Valid() && handles == {} && ops == [] && level0 == level && this.info == info
    {
      this.info, level0 := info, level;
      current, firstStarted, firstUsed, hlist := level, false, false, null;
      chain, handles, ops := [], {}, [];
      new;
      view := Init(info, true, level, watermark);
    }

    lemma ExplainsStep(history: seq<Op<Handle>>, v: State<Handle>, op: Op<Handle>)
      requires Explains(history, v) && Enabled(v, op)
      ensures Explains(history + [op], Apply(v, op))
    {
      var all := history + [op];
      assert all[..|all| - 1] == history && all[|all| - 1] == op;
      CurrentAfter(v, op);
      if info.marked {
        InvKept(v, level0, all);
      }
    }

    // Adds an operation to the history.
    ghost method Note(before: State<Handle>, op: Op<Handle>)
      requires Tidy() && Matches()
      requires Explains(ops, before) && Enabled(before, op) && view == Apply(before, op)
      modifies this`ops
      ensures ops == old(ops) + [op] && Valid()
    {
      ExplainsStep(ops, before, op);
      ops := ops + [op];
    }

    // ---- Updating the level ----

    method Update(v: real)
      requires Valid()
      modifies this, handles
      ensures Valid() && handles == old(handles) && ops == old(ops) + [Op<Handle>.Update(v)]
    {
      ghost var before := view;
      UpdateImpl(v);
      Note(before, Op<Handle>.Update(v));
    }

    method UpdateImpl(v: real)
      requires Tidy() && Matches()
      modifies this`current, this`watermark, this`view, handles`watermark
      ensures Matches() && view == DoUpdate(old(view), v)
    {
      current := v;
      if firstUsed && firstStarted {
        if Beats(info.high, v, watermark) {
          watermark := v;
        }
      }
      UniquePairs(chain);
      UpdateListed(info, hlist, chain, v);
      forall h <- handles
        ensures h.Fields() == UpdatedHandle(info, h in chain, view.handles[h], v)
      {
        if h in chain {
          var k: nat :| k < |chain| && chain[k] == h;
        }
      }
      UpdateView(v);
    }

    // The abstract counterpart of an update.
    ghost method UpdateView(v: real)
      requires view.info == info && view.caching && current == v && view.handles.Keys == handles
      requires view.firstUsed == firstUsed && view.firstStarted == firstStarted && view.hlist == chain
      requires watermark == if firstUsed && firstStarted then Raise(info.high, v, view.watermark) else view.watermark
      requires forall h <- handles :: h.Fields() == UpdatedHandle(info, h in chain, view.handles[h], v)
      modifies this`view
      ensures Matches() && view == DoUpdate(old(view), v)
    {
      view := DoUpdate(view, v);
    }

    // ---- Allocating and freeing handles ----

    method HandleAlloc() returns (hnd: Handle)
      requires Valid()
      modifies this, handles
      ensures Valid() && fresh(hnd) && handles == old(handles) + {hnd} && ops == old(ops) + [Alloc(hnd)]
    {
      ghost var before := view;
      hnd := HandleAllocImpl();
      Note(before, Alloc(hnd));
    }

    method HandleAllocImpl() returns (hnd: Handle)
      requires Tidy() && Matches()
      modifies this`watermark, this`firstUsed, this`firstStarted, this`hlist, this`chain, this`handles, this`view,
               chain`prev2
      ensures Tidy() && fresh(hnd) && handles == old(handles) + {hnd}
      ensures Matches() && view == DoAlloc(old(view), hnd)
    {
      hnd := NewHandle();
      handles := handles + {hnd};
      AllocView(hnd);
    }

    method NewHandle() returns (hnd: Handle)
      requires Linked(chain, hlist) && Unique(chain) && forall h <- chain :: h in handles
      modifies this`watermark, this`firstUsed, this`firstStarted, this`hlist, this`chain, chain`prev2
      ensures fresh(hnd) && hnd.started == hnd.once == info.continuous
      ensures Linked(chain, hlist) && Unique(chain)
      ensures Enrolled(hnd, old(firstUsed), old(firstStarted), old(watermark), old(chain))
    {
      hnd := new Handle(info.continuous);
      Enroll(hnd);
    }

    // The abstract counterpart of a new handle.
    ghost method AllocView(hnd: Handle)
      requires view.info == info && view.caching && view.current == current
      requires handles == view.handles.Keys + {hnd} && hnd !in view.handles
      requires forall h <- view.handles :: h.Fields() == view.handles[h]
      requires Enrolled(hnd, view.firstUsed, view.firstStarted, view.watermark, view.hlist)
      requires hnd.started == hnd.once == info.continuous
      modifies this`view
      ensures Matches() && view == DoAlloc(old(view), hnd)
    {
      view := DoAlloc(view, hnd);
    }

    // What becomes of a new handle, given the variable's fields before.
    ghost predicate Enrolled(hnd: Handle, used: bool, running: bool, mark: real, list: seq<Handle>)
      reads this`watermark, this`current, this`firstUsed, this`firstStarted, this`chain, hnd`first, hnd`watermark
    {
      && firstUsed == (used || info.marked) && hnd.first == (info.marked && !used)
      && chain == (if info.marked && used then [hnd] + list else list)
      && firstStarted == (if hnd.first then info.continuous else running)
      && watermark == (if hnd.first && info.continuous then current else mark)
      && hnd.watermark == (if info.marked && used && info.continuous then current else 0.0)
    }

    // Gives the handle of a watermark variable the cache or a place in the list.
    method Enroll(hnd: Handle)
      requires Linked(chain, hlist) && Unique(chain) && hnd !in chain && hnd.next2 == null && !hnd.first && hnd.watermark == 0.0
      modifies this`watermark, this`firstUsed, this`firstStarted, this`hlist, this`chain,
               hnd`first, hnd`watermark, hnd`next2, hnd`prev2, chain`prev2
      ensures Linked(chain, hlist) && Unique(chain)
      ensures Enrolled(hnd, old(firstUsed), old(firstStarted), old(watermark), old(chain))
    {
      if info.marked {
        if !firstUsed {
          firstUsed := true;
          hnd.first := true;
          if info.continuous {
            firstStarted := true;
            watermark := current;
          } else {
            firstStarted := false;
          }
        } else {
          Link(hnd);
          if info.continuous {
            hnd.watermark := current;
          }
        }
      }
    }

    // Puts a handle at the head of the list.
    method Link(hnd: Handle)
      requires Linked(chain, hlist) && Unique(chain) && hnd !in chain && hnd.next2 == null
      modifies this`hlist, this`chain, hnd`next2, hnd`prev2, chain`prev2
      ensures chain == [hnd] + old(chain) && Linked(chain, hlist) && Unique(chain)
    {
      if hlist == null {
        hnd.prev2 := hnd;
        hlist := hnd;
      } else {
        hnd.prev2 := hnd;
        hnd.next2 := hlist;
        hlist.prev2 := hnd;
        hlist := hnd;
      }
      ghost var rest := chain;
      chain := [hnd] + chain;
      assert chain[1..] == rest;
      forall k: nat | k < |chain|
        ensures chain[k].next2 == NextIn(chain, k) && chain[k].prev2 == PrevIn(chain, k)
      {
        if k > 0 {
          assert chain[k] == rest[k - 1];
          if k > 1 {
            UniqueAt(rest, 0, k - 1);
          }
        }
      }
    }

    method HandleFree(hnd: Handle)
      requires Valid() && hnd in handles
      modifies this, handles
      ensures Valid() && handles == old(handles) - {hnd} && ops == old(ops) + [Op<Handle>.Free(hnd)]
    {
      ghost var before := view;
      if info.marked {
        CachedOrListed(before, level0, ops, hnd);
      }
      HandleFreeImpl(hnd);
      Note(before, Op<Handle>.Free(hnd));
    }

    method HandleFreeImpl(hnd: Handle)
      requires Tidy() && Matches() && hnd in handles && (info.marked && !hnd.first ==> hnd in chain)
      modifies this`firstUsed, this`firstStarted, this`hlist, this`chain, this`handles, this`view,
               chain`next2, chain`prev2
      ensures Tidy() && handles == old(handles) - {hnd}
      ensures Matches() && view == DoFree(old(view), hnd)
    {
      Unlist(hnd);
      handles := handles - {hnd};
      FreeView(hnd);
    }

    // Gives up the cache or the place in the list of a watermark variable's handle.
    method Unlist(hnd: Handle)
      requires Linked(chain, hlist) && Unique(chain)
      requires info.marked ==> (hnd.first <==> hnd !in chain)
      requires !info.marked ==> chain == []
      modifies this`firstUsed, this`firstStarted, this`hlist, this`chain, chain`next2, chain`prev2
      ensures Linked(chain, hlist) && Unique(chain)
      ensures firstUsed == (old(firstUsed) && !(info.marked && hnd.first))
      ensures firstStarted == (old(firstStarted) && !(info.marked && hnd.first))
      ensures chain == if info.marked && !hnd.first then Without(old(chain), hnd) else old(chain)
      ensures forall h <- chain :: h in old(chain) && h != hnd
    {
      if info.marked {
        if hnd.first {
          firstUsed, firstStarted := false, false;
        } else {
          Unlink(hnd);
        }
      }
    }

    // The abstract counterpart of a free.
    ghost method FreeView(hnd: Handle)
      requires view.info == info && view.caching && view.current == current && view.watermark == watermark
      requires hnd in view.handles && hnd.first == view.handles[hnd].first && handles == view.handles.Keys - {hnd}
      requires forall h <- handles :: h.Fields() == view.handles[h]
      requires firstUsed == (view.firstUsed && !(info.marked && hnd.first))
      requires firstStarted == (view.firstStarted && !(info.marked && hnd.first))
      requires chain == if info.marked && !hnd.first then Without(view.hlist, hnd) else view.hlist
      modifies this`view
      ensures Matches() && view == DoFree(old(view), hnd)
    {
      view := DoFree(view, hnd);
    }

    // Takes a handle out of the list.
    method Unlink(hnd: Handle)
      requires Linked(chain, hlist) && Unique(chain) && hnd in chain
      modifies this`hlist, this`chain, chain`next2, chain`prev2
      ensures chain == Without(old(chain), hnd) && Linked(chain, hlist) && Unique(chain)
      ensures forall h <- chain :: h in old(chain) && h != hnd
    {
      ghost var all := chain;
      ghost var k: nat :| k < |chain| && chain[k] == hnd;
      WithoutAt(chain, k);
      WithoutUnique(chain, hnd);
      UniquePairs(chain);
      if hlist == hnd {
        UnlinkHead(hnd);
      } else {
        UnlinkInner(hnd, k);
      }
      forall h <- chain
        ensures h in all && h != hnd
      {
        WithoutMember(all, hnd, h);
      }
    }

    method UnlinkHead(hnd: Handle)
      requires Linked(chain, hlist) && chain != [] && chain[0] == hnd
      requires forall i, j :: 0 <= i < j < |chain| ==> chain[i] != chain[j]
      modifies this`hlist, this`chain, chain`prev2
      ensures chain == old(chain[..0] + chain[1..]) && Linked(chain, hlist)
    {
      hlist := hnd.next2;
      if hlist != null {
        hlist.prev2 := hlist;
      }
      ghost var all := chain;
      chain := all[1..];
      forall m: nat | m < |chain|
        ensures chain[m].next2 == NextIn(chain, m) && chain[m].prev2 == PrevIn(chain, m)
      {
        assert chain[m] == all[m + 1];
      }
    }

    method UnlinkInner(hnd: Handle, ghost k: nat)
      requires Linked(chain, hlist) && 0 < k < |chain| && chain[k] == hnd
      requires forall i, j :: 0 <= i < j < |chain| ==> chain[i] != chain[j]
      modifies this`chain, chain`next2, chain`prev2
      ensures chain == old(chain[..k] + chain[k + 1..]) && Linked(chain, hlist)
    {
      ghost var all := chain;
      Bypass(all, hnd, k);
      chain := all[..k] + all[k + 1..];
      forall m: nat | m < |chain|
        ensures chain[m].next2 == NextIn(chain, m) && chain[m].prev2 == PrevIn(chain, m)
      {
        assert chain[m] == if m < k then all[m] else all[m + 1];
      }
    }

    // ---- Starting, stopping, resetting ----

    // MPI_T_pvar_start with a single handle
    method Start(hnd: Handle) returns (noStartStop: bool)
      requires Valid() && hnd in handles
      modifies this, handles
      ensures Valid() && handles == old(handles) && noStartStop == info.continuous
      ensures ops == old(ops) + [Op<Handle>.Start(hnd)]
    {
      ghost var before := view;
      noStartStop := info.continuous;
      StartKept(hnd);
      Note(before, Op<Handle>.Start(hnd));
    }

    // The operation leaves the list alone.
    method StartKept(hnd: Handle)
      requires Tidy() && Matches() && hnd in handles
      modifies this`view, this`watermark, this`firstStarted, hnd`started, hnd`once, hnd`watermark
      ensures Tidy() && Matches() && view == DoStart(old(view), hnd)
    {
      StartImpl(hnd);
    }

    method StartImpl(hnd: Handle)
      requires Matches() && hnd in handles
      modifies this`view, this`watermark, this`firstStarted, hnd`started, hnd`once, hnd`watermark
      ensures Matches() && view == DoStart(old(view), hnd)
    {
      if !info.continuous && !hnd.started {
        SetStartingValue(hnd);
        hnd.started, hnd.once := true, true;
      }
      view := DoStart(view, hnd);
    }

    // The starting value of a watermark handle that has none yet.
    method SetStartingValue(hnd: Handle)
      modifies this`watermark, this`firstStarted, hnd`watermark
      ensures firstStarted == (old(firstStarted) || (info.marked && hnd.first))
      ensures watermark == if info.marked && hnd.first && !hnd.once then current else old(watermark)
      ensures hnd.watermark == if info.marked && !hnd.first && !hnd.once then current else old(hnd.watermark)
    {
      if info.marked {
        if hnd.first {
          firstStarted := true;
          if !hnd.once {
            watermark := current;
          }
        } else {
          if !hnd.once {
            hnd.watermark := current;
          }
        }
      }
    }

    // MPI_T_pvar_stop with a single handle
    method Stop(hnd: Handle) returns (noStartStop: bool)
      requires Valid() && hnd in handles
      modifies this, handles
      ensures Valid() && handles == old(handles) && noStartStop == info.continuous
      ensures ops == old(ops) + [Op<Handle>.Stop(hnd)]
    {
      ghost var before := view;
      noStartStop := info.continuous;
      StopKept(hnd);
      Note(before, Op<Handle>.Stop(hnd));
    }

    // The operation leaves the list alone.
    method StopKept(hnd: Handle)
      requires Tidy() && Matches() && hnd in handles
      modifies this`view, this`firstStarted, hnd`started
      ensures Tidy() && Matches() && view == DoStop(old(view), hnd)
    {
      StopImpl(hnd);
    }

    method StopImpl(hnd: Handle)
      requires Matches() && hnd in handles
      modifies this`view, this`firstStarted, hnd`started
      ensures Matches() && view == DoStop(old(view), hnd)
    {
      if !info.continuous && hnd.started {
        hnd.started := false;
        if info.marked && hnd.first {
          firstStarted := false;
        }
      }
      view := DoStop(view, hnd);
    }

    // MPI_T_pvar_reset with a single handle
    method Reset(hnd: Handle) returns (noWrite: bool)
      requires Valid() && hnd in handles
      modifies this, handles
      ensures Valid() && handles == old(handles) && noWrite == info.readonly
      ensures ops == old(ops) + [Op<Handle>.Reset(hnd)]
    {
      ghost var before := view;
      noWrite := info.readonly;
      ResetKept(hnd);
      Note(before, Op<Handle>.Reset(hnd));
    }

    // The operation leaves the list alone.
    method ResetKept(hnd: Handle)
      requires Tidy() && Matches() && hnd in handles
      modifies this`view, this`watermark, hnd`once, hnd`watermark
      ensures Tidy() && Matches() && view == DoReset(old(view), hnd)
    {
      ResetImpl(hnd);
    }

    method ResetImpl(hnd: Handle)
      requires Matches() && hnd in handles
      modifies this`view, this`watermark, hnd`once, hnd`watermark
      ensures Matches() && view == DoReset(old(view), hnd)
    {
      if !info.readonly {
        if info.marked {
          if hnd.started {
            if hnd.first {
              watermark := current;
            } else {
              hnd.watermark := current;
            }
          } else {
            hnd.once := false;
          }
        }
      }
      view := DoReset(view, hnd);
    }

    // ---- Reading ----

    /** A read returns the extreme of the handle's starting value and of the values that arrived
        while it was started, if the registration carries the watermark flag; otherwise the level. */
    method ReadHandle(hnd: Handle) returns (r: Reading)
      requires Valid() && hnd in handles
      ensures info.marked ==> Right(info.high, Seen(info, level0, ops, hnd), r)
      ensures info.marked && r.Value? ==>
        r.value in Seen(info, level0, ops, hnd)
        && forall v <- Seen(info, level0, ops, hnd) :: if info.high then v <= r.value else r.value <= v
      ensures !info.marked && r.Value? ==> r.value == Level(level0, ops)
    {
      if !hnd.once {
        r := Invalid;
      } else if info.marked {
        r := if hnd.first then Reading.Value(watermark) else Reading.Value(hnd.watermark);
      } else {
        r := Reading.Value(current);
      }
      assert r == Read(view, hnd);
      if info.marked {
        ReadsRight(view, level0, ops, hnd);
      }
    }
  }
}
