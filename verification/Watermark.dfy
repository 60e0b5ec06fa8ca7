/**
 * Watermark performance variables (src/include/mpitimpl.h and src/mpi_t/pvar_*.c). A variable
 * keeps the mark of its first handle next to its own level; the marks of further handles live
 * in the handles, which are chained in `hlist`. High and low watermarks differ only in the
 * comparison.
 */
module Watermark {

  // The flags a variable is registered with. `marked` is MPIR_T_PVAR_FLAG_WATERMARK: handle
  // allocation sets that bit from the class of the variable and then overwrites the flags with
  // the registered ones, so a handle has the bit only if the registration had it.
  datatype Info = Info(high: bool, marked: bool, continuous: bool, readonly: bool)

  datatype HandleFields = HandleFields(first: bool, started: bool, once: bool, watermark: real)

  // `caching` is true in the original; without it every handle would go to the list.
  datatype State<!Id> = State(
    info: Info, caching: bool, current: real, watermark: real, firstUsed: bool, firstStarted: bool,
    hlist: seq<Id>, handles: map<Id, HandleFields>)

  datatype Op<Id> =
    | Update(value: real)
    | Alloc(id: Id)
    | Start(id: Id)
    | Stop(id: Id)
    | Reset(id: Id)
    | Free(id: Id)

  datatype Reading = Invalid | Value(value: real)

  predicate Beats(high: bool, v: real, mark: real) {
    if high then v > mark else v < mark
  }

  function Raise(high: bool, v: real, mark: real): real {
    if Beats(high, v, mark) then v else mark
  }

  // ---- One operation ----

  function UpdatedHandle(info: Info, listed: bool, x: HandleFields, v: real): HandleFields {
    if listed && x.started then x.(watermark := Raise(info.high, v, x.watermark)) else x
  }

  function DoUpdate<Id>(s: State<Id>, v: real): State<Id> {
    s.(current := v,
       watermark := if s.firstUsed && s.firstStarted then Raise(s.info.high, v, s.watermark) else s.watermark,
       handles := map h | h in s.handles :: UpdatedHandle(s.info, h in s.hlist, s.handles[h], v))
  }

  function DoAlloc<Id>(s: State<Id>, h: Id): State<Id> {
    var running := s.info.continuous;
    var x := HandleFields(false, running, running, 0.0);
    if !s.info.marked then
      s.(handles := s.handles[h := x])
    else if s.caching && !s.firstUsed then
      s.(firstUsed := true, firstStarted := running,
         watermark := if running then s.current else s.watermark,
         handles := s.handles[h := x.(first := true)])
    else
      s.(hlist := [h] + s.hlist,
         handles := s.handles[h := if running then x.(watermark := s.current) else x])
  }

  function DoStart<Id>(s: State<Id>, h: Id): State<Id>
    requires h in s.handles
  {
    var x := s.handles[h];
    if s.info.continuous || x.started then s
    else if !s.info.marked then s.(handles := s.handles[h := x.(started := true, once := true)])
    else if x.first then
      s.(firstStarted := true, watermark := if x.once then s.watermark else s.current,
         handles := s.handles[h := x.(started := true, once := true)])
    else
      s.(handles := s.handles[h := x.(started := true, once := true,
                                      watermark := if x.once then x.watermark else s.current)])
  }

  function DoStop<Id>(s: State<Id>, h: Id): State<Id>
    requires h in s.handles
  {
    var x := s.handles[h];
    if s.info.continuous || !x.started then s
    else
      s.(handles := s.handles[h := x.(started := false)],
         firstStarted := if s.info.marked && x.first then false else s.firstStarted)
  }

  function DoReset<Id>(s: State<Id>, h: Id): State<Id>
    requires h in s.handles
  {
    var x := s.handles[h];
    if s.info.readonly || !s.info.marked then s
    else if !x.started then s.(handles := s.handles[h := x.(once := false)])
    else if x.first then s.(watermark := s.current)
    else s.(handles := s.handles[h := x.(watermark := s.current)])
  }

  function Without<Id(==)>(ids: seq<Id>, h: Id): seq<Id> {
    if ids == [] then []
    else if ids[0] == h then ids[1..]
    else [ids[0]] + Without(ids[1..], h)
  }

  function DoFree<Id(==)>(s: State<Id>, h: Id): State<Id>
    requires h in s.handles
  {
    var t := s.(handles := s.handles - {h});
    if !s.info.marked then t
    else if s.handles[h].first then t.(firstUsed := false, firstStarted := false)
    else t.(hlist := Without(s.hlist, h))
  }

  predicate Enabled<Id>(s: State<Id>, op: Op<Id>) {
    match op
    case Update(_) => true
    case Alloc(id) => id !in s.handles
    case _ => op.id in s.handles
  }

  function Apply<Id(==)>(s: State<Id>, op: Op<Id>): State<Id>
    requires Enabled(s, op)
  {
    match op
    case Update(v) => DoUpdate(s, v)
    case Alloc(id) => DoAlloc(s, id)
    case Start(id) => DoStart(s, id)
    case Stop(id) => DoStop(s, id)
    case Reset(id) => DoReset(s, id)
    case Free(id) => DoFree(s, id)
  }

  function Read<Id>(s: State<Id>, h: Id): Reading
    requires h in s.handles
  {
    var x := s.handles[h];
    if !x.once then Invalid
    else if !s.info.marked then Value(s.current)   // the level is at the variable's address
    else if x.first then Value(s.watermark)
    else Value(x.watermark)
  }

  function Init<Id>(info: Info, caching: bool, level: real, garbage: real): State<Id> {
    State(info, caching, level, garbage, false, false, [], map[])
  }

  // ---- Runs, and what a handle should read after one, from the operations alone ----

  // Every operation names a handle that is allocated, and an allocation a new one.
  predicate Legal<Id(==)>(s: State<Id>, ops: seq<Op<Id>>)
    decreases |ops|, 0
  {
    ops != [] ==>
      var init := ops[..|ops| - 1];
      Legal(s, init) && Enabled(Run(s, init), ops[|ops| - 1])
  }

  function Run<Id(==)>(s: State<Id>, ops: seq<Op<Id>>): State<Id>
    requires Legal(s, ops)
    decreases |ops|, 1
  {
    if ops == [] then s
    else Apply(Run(s, ops[..|ops| - 1]), ops[|ops| - 1])
  }

  // The level of the variable.
  function Level<Id>(level: real, ops: seq<Op<Id>>): real {
    if ops == [] then level
    else match ops[|ops| - 1]
      case Update(v) => v
      case _ => Level(level, ops[..|ops| - 1])
  }

  // Whether the handle is started, given whether it was before the operation.
  predicate StartedAfter<Id(==)>(info: Info, op: Op<Id>, h: Id, before: bool) {
    match op
    case Alloc(id) => if id == h then info.continuous else before
    case Start(id) => before || (id == h && !info.continuous)
    case Stop(id) => before && (id != h || info.continuous)
    case Free(id) => before && id != h
    case _ => before
  }

  // The values a handle should account for, given those before the operation.
  function SeenAfter<Id(==)>(info: Info, level: real, op: Op<Id>, h: Id, started: bool, before: seq<real>): seq<real> {
    match op
    case Update(v) => if started then before + [v] else before
    case Alloc(id) => if id != h then before else if info.continuous then [level] else []
    case Start(id) => if id == h && !info.continuous && before == [] then [level] else before
    case Stop(_) => before
    case Reset(id) => if id != h || info.readonly then before else if started then [level] else []
    case Free(id) => if id == h then [] else before
  }

  predicate Started<Id(==)>(info: Info, ops: seq<Op<Id>>, h: Id) {
    ops != [] && StartedAfter(info, ops[|ops| - 1], h, Started(info, ops[..|ops| - 1], h))
  }

  // The starting value of the handle and then the values that arrived while it was started;
  // empty if it has no starting value yet.
  function Seen<Id(==)>(info: Info, level: real, ops: seq<Op<Id>>, h: Id): seq<real> {
    if ops == [] then []
    else
      var init := ops[..|ops| - 1];
      SeenAfter(info, Level(level, init), ops[|ops| - 1], h, Started(info, init, h), Seen(info, level, init, h))
  }

  /** The mark is the largest of the values, or the smallest for a low watermark. */
  predicate IsMark(high: bool, values: seq<real>, mark: real) {
    mark in values && forall v <- values :: if high then v <= mark else v >= mark
  }

  lemma RaiseKeepsMark(high: bool, values: seq<real>, mark: real, v: real)
    requires IsMark(high, values, mark)
    ensures IsMark(high, values + [v], Raise(high, v, mark))
  {
    var all := values + [v];
    assert all[|values|] == v;
    var k :| 0 <= k < |values| && values[k] == mark;
    assert all[k] == mark;
  }

  // ---- The invariant ----

  predicate HandleOk<Id(==)>(s: State<Id>, h: Id, started: bool, seen: seq<real>)
    requires h in s.handles
  {
    var x := s.handles[h];
    && x.started == started
    && (x.once <==> seen != [])
    && (x.started ==> x.once)
    && (x.first ==> s.firstUsed && s.firstStarted == x.started)
    && (x.first || h in s.hlist)
    && (x.once ==> IsMark(s.info.high, seen, if x.first then s.watermark else x.watermark))
  }

  predicate Unique<Id(==)>(ids: seq<Id>) {
    ids != [] ==> ids[0] !in ids[1..] && Unique(ids[1..])
  }

  // `hlist` has no handle twice and holds no first handle, of which there is at most one.
  predicate Shape<Id(==)>(s: State<Id>) {
    && (forall h, k :: h in s.handles && k in s.handles && s.handles[h].first && s.handles[k].first ==> h == k)
    && (forall h <- s.hlist :: h in s.handles && !s.handles[h].first)
    && Unique(s.hlist)
  }

  // The handle is as the operations so far call for.
  predicate Known<Id(==)>(s: State<Id>, level: real, ops: seq<Op<Id>>, h: Id)
    requires h in s.handles
  {
    HandleOk(s, h, Started(s.info, ops, h), Seen(s.info, level, ops, h))
  }

  predicate Inv<Id(==)>(s: State<Id>, level: real, ops: seq<Op<Id>>) {
    && s.info.marked
    && Shape(s)
    && s.current == Level(level, ops)
    && forall h {:trigger Known(s, level, ops, h)} :: h in s.handles ==> Known(s, level, ops, h)
  }

  lemma SameShape<Id>(s: State<Id>, t: State<Id>)
    requires Shape(s) && t.hlist == s.hlist && t.handles.Keys == s.handles.Keys
    requires forall h <- s.handles :: t.handles[h].first == s.handles[h].first
    ensures Shape(t)
  {
  }

  lemma SetShape<Id>(s: State<Id>, t: State<Id>, id: Id)
    requires Shape(s) && t.hlist == s.hlist && id in s.handles && id in t.handles
    requires t.handles[id].first == s.handles[id].first && t.handles == s.handles[id := t.handles[id]]
    ensures Shape(t)
  {
    SameShape(s, t);
  }

  lemma AllocShape<Id>(s: State<Id>, id: Id)
    requires Shape(s) && s.info.marked && id !in s.handles
    requires forall h <- s.handles :: s.handles[h].first ==> s.firstUsed
    ensures Shape(DoAlloc(s, id))
  {
    var t := DoAlloc(s, id);
    assert forall h <- s.handles :: h != id && t.handles[h] == s.handles[h];
    if !s.caching || s.firstUsed {
      assert t.hlist[0] == id && t.hlist[1..] == s.hlist;
      assert forall h <- t.hlist :: h == id || h in s.hlist;
      assert forall h <- t.handles :: t.handles[h].first ==> h in s.handles;
    } else {
      assert forall h <- t.handles :: t.handles[h].first ==> h == id;
    }
  }

  lemma FreeShape<Id>(s: State<Id>, id: Id)
    requires Shape(s) && s.info.marked && id in s.handles
    ensures Shape(DoFree(s, id))
  {
    WithoutUnique(s.hlist, id);
    var t := DoFree(s, id);
    forall h <- t.hlist
      ensures h in t.handles && !t.handles[h].first
    {
      WithoutMember(s.hlist, id, h);
    }
  }

  lemma ShapeKept<Id>(s: State<Id>, op: Op<Id>)
    requires Shape(s) && Enabled(s, op) && s.info.marked
    requires forall h <- s.handles :: s.handles[h].first ==> s.firstUsed
    ensures Shape(Apply(s, op))
  {
    match op
    case Alloc(id) => { AllocShape(s, id); }
    case Free(id) => { FreeShape(s, id); }
    case Update(v) => { SameShape(s, DoUpdate(s, v)); }
    case Start(id) => { SetShape(s, DoStart(s, id), id); }
    case Stop(id) => { SetShape(s, DoStop(s, id), id); }
    case Reset(id) => { SetShape(s, DoReset(s, id), id); }
  }

  // What an operation means for a handle that exists before and after it.
  lemma UpdateOk<Id>(s: State<Id>, v: real, h: Id, started: bool, seen: seq<real>)
    requires s.info.marked && h in s.handles && HandleOk(s, h, started, seen)
    requires s.handles[h].first ==> h !in s.hlist
    ensures HandleOk(DoUpdate(s, v), h, StartedAfter(s.info, Op<Id>.Update(v), h, started),
                     SeenAfter(s.info, s.current, Op<Id>.Update(v), h, started, seen))
  {
    if started {
      var x := s.handles[h];
      RaiseKeepsMark(s.info.high, seen, if x.first then s.watermark else x.watermark, v);
    }
  }

  lemma AllocOk<Id>(s: State<Id>, id: Id, h: Id, started: bool, seen: seq<real>)
    requires s.info.marked && h in s.handles && HandleOk(s, h, started, seen)
    requires id !in s.handles
    ensures HandleOk(DoAlloc(s, id), h, StartedAfter(s.info, Op.Alloc(id), h, started),
                     SeenAfter(s.info, s.current, Op.Alloc(id), h, started, seen))
  {
    assert h in s.hlist ==> h in [id] + s.hlist;
  }

  lemma StartOk<Id>(s: State<Id>, id: Id, h: Id, started: bool, seen: seq<real>)
    requires s.info.marked && h in s.handles && HandleOk(s, h, started, seen)
    requires id in s.handles && (s.handles[h].first && s.handles[id].first ==> h == id)
    ensures HandleOk(DoStart(s, id), h, StartedAfter(s.info, Op.Start(id), h, started),
                     SeenAfter(s.info, s.current, Op.Start(id), h, started, seen))
  {
  }

  lemma StopOk<Id>(s: State<Id>, id: Id, h: Id, started: bool, seen: seq<real>)
    requires s.info.marked && h in s.handles && HandleOk(s, h, started, seen)
    requires id in s.handles && (s.handles[h].first && s.handles[id].first ==> h == id)
    ensures HandleOk(DoStop(s, id), h, StartedAfter(s.info, Op.Stop(id), h, started),
                     SeenAfter(s.info, s.current, Op.Stop(id), h, started, seen))
  {
  }

  lemma ResetOk<Id>(s: State<Id>, id: Id, h: Id, started: bool, seen: seq<real>)
    requires s.info.marked && h in s.handles && HandleOk(s, h, started, seen)
    requires id in s.handles && (s.handles[h].first && s.handles[id].first ==> h == id)
    ensures HandleOk(DoReset(s, id), h, StartedAfter(s.info, Op.Reset(id), h, started),
                     SeenAfter(s.info, s.current, Op.Reset(id), h, started, seen))
  {
  }

  lemma FreeOk<Id>(s: State<Id>, id: Id, h: Id, started: bool, seen: seq<real>)
    requires s.info.marked && h in s.handles && HandleOk(s, h, started, seen)
    requires id in s.handles && id != h && Unique(s.hlist)
    requires s.handles[h].first && s.handles[id].first ==> h == id
    ensures HandleOk(DoFree(s, id), h, StartedAfter(s.info, Op.Free(id), h, started),
                     SeenAfter(s.info, s.current, Op.Free(id), h, started, seen))
  {
    WithoutMember(s.hlist, id, h);
  }

  lemma OldHandleKept<Id>(s: State<Id>, op: Op<Id>, h: Id, started: bool, seen: seq<real>)
    requires s.info.marked && Shape(s) && Enabled(s, op)
    requires h in s.handles && HandleOk(s, h, started, seen) && !(op.Free? && op.id == h)
    ensures h in Apply(s, op).handles
    ensures HandleOk(Apply(s, op), h, StartedAfter(s.info, op, h, started),
                     SeenAfter(s.info, s.current, op, h, started, seen))
  {
    match op
    case Update(v) => { UpdateOk(s, v, h, started, seen); }
    case Alloc(id) => { AllocOk(s, id, h, started, seen); }
    case Start(id) => { StartOk(s, id, h, started, seen); }
    case Stop(id) => { StopOk(s, id, h, started, seen); }
    case Reset(id) => { ResetOk(s, id, h, started, seen); }
    case Free(id) => { FreeOk(s, id, h, started, seen); }
  }

  lemma NewHandleOk<Id>(s: State<Id>, h: Id)
    requires s.info.marked && h !in s.handles
    ensures HandleOk(DoAlloc(s, h), h, s.info.continuous, if s.info.continuous then [s.current] else [])
  {
    assert h in [h] + s.hlist;
  }

  lemma KeysAfter<Id>(s: State<Id>, op: Op<Id>, h: Id)
    requires Enabled(s, op) && h in Apply(s, op).handles
    ensures op == Alloc(h) || (h in s.handles && !(op.Free? && op.id == h))
  {
  }

  lemma CurrentAfter<Id>(s: State<Id>, op: Op<Id>)
    requires Enabled(s, op)
    ensures Apply(s, op).info == s.info
    ensures Apply(s, op).current == if op.Update? then op.value else s.current
  {
  }

  lemma InvKept<Id>(s: State<Id>, level: real, ops: seq<Op<Id>>)
    requires ops != []
    requires Inv(s, level, ops[..|ops| - 1]) && Enabled(s, ops[|ops| - 1])
    ensures Inv(Apply(s, ops[|ops| - 1]), level, ops)
  {
    var init, op := ops[..|ops| - 1], ops[|ops| - 1];
    var t := Apply(s, op);
    CurrentAfter(s, op);
    assert Shape(t) by {
      forall h <- s.handles
        ensures s.handles[h].first ==> s.firstUsed
      {
        assert Known(s, level, init, h);
      }
      ShapeKept(s, op);
    }
    forall h <- t.handles
      ensures Known(t, level, ops, h)
    {
      KeysAfter(s, op, h);
      if op == Alloc(h) {
        NewHandleOk(s, h);
      } else {
        assert Known(s, level, init, h);
        OldHandleKept(s, op, h, Started(s.info, init, h), Seen(s.info, level, init, h));
      }
    }
  }

  lemma {:induction false} RunInv<Id>(s: State<Id>, ops: seq<Op<Id>>)
    requires s == Init(s.info, s.caching, s.current, s.watermark) && s.info.marked && Legal(s, ops)
    ensures Inv(Run(s, ops), s.current, ops) && Run(s, ops).info == s.info
  {
    if ops != [] {
      RunInv(s, ops[..|ops| - 1]);
      InvKept(Run(s, ops[..|ops| - 1]), s.current, ops);
      CurrentAfter(Run(s, ops[..|ops| - 1]), ops[|ops| - 1]);
    }
  }

  lemma WithoutMember<Id>(ids: seq<Id>, h: Id, k: Id)
    requires Unique(ids)
    ensures k in Without(ids, h) <==> k in ids && k != h
  {
    if ids != [] && ids[0] != h {
      WithoutMember(ids[1..], h, k);
      assert k in ids <==> k == ids[0] || k in ids[1..];
    }
  }

  lemma WithoutUnique<Id>(ids: seq<Id>, h: Id)
    requires Unique(ids)
    ensures Unique(Without(ids, h))
  {
    if ids != [] && ids[0] != h {
      WithoutUnique(ids[1..], h);
      WithoutMember(ids[1..], h, ids[0]);
      assert Without(ids, h)[1..] == Without(ids[1..], h);
    }
  }

  // ---- What a handle reads after any run ----

  /** The reading that a handle owes its user: none without a starting value, otherwise the
      extreme of the starting value and of what arrived while the handle was started. */
  predicate Right(high: bool, seen: seq<real>, r: Reading) {
    match r
    case Invalid => seen == []
    case Value(v) => seen != [] && IsMark(high, seen, v)
  }

  lemma RightIsUnique(high: bool, seen: seq<real>, r: Reading, q: Reading)
    requires Right(high, seen, r) && Right(high, seen, q)
    ensures r == q
  {
  }

  /** What the invariant means for a reading. */
  lemma ReadsRight<Id>(s: State<Id>, level: real, ops: seq<Op<Id>>, h: Id)
    requires Inv(s, level, ops) && h in s.handles
    ensures Right(s.info.high, Seen(s.info, level, ops, h), Read(s, h))
  {
    assert Known(s, level, ops, h);
  }

  /** Every handle of a variable whose registration carries the watermark flag reads right
      after every run, whether or not the first handle is cached. */
  lemma HandlesReadRight<Id>(s: State<Id>, ops: seq<Op<Id>>, h: Id)
    requires s == Init(s.info, s.caching, s.current, s.watermark) && s.info.marked
    requires Legal(s, ops) && h in Run(s, ops).handles
    ensures Right(s.info.high, Seen(s.info, s.current, ops, h), Read(Run(s, ops), h))
    ensures match Read(Run(s, ops), h)
      case Invalid => Seen(s.info, s.current, ops, h) == []
      case Value(mark) =>
        && mark in Seen(s.info, s.current, ops, h)
        && forall v <- Seen(s.info, s.current, ops, h) :: if s.info.high then v <= mark else mark <= v
  {
    RunInv(s, ops);
    ReadsRight(Run(s, ops), s.current, ops, h);
  }

  function LiveAfter<Id>(live: set<Id>, op: Op<Id>): set<Id> {
    match op
    case Alloc(id) => live + {id}
    case Free(id) => live - {id}
    case _ => live
  }

  lemma LiveStep<Id>(s: State<Id>, op: Op<Id>)
    requires Enabled(s, op)
    ensures Apply(s, op).handles.Keys == LiveAfter(s.handles.Keys, op)
  {
    match op
    case Alloc(id) => { }
    case Free(id) => { }
    case _ => { }
  }

  lemma {:induction false} SameLive<Id>(s: State<Id>, t: State<Id>, ops: seq<Op<Id>>)
    requires s.handles.Keys == t.handles.Keys && Legal(s, ops)
    ensures Legal(t, ops) && Run(t, ops).handles.Keys == Run(s, ops).handles.Keys
  {
    if ops != [] {
      var init, op := ops[..|ops| - 1], ops[|ops| - 1];
      SameLive(s, t, init);
      assert Enabled(Run(t, init), op);
      LiveStep(Run(s, init), op);
      LiveStep(Run(t, init), op);
    }
  }

  /** Caching the first handle cannot be observed: after the same run every handle reads what
      it would read if all handles were kept in the list. */
  lemma CacheIsTransparent<Id>(s: State<Id>, ops: seq<Op<Id>>, h: Id)
    requires s == Init(s.info, s.caching, s.current, s.watermark) && s.info.marked
    requires Legal(s, ops) && h in Run(s, ops).handles
    ensures var plain := s.(caching := false);
      Legal(plain, ops) && h in Run(plain, ops).handles && Read(Run(s, ops), h) == Read(Run(plain, ops), h)
  {
    var plain := s.(caching := false);
    SameLive(s, plain, ops);
    HandlesReadRight(s, ops, h);
    HandlesReadRight(plain, ops, h);
    RightIsUnique(s.info.high, Seen(s.info, s.current, ops, h), Read(Run(s, ops), h), Read(Run(plain, ops), h));
  }

  // ---- The registration flag decides ----

  predicate RightAfter(s: State<nat>, ops: seq<Op<nat>>, h: nat)
    requires Legal(s, ops) && h in Run(s, ops).handles
  {
    Right(s.info.high, Seen(s.info, s.current, ops, h), Read(Run(s, ops), h))
  }

  ghost predicate AlwaysRight(info: Info, level: real, garbage: real) {
    var s := Init<nat>(info, true, level, garbage);
    forall ops, h :: Legal(s, ops) && h in Run(s, ops).handles ==> RightAfter(s, ops, h)
  }

  // Two updates past the level and halfway back.
  function Dip(info: Info, level: real): seq<Op<nat>> {
    var d := if info.high then 2.0 else -2.0;
    [Alloc(0), Start(0), Update(level + d), Update(level + d / 2.0)]
  }

  lemma UnmarkedDip(info: Info, level: real, garbage: real)
    requires !info.marked
    ensures var s := Init<nat>(info, true, level, garbage);
      Legal(s, Dip(info, level)) && 0 in Run(s, Dip(info, level)).handles && !RightAfter(s, Dip(info, level), 0)
  {
    var s := Init<nat>(info, true, level, garbage);
    var d := if info.high then 2.0 else -2.0;
    var ops := Dip(info, level);
    var ops3, ops2, ops1: seq<Op<nat>> := ops[..3], ops[..2], ops[..1];
    assert ops3[..2] == ops2 && ops2[..1] == ops1 && ops1[..0] == [];
    assert Legal(s, ops1);
    assert Run(s, ops1) == DoAlloc(s, 0);
    assert Legal(s, ops2);
    assert Run(s, ops2) == DoStart(DoAlloc(s, 0), 0);
    assert Legal(s, ops3);
    assert Run(s, ops3) == DoUpdate(Run(s, ops2), level + d);
    assert ops[..3] == ops3 && Legal(s, ops);
    assert Run(s, ops) == DoUpdate(Run(s, ops3), level + d / 2.0);
    assert Read(Run(s, ops), 0) == Value(level + d / 2.0);
    assert Seen(info, level, ops1, 0) == if info.continuous then [level] else [];
    assert Seen(info, level, ops2, 0) == [level] && Started(info, ops2, 0);
    assert Seen(info, level, ops3, 0) == [level, level + d] && Started(info, ops3, 0);
    var seen := Seen(info, level, ops, 0);
    assert seen == [level, level + d, level + d / 2.0];
    assert seen[1] in seen && Beats(info.high, seen[1], level + d / 2.0);
  }

  /** A watermark variable reads right in every run if and only if its registration flags
      contain the watermark bit: otherwise the overwritten flags of its handles make them
      read the level itself. */
  lemma RightIffMarked(info: Info, level: real, garbage: real)
    ensures AlwaysRight(info, level, garbage) <==> info.marked
  {
    var s := Init<nat>(info, true, level, garbage);
    if info.marked {
      forall ops, h | Legal(s, ops) && h in Run(s, ops).handles
        ensures RightAfter(s, ops, h)
      {
        HandlesReadRight(s, ops, h);
      }
    } else {
      UnmarkedDip(info, level, garbage);
    }
  }

  // A handle is the cached one or it is in the list.
  lemma CachedOrListed<Id>(s: State<Id>, level: real, ops: seq<Op<Id>>, h: Id)
    requires Inv(s, level, ops) && h in s.handles
    ensures s.handles[h].first || h in s.hlist
  {
    assert Known(s, level, ops, h);
  }

  // ---- Unlinking from a list without repetition ----

  lemma {:induction false} WithoutAt<Id>(ids: seq<Id>, k: nat)
    requires Unique(ids) && k < |ids|
    ensures Without(ids, ids[k]) == ids[..k] + ids[k + 1..]
  {
    if k > 0 {
      assert ids[k] in ids[1..];
      WithoutAt(ids[1..], k - 1);
      assert ids[1..][k - 1] == ids[k];
      assert ids[1..][..k - 1] == ids[1..k];
      assert ids[1..][k..] == ids[k + 1..];
      assert [ids[0]] + ids[1..k] == ids[..k];
    }
  }

  lemma {:induction false} UniqueAt<Id>(ids: seq<Id>, i: nat, j: nat)
    requires Unique(ids) && i < j < |ids|
    ensures ids[i] != ids[j]
  {
    if i > 0 {
      UniqueAt(ids[1..], i - 1, j - 1);
    } else {
      assert ids[j] in ids[1..];
    }
  }

  lemma UniquePairs<Id>(ids: seq<Id>)
    requires Unique(ids)
    ensures forall i, j :: 0 <= i < j < |ids| ==> ids[i] != ids[j]
  {
    forall i, j | 0 <= i < j < |ids|
      ensures ids[i] != ids[j]
    {
      UniqueAt(ids, i, j);
    }
  }
}
