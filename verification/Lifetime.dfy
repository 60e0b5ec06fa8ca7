/** Reference-counted requests and communicators (src/include/mpir_request.h, mpir_comm.h and the
    counting macros of mpir_objects.h), with any number of threads interleaving atomic steps.

    A count is changed only by someone who holds a reference; the thread whose decrement reaches
    zero takes the object apart in later steps of its own: a request first drops its reference to
    its communicator and then goes back to the pool, a communicator is deleted.  Objects are named
    by serial numbers, since the pool reuses storage.  Who holds what is recorded beside each
    count, and the three logs record history; no step consults them except to say which calls a
    thread may make.
 */
module Lifetime {
  import opened Handles
  import opened Options
  import opened PoolSpec

  type Thread = nat

  /** After its count has reached zero a request drops its communicator, then returns to the pool. */
  datatype Stage = InUse | Dropping | Returning

  datatype Request = Request(handle: Handle, count: int, holders: multiset<Thread>, comm: Option<nat>, stage: Stage)
  datatype Comm = Comm(count: int, holders: multiset<Thread>, dying: bool)

  /** `slots` says which request occupies the storage of a live handle; `created` and `made` number
      the instances; `zeros` logs the requests whose count a release saw reach zero, `returned`
      those given back to the pool, `deleted` the communicators deleted. */
  datatype State = State(pool: PoolState, slots: map<Handle, nat>, requests: map<nat, Request>, comms: map<nat, Comm>,
                         created: nat, made: nat,
                         zeros: multiset<nat>, returned: multiset<nat>, deleted: multiset<nat>)

  datatype Step =
    | Create(t: Thread, tableMemory: bool, blockMemory: bool)
    | AddRef(t: Thread, to: Thread, n: nat)
    | Attach(t: Thread, n: nat, c: nat)
    | Release(t: Thread, n: nat)
    | DropComm(n: nat)
    | ReturnToPool(n: nat)
    | CommCreate(t: Thread)
    | CommAddRef(t: Thread, to: Thread, c: nat)
    | CommRelease(t: Thread, c: nat)
    | CommDelete(c: nat)

  const START := State(EMPTY, map[], map[], map[], 0, 0, multiset{}, multiset{}, multiset{})

  /** A thread acts only on what it holds a reference to; a communicator is attached to a request
      once, by someone who holds both. */
  predicate Enabled(s: State, step: Step) {
    match step
    case Create(_, _, _) => true
    case AddRef(t, _, n) => n in s.requests && t in s.requests[n].holders
    case Attach(t, n, c) =>
      && n in s.requests && t in s.requests[n].holders && s.requests[n].comm == None
      && c in s.comms && t in s.comms[c].holders
    case Release(t, n) => n in s.requests && t in s.requests[n].holders
    case DropComm(n) => n in s.requests && s.requests[n].stage.Dropping?
    case ReturnToPool(n) => n in s.requests && s.requests[n].stage.Returning?
    case CommCreate(_) => true
    case CommAddRef(t, _, c) => c in s.comms && t in s.comms[c].holders
    case CommRelease(t, c) => c in s.comms && t in s.comms[c].holders
    case CommDelete(c) => c in s.comms && s.comms[c].dying
  }

  /** A communicator loses one count; whoever takes it to zero must delete it. */
  function CommLess(cm: Comm): Comm {
    cm.(count := cm.count - 1, dying := cm.dying || cm.count - 1 == 0)
  }

  /** A request loses one count, given up by thread t; at zero it starts to be taken apart. */
  function RequestLess(r: Request, t: Thread): Request {
    Request(r.handle, r.count - 1, r.holders - multiset{t}, r.comm,
            if r.count - 1 != 0 then r.stage else if r.comm == None then Returning else Dropping)
  }

  function Apply(sh: Shape, s: State, step: Step): State
    requires ValidShape(sh) && Enabled(s, step)
  {
    match step
    case Create(t, table, block) =>
      var (pool, got) := Alloc(sh, s.pool, table, block);
      if got.Fails? then s.(pool := pool)
      else s.(pool := pool, slots := s.slots[got.h := s.created], created := s.created + 1,
              requests := s.requests[s.created := Request(got.h, 1, multiset{t}, None, InUse)])
    case AddRef(_, to, n) =>
      var r := s.requests[n];
      s.(requests := s.requests[n := r.(count := r.count + 1, holders := r.holders + multiset{to})])
    case Attach(_, n, c) =>
      var cm := s.comms[c];
      s.(requests := s.requests[n := s.requests[n].(comm := Some(c))],
         comms := s.comms[c := cm.(count := cm.count + 1)])
    case Release(t, n) =>
      var r := s.requests[n];
      s.(requests := s.requests[n := RequestLess(r, t)],
         zeros := if r.count - 1 == 0 then s.zeros + multiset{n} else s.zeros)
    case DropComm(n) =>
      var r := s.requests[n];
      var s' := s.(requests := s.requests[n := r.(stage := Returning)]);
      if r.comm == None || r.comm.value !in s.comms then s'
      else s'.(comms := s.comms[r.comm.value := CommLess(s.comms[r.comm.value])])
    case ReturnToPool(n) =>
      s.(pool := Free(s.pool, s.requests[n].handle), slots := s.slots - {s.requests[n].handle},
         requests := s.requests - {n}, returned := s.returned + multiset{n})
    case CommCreate(t) => s.(made := s.made + 1, comms := s.comms[s.made := Comm(1, multiset{t}, false)])
    case CommAddRef(_, to, c) =>
      var cm := s.comms[c];
      s.(comms := s.comms[c := cm.(count := cm.count + 1, holders := cm.holders + multiset{to})])
    case CommRelease(t, c) =>
      var cm := s.comms[c];
      s.(comms := s.comms[c := CommLess(cm).(holders := cm.holders - multiset{t})])
    case CommDelete(c) => s.(comms := s.comms - {c}, deleted := s.deleted + multiset{c})
  }

  ghost predicate Run(sh: Shape, states: seq<State>, steps: seq<Step>)
    requires ValidShape(sh)
  {
    && |states| == |steps| + 1 && states[0] == START
    && forall i :: 0 <= i < |steps| ==> Enabled(states[i], steps[i]) && states[i + 1] == Apply(sh, states[i], steps[i])
  }

  // ----- the invariant

  /** The communicator a request still counts towards, if any. */
  function UserOf(r: Request): Option<nat> {
    if r.stage.Returning? then None else r.comm
  }

  /** The requests that still count towards communicator c. */
  function Users(requests: map<nat, Request>, c: nat): set<nat> {
    set n | n in requests && UserOf(requests[n]) == Some(c)
  }

  /** Live handles and present requests correspond one to one. */
  ghost predicate StorageOk(s: State) {
    && (forall h :: h in s.pool.live <==> h in s.slots)
    && (forall h :: h in s.slots ==> s.slots[h] in s.requests && s.requests[s.slots[h]].handle == h)
    && (forall n :: n in s.requests ==> s.requests[n].handle in s.slots && s.slots[s.requests[n].handle] == n)
  }

  predicate RequestOk(r: Request) {
    && r.count == |r.holders|
    && (r.stage.InUse? <==> r.count > 0)
    && (r.stage.Dropping? ==> r.comm.Some?)
  }

  /** A communicator's count is its holders plus the requests that point at it, and it is dying
      exactly when that is zero. */
  predicate CommOk(cm: Comm, users: set<nat>) {
    cm.count == |cm.holders| + |users| && (cm.dying <==> cm.count == 0)
  }

  ghost predicate CountsOk(requests: map<nat, Request>, comms: map<nat, Comm>) {
    && (forall n :: n in requests ==> RequestOk(requests[n]))
    && (forall c :: c in comms ==> CommOk(comms[c], Users(requests, c)))
    && (forall n :: n in requests && UserOf(requests[n]).Some? ==> UserOf(requests[n]).value in comms)
  }

  /** Each request has seen zero once if it is past use, and been returned once if it is gone; each
      communicator has been deleted once if it is gone. */
  ghost predicate LogsOk(s: State) {
    && (forall n :: n in s.requests ==> n < s.created)
    && (forall c :: c in s.comms ==> c < s.made)
    && (forall n: nat :: s.zeros[n] ==
          if n < s.created && !(n in s.requests && s.requests[n].stage.InUse?) then 1 else 0)
    && (forall n: nat :: s.returned[n] == if n < s.created && n !in s.requests then 1 else 0)
    && (forall c: nat :: s.deleted[c] == if c < s.made && c !in s.comms then 1 else 0)
  }

  ghost predicate Core(s: State) {
    && StorageOk(s)
    && CountsOk(s.requests, s.comms)
    && LogsOk(s)
  }

  ghost predicate Inv(sh: Shape, s: State) {
    PoolSpec.Inv(sh, s.pool) && Core(s)
  }

  // ----- every step keeps it

  /** A request changed without changing what it contributes to any communicator. */
  lemma RequestChangedCounts(requests: map<nat, Request>, comms: map<nat, Comm>, n: nat, r: Request)
    requires CountsOk(requests, comms) && n in requests && RequestOk(r) && UserOf(r) == UserOf(requests[n])
    ensures CountsOk(requests[n := r], comms)
  {
    forall c | c in comms ensures CommOk(comms[c], Users(requests[n := r], c)) {
      assert Users(requests[n := r], c) == Users(requests, c);
    }
  }

  lemma CreateCounts(requests: map<nat, Request>, comms: map<nat, Comm>, n: nat, r: Request)
    requires CountsOk(requests, comms) && n !in requests && RequestOk(r) && r.comm == None
    ensures CountsOk(requests[n := r], comms)
  {
    forall c | c in comms ensures CommOk(comms[c], Users(requests[n := r], c)) {
      assert Users(requests[n := r], c) == Users(requests, c);
    }
  }

  lemma CreateOk(sh: Shape, s: State, step: Step)
    requires Inv(sh, s) && step.Create?
    ensures Inv(sh, Apply(sh, s, step))
  {
    AllocKeepsInv(sh, s.pool, step.tableMemory, step.blockMemory);
    AllocMeaning(sh, s.pool, step.tableMemory, step.blockMemory);
    var (pool, got) := Alloc(sh, s.pool, step.tableMemory, step.blockMemory);
    if got.Gets? {
      CreateCore(s, pool, got.h, step.t);
    } else {
      FailedCore(s, pool);
    }
  }

  lemma FailedCore(s: State, pool: PoolState)
    requires Core(s) && pool.live == s.pool.live
    ensures Core(s.(pool := pool))
  {
  }

  lemma CreateCore(s: State, pool: PoolState, h: Handle, t: Thread)
    requires Core(s) && h !in s.pool.live && pool.live == s.pool.live + {h}
    ensures Core(s.(pool := pool, slots := s.slots[h := s.created], created := s.created + 1,
                    requests := s.requests[s.created := Request(h, 1, multiset{t}, None, InUse)]))
  {
    var r := Request(h, 1, multiset{t}, None, InUse);
    var s' := s.(pool := pool, slots := s.slots[h := s.created], created := s.created + 1,
                 requests := s.requests[s.created := r]);
    CreateCounts(s.requests, s.comms, s.created, r);
    CreateStorage(s, s', h, r);
    CreateLogs(s, s', r);
  }

  lemma CreateLogs(s: State, s': State, r: Request)
    requires LogsOk(s) && r.stage.InUse?
    requires s' == s.(pool := s'.pool, slots := s'.slots, created := s.created + 1,
                      requests := s.requests[s.created := r])
    ensures LogsOk(s')
  {
  }

  lemma CreateStorage(s: State, s': State, h: Handle, r: Request)
    requires StorageOk(s) && s.created !in s.requests && h !in s.pool.live && r.handle == h
    requires s'.pool.live == s.pool.live + {h} && s'.slots == s.slots[h := s.created]
    requires s'.requests == s.requests[s.created := r]
    ensures StorageOk(s')
  {
  }

  lemma {:induction false} RequestLessOk(r: Request, t: Thread)
    requires RequestOk(r) && t in r.holders
    ensures RequestOk(RequestLess(r, t)) && r.stage.InUse?
    ensures UserOf(RequestLess(r, t)) == UserOf(r)
  {
    assert r.holders == (r.holders - multiset{t}) + multiset{t};
  }

  lemma AddRefOk(sh: Shape, s: State, step: Step)
    requires ValidShape(sh) && Core(s) && Enabled(s, step) && step.AddRef?
    ensures Core(Apply(sh, s, step)) && Apply(sh, s, step).pool == s.pool
  {
    var s' := Apply(sh, s, step);
    assert RequestOk(s.requests[step.n]);
    RequestChangedCounts(s.requests, s.comms, step.n, s'.requests[step.n]);
    StorageSame(s, s', step.n);
  }

  lemma ReleaseLogs(s: State, n: nat, t: Thread)
    requires LogsOk(s) && n in s.requests && RequestOk(s.requests[n]) && t in s.requests[n].holders
    ensures LogsOk(s.(requests := s.requests[n := RequestLess(s.requests[n], t)],
                      zeros := if s.requests[n].count - 1 == 0 then s.zeros + multiset{n} else s.zeros))
  {
    RequestLessOk(s.requests[n], t);
  }

  lemma ReleaseOk(sh: Shape, s: State, step: Step)
    requires ValidShape(sh) && Core(s) && Enabled(s, step) && step.Release?
    ensures Core(Apply(sh, s, step)) && Apply(sh, s, step).pool == s.pool
  {
    RequestLessOk(s.requests[step.n], step.t);
    RequestChangedCounts(s.requests, s.comms, step.n, RequestLess(s.requests[step.n], step.t));
    ReleaseLogs(s, step.n, step.t);
    StorageSame(s, Apply(sh, s, step), step.n);
  }

  lemma StorageSame(s: State, s': State, n: nat)
    requires StorageOk(s) && n in s.requests && n in s'.requests && s'.pool == s.pool && s'.slots == s.slots
    requires s'.requests == s.requests[n := s'.requests[n]] && s'.requests[n].handle == s.requests[n].handle
    ensures StorageOk(s')
  {
  }

  lemma AttachCounts(requests: map<nat, Request>, comms: map<nat, Comm>, n: nat, c: nat)
    requires CountsOk(requests, comms) && n in requests && c in comms
    requires requests[n].comm == None && requests[n].stage.InUse? && |comms[c].holders| > 0
    ensures CountsOk(requests[n := requests[n].(comm := Some(c))], comms[c := comms[c].(count := comms[c].count + 1)])
  {
    var requests' := requests[n := requests[n].(comm := Some(c))];
    var comms' := comms[c := comms[c].(count := comms[c].count + 1)];
    assert Users(requests', c) == Users(requests, c) + {n};
    forall d | d in comms' ensures CommOk(comms'[d], Users(requests', d)) {
      assert CommOk(comms[d], Users(requests, d));
      assert d != c ==> Users(requests', d) == Users(requests, d);
    }
  }

  lemma HeldInUse(r: Request, t: Thread)
    requires RequestOk(r) && t in r.holders
    ensures r.stage.InUse?
  {
    RequestLessOk(r, t);
  }

  lemma AttachStorageOk(sh: Shape, s: State, step: Step)
    requires ValidShape(sh) && StorageOk(s) && Enabled(s, step) && step.Attach?
    ensures StorageOk(Apply(sh, s, step)) && Apply(sh, s, step).pool == s.pool
  {
    StorageSame(s, Apply(sh, s, step), step.n);
  }

  lemma AttachCountsOk(sh: Shape, s: State, step: Step)
    requires ValidShape(sh) && CountsOk(s.requests, s.comms) && Enabled(s, step) && step.Attach?
    ensures CountsOk(Apply(sh, s, step).requests, Apply(sh, s, step).comms)
  {
    HeldInUse(s.requests[step.n], step.t);
    assert |s.comms[step.c].holders| > 0;
    AttachCounts(s.requests, s.comms, step.n, step.c);
  }

  lemma AttachLogsOk(sh: Shape, s: State, step: Step)
    requires ValidShape(sh) && LogsOk(s) && Enabled(s, step) && step.Attach?
    ensures LogsOk(Apply(sh, s, step))
  {
    var s' := Apply(sh, s, step);
    assert s'.comms.Keys == s.comms.Keys;
    LogsSame(s, s', step.n);
  }

  lemma AttachOk(sh: Shape, s: State, step: Step)
    requires ValidShape(sh) && Core(s) && Enabled(s, step) && step.Attach?
    ensures Core(Apply(sh, s, step)) && Apply(sh, s, step).pool == s.pool
  {
    AttachStorageOk(sh, s, step);
    AttachCountsOk(sh, s, step);
    AttachLogsOk(sh, s, step);
  }

  lemma DropCounts(requests: map<nat, Request>, comms: map<nat, Comm>, n: nat)
    requires CountsOk(requests, comms) && n in requests && requests[n].stage.Dropping?
    ensures requests[n].comm.Some? && requests[n].comm.value in comms
    ensures var c := requests[n].comm.value;
            && comms[c].count >= 1 && !comms[c].dying
            && CountsOk(requests[n := requests[n].(stage := Returning)], comms[c := CommLess(comms[c])])
  {
    assert RequestOk(requests[n]);
    var c := requests[n].comm.value;
    var requests' := requests[n := requests[n].(stage := Returning)];
    var comms' := comms[c := CommLess(comms[c])];
    assert n in Users(requests, c) && Users(requests', c) == Users(requests, c) - {n};
    forall d | d in comms' ensures CommOk(comms'[d], Users(requests', d)) {
      assert CommOk(comms[d], Users(requests, d));
      assert d != c ==> Users(requests', d) == Users(requests, d);
    }
  }

  lemma DropCommCountsOk(sh: Shape, s: State, step: Step)
    requires ValidShape(sh) && CountsOk(s.requests, s.comms) && Enabled(s, step) && step.DropComm?
    ensures CountsOk(Apply(sh, s, step).requests, Apply(sh, s, step).comms)
    ensures Apply(sh, s, step).comms.Keys == s.comms.Keys
  {
    DropCounts(s.requests, s.comms, step.n);
  }

  lemma DropCommStorageOk(sh: Shape, s: State, step: Step)
    requires ValidShape(sh) && StorageOk(s) && Enabled(s, step) && step.DropComm?
    ensures StorageOk(Apply(sh, s, step)) && Apply(sh, s, step).pool == s.pool
  {
    StorageSame(s, Apply(sh, s, step), step.n);
  }

  lemma DropCommLogsOk(sh: Shape, s: State, step: Step)
    requires ValidShape(sh) && LogsOk(s) && Enabled(s, step) && step.DropComm?
    requires Apply(sh, s, step).comms.Keys == s.comms.Keys
    ensures LogsOk(Apply(sh, s, step))
  {
    LogsSame(s, Apply(sh, s, step), step.n);
  }

  lemma DropCommOk(sh: Shape, s: State, step: Step)
    requires ValidShape(sh) && Core(s) && Enabled(s, step) && step.DropComm?
    ensures Core(Apply(sh, s, step)) && Apply(sh, s, step).pool == s.pool
  {
    DropCommCountsOk(sh, s, step);
    DropCommStorageOk(sh, s, step);
    DropCommLogsOk(sh, s, step);
  }

  lemma LogsSame(s: State, s': State, n: nat)
    requires LogsOk(s) && n in s.requests && n in s'.requests && s'.requests == s.requests[n := s'.requests[n]]
    requires s'.requests[n].stage.InUse? == s.requests[n].stage.InUse? && s'.comms.Keys == s.comms.Keys
    requires s' == s.(requests := s'.requests, comms := s'.comms)
    ensures LogsOk(s')
  {
    assert forall c :: c in s'.comms <==> c in s'.comms.Keys;
    assert forall c :: c in s.comms <==> c in s.comms.Keys;
  }

  lemma ReturnCounts(requests: map<nat, Request>, comms: map<nat, Comm>, n: nat)
    requires CountsOk(requests, comms) && n in requests && requests[n].stage.Returning?
    ensures CountsOk(requests - {n}, comms)
  {
    forall c | c in comms ensures CommOk(comms[c], Users(requests - {n}, c)) {
      assert Users(requests - {n}, c) == Users(requests, c);
    }
  }

  lemma ReturnStorage(s: State, s': State, n: nat)
    requires StorageOk(s) && n in s.requests
    requires s'.pool.live == s.pool.live - {s.requests[n].handle} && s'.slots == s.slots - {s.requests[n].handle}
    requires s'.requests == s.requests - {n}
    ensures StorageOk(s')
  {
  }

  lemma ReturnOk(sh: Shape, s: State, step: Step)
    requires Inv(sh, s) && Enabled(s, step) && step.ReturnToPool?
    ensures Inv(sh, Apply(sh, s, step))
  {
    assert s.requests[step.n].handle in s.pool.live;
    FreeKeepsInv(sh, s.pool, s.requests[step.n].handle);
    ReturnCore(s, Apply(sh, s, step), step.n);
  }

  lemma ReturnCore(s: State, s': State, n: nat)
    requires Core(s) && n in s.requests && s.requests[n].stage.Returning?
    requires s'.pool.live == s.pool.live - {s.requests[n].handle}
    requires s' == s.(pool := s'.pool, slots := s.slots - {s.requests[n].handle}, requests := s.requests - {n},
                      returned := s.returned + multiset{n})
    ensures Core(s')
  {
    ReturnCounts(s.requests, s.comms, n);
    ReturnStorage(s, s', n);
    ReturnLogs(s, s', n);
  }

  lemma ReturnLogs(s: State, s': State, n: nat)
    requires LogsOk(s) && n in s.requests && s.requests[n].stage.Returning?
    requires s' == s.(pool := s'.pool, slots := s'.slots, requests := s.requests - {n},
                      returned := s.returned + multiset{n})
    ensures LogsOk(s')
  {
  }

  lemma CommLessOk(cm: Comm, t: Thread, users: set<nat>)
    requires CommOk(cm, users) && t in cm.holders
    ensures CommOk(CommLess(cm).(holders := cm.holders - multiset{t}), users) && !cm.dying
  {
    assert cm.holders == (cm.holders - multiset{t}) + multiset{t};
  }

  lemma CommChangedCounts(requests: map<nat, Request>, comms: map<nat, Comm>, c: nat, cm: Comm)
    requires CountsOk(requests, comms) && CommOk(cm, Users(requests, c))
    ensures CountsOk(requests, comms[c := cm])
  {
  }

  lemma CommDeletedCounts(requests: map<nat, Request>, comms: map<nat, Comm>, c: nat)
    requires CountsOk(requests, comms) && c in comms && comms[c].dying
    ensures Users(requests, c) == {} && comms[c].holders == multiset{}
    ensures CountsOk(requests, comms - {c})
  {
    assert CommOk(comms[c], Users(requests, c));
    forall n | n in requests ensures UserOf(requests[n]) != Some(c) {
      assert n !in Users(requests, c);
    }
  }

  lemma UnmadeCommUnused(s: State)
    requires CountsOk(s.requests, s.comms) && LogsOk(s)
    ensures Users(s.requests, s.made) == {}
  {
  }

  lemma CommLogs(s: State, c: nat, cm: Comm)
    requires LogsOk(s) && c <= s.made
    ensures LogsOk(s.(made := if c < s.made then s.made else s.made + 1, comms := s.comms[c := cm]))
         || (c < s.made && c !in s.comms)
  {
  }

  lemma CommCreateOk(sh: Shape, s: State, step: Step)
    requires ValidShape(sh) && Core(s) && step.CommCreate?
    ensures Core(Apply(sh, s, step)) && Apply(sh, s, step).pool == s.pool
  {
    UnmadeCommUnused(s);
    CommChangedCounts(s.requests, s.comms, s.made, Comm(1, multiset{step.t}, false));
    CommLogs(s, s.made, Comm(1, multiset{step.t}, false));
  }

  lemma CommCountOk(sh: Shape, s: State, step: Step)
    requires ValidShape(sh) && Core(s) && Enabled(s, step) && (step.CommAddRef? || step.CommRelease?)
    ensures Core(Apply(sh, s, step)) && Apply(sh, s, step).pool == s.pool
  {
    var cm := Apply(sh, s, step).comms[step.c];
    assert CommOk(s.comms[step.c], Users(s.requests, step.c));
    if step.CommRelease? {
      CommLessOk(s.comms[step.c], step.t, Users(s.requests, step.c));
    }
    CommChangedCounts(s.requests, s.comms, step.c, cm);
    CommLogs(s, step.c, cm);
  }

  lemma CommDeleteOk(sh: Shape, s: State, step: Step)
    requires ValidShape(sh) && Core(s) && Enabled(s, step) && step.CommDelete?
    ensures Core(Apply(sh, s, step)) && Apply(sh, s, step).pool == s.pool
  {
    CommDeletedCounts(s.requests, s.comms, step.c);
  }

  lemma StepOk(sh: Shape, s: State, step: Step)
    requires Inv(sh, s) && Enabled(s, step)
    ensures Inv(sh, Apply(sh, s, step))
  {
    match step
    case Create(_, _, _) => CreateOk(sh, s, step);
    case AddRef(_, _, _) => AddRefOk(sh, s, step);
    case Attach(_, _, _) => AttachOk(sh, s, step);
    case Release(_, _) => ReleaseOk(sh, s, step);
    case DropComm(_) => DropCommOk(sh, s, step);
    case ReturnToPool(_) => ReturnOk(sh, s, step);
    case CommCreate(_) => CommCreateOk(sh, s, step);
    case CommDelete(_) => CommDeleteOk(sh, s, step);
    case _ => CommCountOk(sh, s, step);
  }

  lemma {:induction false} RunOk(sh: Shape, states: seq<State>, steps: seq<Step>, i: nat)
    requires ValidShape(sh) && Run(sh, states, steps) && i < |states|
    ensures Inv(sh, states[i])
  {
    if i > 0 {
      RunOk(sh, states, steps, i - 1);
      StepOk(sh, states[i - 1], steps[i - 1]);
    }
  }

  lemma RunCore(sh: Shape, states: seq<State>, steps: seq<Step>, i: nat)
    requires ValidShape(sh) && Run(sh, states, steps) && i < |states|
    ensures Core(states[i])
  {
    RunOk(sh, states, steps, i);
  }

  // ----- whole runs

  /** Whoever holds a reference sees a live object: the request is in use and its storage is not in
      the free list; a communicator held by a thread, or by a request still in use, is not dying. */
  lemma HoldersSeeLiveObjects(sh: Shape, states: seq<State>, steps: seq<Step>, i: nat)
    requires ValidShape(sh) && Run(sh, states, steps) && i < |states|
    ensures var s := states[i];
            && (forall n, t: Thread :: n in s.requests && t in s.requests[n].holders ==>
                  s.requests[n].stage.InUse? && s.requests[n].handle in s.pool.live
                  && s.requests[n].handle !in s.pool.free)
            && (forall c, t: Thread :: c in s.comms && t in s.comms[c].holders ==> !s.comms[c].dying)
            && (forall n :: n in s.requests && UserOf(s.requests[n]).Some? ==>
                  UserOf(s.requests[n]).value in s.comms && !s.comms[UserOf(s.requests[n]).value].dying)
  {
    RunOk(sh, states, steps, i);
    var s := states[i];
    forall n, t: Thread | n in s.requests && t in s.requests[n].holders ensures s.requests[n].stage.InUse? {
      RequestLessOk(s.requests[n], t);
    }
    forall c, t: Thread | c in s.comms && t in s.comms[c].holders ensures !s.comms[c].dying {
      CommLessOk(s.comms[c], t, Users(s.requests, c));
    }
    forall n | n in s.requests && UserOf(s.requests[n]).Some?
      ensures !s.comms[UserOf(s.requests[n]).value].dying
    {
      var c := UserOf(s.requests[n]).value;
      assert n in Users(s.requests, c);
      assert CommOk(s.comms[c], Users(s.requests, c));
    }
  }

  /** Exactly once: over any run, no request's count is seen at zero twice, none is returned twice
      and none before its count was seen at zero; no communicator is deleted twice, and when one is,
      nobody holds it and no request points at it. */
  lemma ExactlyOnce(sh: Shape, states: seq<State>, steps: seq<Step>, i: nat)
    requires ValidShape(sh) && Run(sh, states, steps) && i < |states|
    ensures var s := states[i];
            && (forall n: nat :: s.returned[n] <= s.zeros[n] <= 1)
            && (forall c: nat :: s.deleted[c] <= 1)
            && (forall n: nat :: n < s.created ==> (s.returned[n] == 1 <==> n !in s.requests))
            && (forall c: nat :: c < s.made ==> (s.deleted[c] == 1 <==> c !in s.comms))
            && (i < |steps| && steps[i].CommDelete? ==>
                  s.comms[steps[i].c].holders == multiset{} && Users(s.requests, steps[i].c) == {})
  {
    RunCore(sh, states, steps, i);
    if i < |steps| && steps[i].CommDelete? {
      CommDeletedCounts(states[i].requests, states[i].comms, steps[i].c);
    }
  }

  predicate TakesApart(step: Step) {
    step.DropComm? || step.ReturnToPool? || step.CommDelete?
  }

  /** Nothing leaks: once every reference has been given up, either every request is back in the pool
      and every communicator is deleted, or some thread still has a step to take an object apart. */
  lemma NothingLeaks(sh: Shape, states: seq<State>, steps: seq<Step>, i: nat)
    requires ValidShape(sh) && Run(sh, states, steps) && i < |states|
    requires forall n :: n in states[i].requests ==> states[i].requests[n].holders == multiset{}
    requires forall c :: c in states[i].comms ==> states[i].comms[c].holders == multiset{}
    ensures var s := states[i];
            || (s.pool.live == {} && s.requests == map[] && s.comms == map[])
            || exists step :: TakesApart(step) && Enabled(s, step)
  {
    RunCore(sh, states, steps, i);
    var s := states[i];
    if n :| n in s.requests {
      assert RequestOk(s.requests[n]);
      var step := if s.requests[n].stage.Dropping? then DropComm(n) else ReturnToPool(n);
      assert TakesApart(step) && Enabled(s, step);
    } else if c :| c in s.comms {
      assert CommOk(s.comms[c], Users(s.requests, c));
      assert Users(s.requests, c) == {};
      assert TakesApart(CommDelete(c)) && Enabled(s, CommDelete(c));
    } else {
      assert s.requests.Keys == {} && s.comms.Keys == {};
      assert forall h :: h in s.pool.live ==> h in s.slots;
    }
  }

  function Undropped(requests: map<nat, Request>): set<nat> {
    set n | n in requests && !requests[n].stage.Returning?
  }

  /** What is still to be taken apart. */
  function Debris(s: State): nat {
    |Undropped(s.requests)| + |s.requests.Keys| + |s.comms.Keys|
  }

  lemma UndroppedLess(requests: map<nat, Request>, n: nat, r: Request)
    requires n in requests && !requests[n].stage.Returning? && r.stage.Returning?
    ensures |Undropped(requests[n := r])| == |Undropped(requests)| - 1
  {
    assert Undropped(requests[n := r]) == Undropped(requests) - {n};
  }

  lemma UndroppedSame(requests: map<nat, Request>, n: nat)
    requires n in requests && requests[n].stage.Returning?
    ensures Undropped(requests - {n}) == Undropped(requests)
  {
  }

  lemma KeysLess<V>(m: map<nat, V>, k: nat)
    requires k in m
    ensures |(m - {k}).Keys| == |m.Keys| - 1
  {
    assert (m - {k}).Keys == m.Keys - {k};
  }

  /** Every such step leaves less, so taking things apart comes to an end. */
  lemma TakingApartCosts(sh: Shape, s: State, step: Step)
    requires ValidShape(sh) && Enabled(s, step) && TakesApart(step)
    ensures Debris(Apply(sh, s, step)) < Debris(s)
  {
    match step {
      case DropComm(n) => DropCosts(sh, s, n);
      case ReturnToPool(n) => ReturnCosts(sh, s, n);
      case CommDelete(c) => DeleteCosts(sh, s, c);
    }
  }

  lemma DropCosts(sh: Shape, s: State, n: nat)
    requires ValidShape(sh) && Enabled(s, DropComm(n))
    ensures Debris(Apply(sh, s, DropComm(n))) < Debris(s)
  {
    var r := s.requests[n].(stage := Returning);
    var comms' := Apply(sh, s, DropComm(n)).comms;
    assert Apply(sh, s, DropComm(n)).requests == s.requests[n := r];
    assert comms'.Keys == s.comms.Keys;
    UndroppedLess(s.requests, n, r);
    assert s.requests[n := r].Keys == s.requests.Keys;
  }

  lemma ReturnCosts(sh: Shape, s: State, n: nat)
    requires ValidShape(sh) && Enabled(s, ReturnToPool(n))
    ensures Debris(Apply(sh, s, ReturnToPool(n))) < Debris(s)
  {
    UndroppedSame(s.requests, n);
    KeysLess(s.requests, n);
  }

  lemma DeleteCosts(sh: Shape, s: State, c: nat)
    requires ValidShape(sh) && Enabled(s, CommDelete(c))
    ensures Debris(Apply(sh, s, CommDelete(c))) < Debris(s)
  {
    KeysLess(s.comms, c);
  }
}
