/**
 * The reference counts of `Lifetime` worked out from the steps of a run alone: how many references
 * were made and given up, and by whom.
 */
module LifetimeLedger {
  import opened Options
  import PoolSpec
  import opened Lifetime

  // ----- what the steps say

  /** References to request n: one from its creation, one per add-ref, less one per release. */
  function Refs(steps: seq<Step>, n: nat): int {
    if steps == [] then 1
    else Refs(steps[..|steps| - 1], n) + RefChange(steps[|steps| - 1], n)
  }

  function RefChange(step: Step, n: nat): int {
    match step
    case AddRef(_, _, m) => if m == n then 1 else 0
    case Release(_, m) => if m == n then -1 else 0
    case _ => 0
  }

  /** The communicator attached to request n. */
  function AttachedTo(steps: seq<Step>, n: nat): Option<nat> {
    if steps == [] then None
    else Attached(steps[|steps| - 1], n, AttachedTo(steps[..|steps| - 1], n))
  }

  function Attached(step: Step, n: nat, before: Option<nat>): Option<nat> {
    if step.Attach? && step.n == n then Some(step.c) else before
  }

  /** References to communicator c: as for requests, and one per attached request until that drops it. */
  function CommRefs(steps: seq<Step>, c: nat): int {
    if steps == [] then 1
    else
      var init, step := steps[..|steps| - 1], steps[|steps| - 1];
      CommRefs(init, c) + CommRefChange(step, c, Dropped(init, step))
  }

  // `dropped` is the communicator that a DropComm step gives up.
  function CommRefChange(step: Step, c: nat, dropped: Option<nat>): int {
    match step
    case CommAddRef(_, _, d) => if d == c then 1 else 0
    case CommRelease(_, d) => if d == c then -1 else 0
    case Attach(_, _, d) => if d == c then 1 else 0
    case DropComm(_) => if dropped == Some(c) then -1 else 0
    case _ => 0
  }

  // ----- requests

  ghost predicate RequestLedger(s: State, n: nat, refs: int, attached: Option<nat>) {
    && (n in s.requests ==> s.requests[n].count == refs && s.requests[n].comm == attached)
    && (n >= s.created ==> refs == 1 && attached == None)
    && (n < s.created && n !in s.requests ==> refs == 0)
  }

  lemma RequestLedgerStep(sh: PoolSpec.Shape, s: State, step: Step, n: nat, refs: int, attached: Option<nat>)
    requires PoolSpec.ValidShape(sh) && Enabled(s, step) && RequestLedger(s, n, refs, attached)
    requires forall m <- s.requests :: m < s.created && RequestOk(s.requests[m])
    ensures RequestLedger(Apply(sh, s, step), n, refs + RefChange(step, n), Attached(step, n, attached))
  {
    match step
    case ReturnToPool(m) => assert RequestOk(s.requests[m]);
    case _ =>
  }

  // What the invariant says about single objects.
  lemma RequestsKnown(sh: PoolSpec.Shape, states: seq<State>, steps: seq<Step>, i: nat)
    requires PoolSpec.ValidShape(sh) && Run(sh, states, steps) && i < |states|
    ensures forall m <- states[i].requests :: m < states[i].created && RequestOk(states[i].requests[m])
  {
    RunCore(sh, states, steps, i);
  }

  lemma CommsKnown(sh: PoolSpec.Shape, states: seq<State>, steps: seq<Step>, i: nat)
    requires PoolSpec.ValidShape(sh) && Run(sh, states, steps) && i < |states|
    ensures forall d <- states[i].comms ::
      d < states[i].made && CommOk(states[i].comms[d], Users(states[i].requests, d))
  {
    RunCore(sh, states, steps, i);
  }

  lemma LedgerSnoc(steps: seq<Step>, i: nat, n: nat)
    requires 0 < i <= |steps|
    ensures Refs(steps[..i], n) == Refs(steps[..i - 1], n) + RefChange(steps[i - 1], n)
    ensures AttachedTo(steps[..i], n) == Attached(steps[i - 1], n, AttachedTo(steps[..i - 1], n))
  {
    assert steps[..i][..i - 1] == steps[..i - 1];
  }

  lemma NextRequestLedger(sh: PoolSpec.Shape, states: seq<State>, steps: seq<Step>, i: nat, n: nat, refs: int, attached: Option<nat>)
    requires PoolSpec.ValidShape(sh) && Run(sh, states, steps) && i < |steps| && RequestLedger(states[i], n, refs, attached)
    ensures RequestLedger(states[i + 1], n, refs + RefChange(steps[i], n), Attached(steps[i], n, attached))
  {
    RequestsKnown(sh, states, steps, i);
    RequestLedgerStep(sh, states[i], steps[i], n, refs, attached);
  }

  lemma {:induction false} RunRequestLedger(sh: PoolSpec.Shape, states: seq<State>, steps: seq<Step>, i: nat, n: nat)
    requires PoolSpec.ValidShape(sh) && Run(sh, states, steps) && i < |states|
    ensures RequestLedger(states[i], n, Refs(steps[..i], n), AttachedTo(steps[..i], n))
  {
    if i > 0 {
      RunRequestLedger(sh, states, steps, i - 1, n);
      NextRequestLedger(sh, states, steps, i - 1, n, Refs(steps[..i - 1], n), AttachedTo(steps[..i - 1], n));
      LedgerSnoc(steps, i, n);
    }
  }

  // ----- communicators

  ghost predicate CommLedger(s: State, c: nat, refs: int) {
    && (c in s.comms ==> s.comms[c].count == refs)
    && (c >= s.made ==> refs == 1)
    && (c < s.made && c !in s.comms ==> refs == 0)
  }

  lemma CommLedgerStep(sh: PoolSpec.Shape, s: State, step: Step, c: nat, refs: int, dropped: Option<nat>)
    requires PoolSpec.ValidShape(sh) && Enabled(s, step) && CommLedger(s, c, refs)
    requires forall d <- s.comms :: d < s.made && CommOk(s.comms[d], Users(s.requests, d))
    requires step.DropComm? ==> s.requests[step.n].comm == dropped && dropped.Some? && dropped.value in s.comms
    ensures CommLedger(Apply(sh, s, step), c, refs + CommRefChange(step, c, dropped))
  {
    match step
    case CommDelete(d) => assert CommOk(s.comms[d], Users(s.requests, d));
    case _ =>
  }

  lemma CommLedgerSnoc(steps: seq<Step>, i: nat, c: nat)
    requires 0 < i <= |steps|
    ensures var step := steps[i - 1];
      CommRefs(steps[..i], c) == CommRefs(steps[..i - 1], c) + CommRefChange(step, c, Dropped(steps[..i - 1], step))
  {
    assert steps[..i][..i - 1] == steps[..i - 1];
  }

  // The communicator that a DropComm step gives up, from the steps before it.
  function Dropped(steps: seq<Step>, step: Step): Option<nat> {
    if step.DropComm? then AttachedTo(steps, step.n) else None
  }

  lemma NextCommLedger(sh: PoolSpec.Shape, states: seq<State>, steps: seq<Step>, i: nat, c: nat, refs: int)
    requires PoolSpec.ValidShape(sh) && Run(sh, states, steps) && i < |steps| && CommLedger(states[i], c, refs)
    ensures CommLedger(states[i + 1], c, refs + CommRefChange(steps[i], c, Dropped(steps[..i], steps[i])))
  {
    DropAttached(sh, states, steps, i);
    CommsKnown(sh, states, steps, i);
    CommLedgerStep(sh, states[i], steps[i], c, refs, Dropped(steps[..i], steps[i]));
  }

  lemma {:induction false} RunCommLedger(sh: PoolSpec.Shape, states: seq<State>, steps: seq<Step>, i: nat, c: nat)
    requires PoolSpec.ValidShape(sh) && Run(sh, states, steps) && i < |states|
    ensures CommLedger(states[i], c, CommRefs(steps[..i], c))
  {
    if i > 0 {
      RunCommLedger(sh, states, steps, i - 1, c);
      NextCommLedger(sh, states, steps, i - 1, c, CommRefs(steps[..i - 1], c));
      CommLedgerSnoc(steps, i, c);
    }
  }

  lemma DropAttached(sh: PoolSpec.Shape, states: seq<State>, steps: seq<Step>, i: nat)
    requires PoolSpec.ValidShape(sh) && Run(sh, states, steps) && i < |steps|
    ensures var s := states[i];
      steps[i].DropComm? ==>
        && s.requests[steps[i].n].comm == AttachedTo(steps[..i], steps[i].n)
        && s.requests[steps[i].n].comm.Some? && s.requests[steps[i].n].comm.value in s.comms
  {
    if steps[i].DropComm? {
      RunRequestLedger(sh, states, steps, i, steps[i].n);
      RunCore(sh, states, steps, i);
      assert RequestOk(states[i].requests[steps[i].n]);
    }
  }

  // ----- whole runs

  /** In every run the count of a request is one plus its add-refs less its releases, and the count
      of a communicator counts its attached requests too. */
  lemma CountsAreBalances(sh: PoolSpec.Shape, states: seq<State>, steps: seq<Step>, i: nat)
    requires PoolSpec.ValidShape(sh) && Run(sh, states, steps) && i < |states|
    ensures forall n <- states[i].requests :: states[i].requests[n].count == Refs(steps[..i], n)
    ensures forall c <- states[i].comms :: states[i].comms[c].count == CommRefs(steps[..i], c)
  {
    forall n <- states[i].requests
      ensures states[i].requests[n].count == Refs(steps[..i], n)
    {
      RunRequestLedger(sh, states, steps, i, n);
    }
    forall c <- states[i].comms
      ensures states[i].comms[c].count == CommRefs(steps[..i], c)
    {
      RunCommLedger(sh, states, steps, i, c);
    }
  }

  /** A request that was created is out of use exactly when its releases outnumber its add-refs by
      one; then it has been returned or a step that takes it apart is enabled. */
  lemma OutOfUseIff(sh: PoolSpec.Shape, states: seq<State>, steps: seq<Step>, i: nat, n: nat)
    requires PoolSpec.ValidShape(sh) && Run(sh, states, steps) && i < |states| && n < states[i].created
    ensures var s := states[i];
      && Refs(steps[..i], n) >= 0
      && (Refs(steps[..i], n) > 0 <==> n in s.requests && s.requests[n].stage.InUse?)
      && (Refs(steps[..i], n) == 0 ==>
            n !in s.requests || Enabled(s, DropComm(n)) || Enabled(s, ReturnToPool(n)))
  {
    RunRequestLedger(sh, states, steps, i, n);
    RequestsKnown(sh, states, steps, i);
    if n in states[i].requests {
      assert RequestOk(states[i].requests[n]);
    }
  }

  /** The same for a communicator: its last reference gone, it has been deleted or can be. */
  lemma CommOutOfUseIff(sh: PoolSpec.Shape, states: seq<State>, steps: seq<Step>, i: nat, c: nat)
    requires PoolSpec.ValidShape(sh) && Run(sh, states, steps) && i < |states| && c < states[i].made
    ensures var s := states[i];
      && CommRefs(steps[..i], c) >= 0
      && (CommRefs(steps[..i], c) > 0 <==> c in s.comms && !s.comms[c].dying)
      && (CommRefs(steps[..i], c) == 0 ==> c !in s.comms || Enabled(s, CommDelete(c)))
  {
    RunCommLedger(sh, states, steps, i, c);
    CommsKnown(sh, states, steps, i);
    if c in states[i].comms {
      assert CommOk(states[i].comms[c], Users(states[i].requests, c));
    }
  }

  // ----- who holds them

  /** References to request n that thread t was given, less those it gave up. */
  function Holding(states: seq<State>, steps: seq<Step>, i: nat, n: nat, t: Thread): int
    requires i < |states| && |states| == |steps| + 1
  {
    if i == 0 then 0
    else
      Holding(states, steps, i - 1, n, t) + Change(states[i - 1], states[i], steps[i - 1], n, t)
  }

  function CommHolding(states: seq<State>, steps: seq<Step>, i: nat, c: nat, t: Thread): int
    requires i < |states| && |states| == |steps| + 1
  {
    if i == 0 then 0
    else
      CommHolding(states, steps, i - 1, c, t) + CommChange(states[i - 1], steps[i - 1], c, t)
  }

  ghost predicate HoldingIs(s: State, n: nat, t: Thread, holding: int) {
    && (n in s.requests ==> s.requests[n].holders[t] == holding)
    && (n !in s.requests ==> holding == 0)
  }

  // What a step changes about thread t's references to request n.
  function Change(s: State, s': State, step: Step, n: nat, t: Thread): int {
    match step
    case Create(u, _, _) => if u == t && s.created == n < s'.created then 1 else 0
    case AddRef(_, to, m) => if m == n && to == t then 1 else 0
    case Release(u, m) => if m == n && u == t then -1 else 0
    case _ => 0
  }

  lemma CreateHolding(sh: PoolSpec.Shape, s: State, step: Step, n: nat, t: Thread, holding: int)
    requires PoolSpec.ValidShape(sh) && Enabled(s, step) && HoldingIs(s, n, t, holding)
    requires step.Create? && forall m <- s.requests :: m < s.created
    ensures var s' := Apply(sh, s, step);
      HoldingIs(s', n, t, holding + Change(s, s', step, n, t))
  {
  }

  lemma AddRefHolding(sh: PoolSpec.Shape, s: State, step: Step, n: nat, t: Thread, holding: int)
    requires PoolSpec.ValidShape(sh) && Enabled(s, step) && HoldingIs(s, n, t, holding)
    requires step.AddRef?
    ensures var s' := Apply(sh, s, step);
      HoldingIs(s', n, t, holding + Change(s, s', step, n, t))
  {
  }

  lemma ReleaseHolding(sh: PoolSpec.Shape, s: State, step: Step, n: nat, t: Thread, holding: int)
    requires PoolSpec.ValidShape(sh) && Enabled(s, step) && HoldingIs(s, n, t, holding)
    requires step.Release?
    ensures var s' := Apply(sh, s, step);
      HoldingIs(s', n, t, holding + Change(s, s', step, n, t))
  {
  }

  lemma ReturnHolding(sh: PoolSpec.Shape, s: State, step: Step, n: nat, t: Thread, holding: int)
    requires PoolSpec.ValidShape(sh) && Enabled(s, step) && HoldingIs(s, n, t, holding)
    requires step.ReturnToPool? && RequestOk(s.requests[step.n])
    ensures var s' := Apply(sh, s, step);
      HoldingIs(s', n, t, holding + Change(s, s', step, n, t))
  {
    NoneHold(s.requests[step.n]);
  }

  lemma AttachHolding(sh: PoolSpec.Shape, s: State, step: Step, n: nat, t: Thread, holding: int)
    requires PoolSpec.ValidShape(sh) && Enabled(s, step) && HoldingIs(s, n, t, holding)
    requires step.Attach? || step.DropComm?
    ensures var s' := Apply(sh, s, step);
      HoldingIs(s', n, t, holding + Change(s, s', step, n, t))
  {
  }

  lemma CommStepHolding(sh: PoolSpec.Shape, s: State, step: Step, n: nat, t: Thread, holding: int)
    requires PoolSpec.ValidShape(sh) && Enabled(s, step) && HoldingIs(s, n, t, holding)
    requires step.CommCreate? || step.CommAddRef? || step.CommRelease? || step.CommDelete?
    ensures var s' := Apply(sh, s, step);
      HoldingIs(s', n, t, holding + Change(s, s', step, n, t))
  {
  }

  lemma HoldingStep(sh: PoolSpec.Shape, s: State, step: Step, n: nat, t: Thread, holding: int)
    requires PoolSpec.ValidShape(sh) && Enabled(s, step) && HoldingIs(s, n, t, holding)
    requires forall m <- s.requests :: m < s.created && RequestOk(s.requests[m])
    ensures var s' := Apply(sh, s, step);
      HoldingIs(s', n, t, holding + Change(s, s', step, n, t))
  {
    match step
    case Create(_, _, _) => CreateHolding(sh, s, step, n, t, holding);
    case AddRef(_, _, _) => AddRefHolding(sh, s, step, n, t, holding);
    case Release(_, _) => ReleaseHolding(sh, s, step, n, t, holding);
    case ReturnToPool(_) => ReturnHolding(sh, s, step, n, t, holding);
    case Attach(_, _, _) => AttachHolding(sh, s, step, n, t, holding);
    case DropComm(_) => AttachHolding(sh, s, step, n, t, holding);
    case _ => CommStepHolding(sh, s, step, n, t, holding);
  }

  lemma NoneHold(r: Request)
    requires RequestOk(r) && r.stage.Returning?
    ensures r.holders == multiset{}
  {
  }

  lemma {:induction false} RunHolding(sh: PoolSpec.Shape, states: seq<State>, steps: seq<Step>, i: nat, n: nat, t: Thread)
    requires PoolSpec.ValidShape(sh) && Run(sh, states, steps) && i < |states|
    ensures HoldingIs(states[i], n, t, Holding(states, steps, i, n, t))
  {
    if i > 0 {
      RunHolding(sh, states, steps, i - 1, n, t);
      RequestsKnown(sh, states, steps, i - 1);
      HoldingStep(sh, states[i - 1], steps[i - 1], n, t, Holding(states, steps, i - 1, n, t));
    }
  }

  ghost predicate CommHoldingIs(s: State, c: nat, t: Thread, holding: int) {
    && (c in s.comms ==> s.comms[c].holders[t] == holding)
    && (c !in s.comms ==> holding == 0)
  }

  function CommChange(s: State, step: Step, c: nat, t: Thread): int {
    match step
    case CommCreate(u) => if u == t && s.made == c then 1 else 0
    case CommAddRef(_, to, d) => if d == c && to == t then 1 else 0
    case CommRelease(u, d) => if d == c && u == t then -1 else 0
    case _ => 0
  }

  lemma CommCreateHolding(sh: PoolSpec.Shape, s: State, step: Step, c: nat, t: Thread, holding: int)
    requires PoolSpec.ValidShape(sh) && Enabled(s, step) && CommHoldingIs(s, c, t, holding)
    requires step.CommCreate? && forall d <- s.comms :: d < s.made
    ensures CommHoldingIs(Apply(sh, s, step), c, t, holding + CommChange(s, step, c, t))
  {
  }

  lemma CommAddRefHolding(sh: PoolSpec.Shape, s: State, step: Step, c: nat, t: Thread, holding: int)
    requires PoolSpec.ValidShape(sh) && Enabled(s, step) && CommHoldingIs(s, c, t, holding)
    requires step.CommAddRef?
    ensures CommHoldingIs(Apply(sh, s, step), c, t, holding + CommChange(s, step, c, t))
  {
  }

  lemma CommReleaseHolding(sh: PoolSpec.Shape, s: State, step: Step, c: nat, t: Thread, holding: int)
    requires PoolSpec.ValidShape(sh) && Enabled(s, step) && CommHoldingIs(s, c, t, holding)
    requires step.CommRelease?
    ensures CommHoldingIs(Apply(sh, s, step), c, t, holding + CommChange(s, step, c, t))
  {
  }

  lemma CommDeleteHolding(sh: PoolSpec.Shape, s: State, step: Step, c: nat, t: Thread, holding: int)
    requires PoolSpec.ValidShape(sh) && Enabled(s, step) && CommHoldingIs(s, c, t, holding)
    requires step.CommDelete? && CommOk(s.comms[step.c], Users(s.requests, step.c))
    ensures CommHoldingIs(Apply(sh, s, step), c, t, holding + CommChange(s, step, c, t))
  {
    assert s.comms[step.c].holders == multiset{};
  }

  lemma AttachCommHolding(sh: PoolSpec.Shape, s: State, step: Step, c: nat, t: Thread, holding: int)
    requires PoolSpec.ValidShape(sh) && Enabled(s, step) && CommHoldingIs(s, c, t, holding)
    requires step.Attach? || step.DropComm?
    ensures CommHoldingIs(Apply(sh, s, step), c, t, holding + CommChange(s, step, c, t))
  {
  }

  lemma RequestStepHolding(sh: PoolSpec.Shape, s: State, step: Step, c: nat, t: Thread, holding: int)
    requires PoolSpec.ValidShape(sh) && Enabled(s, step) && CommHoldingIs(s, c, t, holding)
    requires step.Create? || step.AddRef? || step.Release? || step.ReturnToPool?
    ensures CommHoldingIs(Apply(sh, s, step), c, t, holding + CommChange(s, step, c, t))
  {
  }

  lemma CommHoldingStep(sh: PoolSpec.Shape, s: State, step: Step, c: nat, t: Thread, holding: int)
    requires PoolSpec.ValidShape(sh) && Enabled(s, step) && CommHoldingIs(s, c, t, holding)
    requires forall d <- s.comms :: d < s.made && CommOk(s.comms[d], Users(s.requests, d))
    ensures CommHoldingIs(Apply(sh, s, step), c, t, holding + CommChange(s, step, c, t))
  {
    match step
    case CommCreate(_) => CommCreateHolding(sh, s, step, c, t, holding);
    case CommAddRef(_, _, _) => CommAddRefHolding(sh, s, step, c, t, holding);
    case CommRelease(_, _) => CommReleaseHolding(sh, s, step, c, t, holding);
    case CommDelete(_) => CommDeleteHolding(sh, s, step, c, t, holding);
    case Attach(_, _, _) => AttachCommHolding(sh, s, step, c, t, holding);
    case DropComm(_) => AttachCommHolding(sh, s, step, c, t, holding);
    case _ => RequestStepHolding(sh, s, step, c, t, holding);
  }

  lemma {:induction false} RunCommHolding(sh: PoolSpec.Shape, states: seq<State>, steps: seq<Step>, i: nat, c: nat, t: Thread)
    requires PoolSpec.ValidShape(sh) && Run(sh, states, steps) && i < |states|
    ensures CommHoldingIs(states[i], c, t, CommHolding(states, steps, i, c, t))
  {
    if i > 0 {
      RunCommHolding(sh, states, steps, i - 1, c, t);
      CommsKnown(sh, states, steps, i - 1);
      CommHoldingStep(sh, states[i - 1], steps[i - 1], c, t, CommHolding(states, steps, i - 1, c, t));
    }
  }

  /** In every run a thread can release a request, or a communicator, exactly when it has been given
      more references to it than it has given up; the balance is never negative. */
  lemma HoldersCanRelease(sh: PoolSpec.Shape, states: seq<State>, steps: seq<Step>, i: nat, n: nat, t: Thread)
    requires PoolSpec.ValidShape(sh) && Run(sh, states, steps) && i < |states|
    ensures Holding(states, steps, i, n, t) >= 0 && CommHolding(states, steps, i, n, t) >= 0
    ensures Holding(states, steps, i, n, t) > 0 <==> Enabled(states[i], Release(t, n))
    ensures CommHolding(states, steps, i, n, t) > 0 <==> Enabled(states[i], CommRelease(t, n))
  {
    RunHolding(sh, states, steps, i, n, t);
    RunCommHolding(sh, states, steps, i, n, t);
  }
}
