/**
 * The completion counter of a request in its two forms: the plain one that a global lock
 * protects (src/include/mpir_refcount_single.h) and the atomic one that threads share
 * (src/include/mpir_refcount_pobj.h). Every operation on the atomic form is one atomic step,
 * so an interleaving of threads is a sequence of operations.
 */
module Completion {

  datatype Op = Set(value: int) | Incr | Decr | IsComplete

  // What an operation returns through its out-argument or as its value; `Aborted` is a
  // failing MPIR_Assert.
  datatype Answer = Nothing | Answer(value: int) | Aborted

  // An answer as C reads it in a condition.
  predicate Truth(a: Answer) {
    a.Answer? && a.value != 0
  }

  predicate SameTruth(a: Answer, b: Answer) {
    && (a.Nothing? <==> b.Nothing?)
    && (a.Aborted? <==> b.Aborted?)
    && (Truth(a) <==> Truth(b))
  }

  // ---- What one operation does to a counter with value cc ----

  function After(cc: int, op: Op): int {
    match op
    case Set(value) => value
    case Incr => cc + 1
    case Decr => cc - 1
    case IsComplete => cc
  }

  // The plain counter answers a decrement with the new value ...
  function PlainAnswer(cc: int, op: Op): Answer {
    match op
    case Set(_) => Nothing
    case Incr => Answer(cc)
    case Decr => if cc - 1 >= 0 then Answer(cc - 1) else Aborted
    case IsComplete => Answer(if cc == 0 then 1 else 0)
  }

  // ... and the atomic one with a flag computed from the old value.
  function AtomicAnswer(cc: int, op: Op): Answer {
    match op
    case Set(_) => Nothing
    case Incr => Answer(cc)
    case Decr => if cc >= 1 then Answer(if cc != 1 then 1 else 0) else Aborted
    case IsComplete => Answer(if cc == 0 then 1 else 0)
  }

  class PlainCounter {
    var cc: int

    method Perform(op: Op) returns (a: Answer)
      modifies this
      ensures cc == After(old(cc), op) && a == PlainAnswer(old(cc), op)
    {
      a := Nothing;
      match op
      case Set(value) => { cc := value; }
      case Incr => { a := Answer(cc); cc := cc + 1; }
      case Decr => { cc := cc - 1; a := if cc >= 0 then Answer(cc) else Aborted; }
      case IsComplete => { a := Answer(if cc == 0 then 1 else 0); }
    }
  }

  class AtomicCounter {
    var cc: int

    // OPA_fetch_and_add_int
    method FetchAndAdd(delta: int) returns (was: int)
      modifies this
      ensures was == old(cc) && cc == old(cc) + delta
    {
      was := cc;
      cc := cc + delta;
    }

    method Perform(op: Op) returns (a: Answer)
      modifies this
      ensures cc == After(old(cc), op) && a == AtomicAnswer(old(cc), op)
    {
      a := Nothing;
      match op
      case Set(value) => { cc := value; }
      case Incr => { var was := FetchAndAdd(1); a := Answer(was); }
      case Decr => {
        var was := FetchAndAdd(-1);
        a := if was >= 1 then Answer(if was != 1 then 1 else 0) else Aborted;
      }
      case IsComplete => { a := Answer(if cc == 0 then 1 else 0); }
    }
  }

  // ---- Runs: an assertion that fails ends the program ----

  function PlainRun(cc: int, ops: seq<Op>): seq<Answer>
    decreases |ops|
  {
    if ops == [] then []
    else
      var a := PlainAnswer(cc, ops[0]);
      if a.Aborted? then [a] else [a] + PlainRun(After(cc, ops[0]), ops[1..])
  }

  function AtomicRun(cc: int, ops: seq<Op>): seq<Answer>
    decreases |ops|
  {
    if ops == [] then []
    else
      var a := AtomicAnswer(cc, ops[0]);
      if a.Aborted? then [a] else [a] + AtomicRun(After(cc, ops[0]), ops[1..])
  }

  /** Over any run the two forms give as many answers, with the same truth values, and abort
      at the same operation if at all. */
  lemma {:induction false} FormsAgree(cc: int, ops: seq<Op>)
    ensures |PlainRun(cc, ops)| == |AtomicRun(cc, ops)|
    ensures forall i :: 0 <= i < |PlainRun(cc, ops)| ==> SameTruth(PlainRun(cc, ops)[i], AtomicRun(cc, ops)[i])
    decreases |ops|
  {
    if ops != [] && !PlainAnswer(cc, ops[0]).Aborted? {
      FormsAgree(After(cc, ops[0]), ops[1..]);
    }
  }

  // ---- Who sees the counter complete ----

  function Final(cc: int, ops: seq<Op>): int
    decreases |ops|
  {
    if ops == [] then cc else Final(After(cc, ops[0]), ops[1..])
  }

  // The run has no MPIR_cc_set (that is for initialization) and no failing assertion.
  predicate Counts(cc: int, ops: seq<Op>)
    decreases |ops|
  {
    ops != [] ==>
      && !ops[0].Set?
      && !AtomicAnswer(cc, ops[0]).Aborted?
      && Counts(After(cc, ops[0]), ops[1..])
  }

  // Decrements that were told "complete", and increments that were told "was complete".
  function Completers(cc: int, ops: seq<Op>): nat
    decreases |ops|
  {
    if ops == [] then 0
    else
      (if ops[0].Decr? && !Truth(AtomicAnswer(cc, ops[0])) then 1 else 0) + Completers(After(cc, ops[0]), ops[1..])
  }

  function Revivers(cc: int, ops: seq<Op>): nat
    decreases |ops|
  {
    if ops == [] then 0
    else
      (if ops[0].Incr? && !Truth(AtomicAnswer(cc, ops[0])) then 1 else 0) + Revivers(After(cc, ops[0]), ops[1..])
  }

  function Complete(cc: int): nat {
    if cc == 0 then 1 else 0
  }

  /** Completers and revivers alternate: over any run of any number of threads their numbers
      differ by whether the counter became complete meanwhile. */
  lemma {:induction false} CompletersBalance(cc: int, ops: seq<Op>)
    requires cc >= 0 && Counts(cc, ops)
    ensures Final(cc, ops) >= 0
    ensures Completers(cc, ops) + Complete(cc) == Revivers(cc, ops) + Complete(Final(cc, ops))
    decreases |ops|
  {
    if ops != [] {
      CompletersBalance(After(cc, ops[0]), ops[1..]);
    }
  }

  /** If only a thread whose own part is outstanding increments, so that no increment finds
      zero, exactly one decrementer of a finished counter sees it complete. */
  lemma ExactlyOneCompleter(cc: int, ops: seq<Op>)
    requires cc > 0 && Counts(cc, ops) && Revivers(cc, ops) == 0
    ensures Completers(cc, ops) == 1 <==> Final(cc, ops) == 0
    ensures Completers(cc, ops) <= 1
  {
    CompletersBalance(cc, ops);
  }

  // ---- What the counter holds ----

  function Number(ops: seq<Op>, op: Op): nat {
    if ops == [] then 0 else (if ops[0] == op then 1 else 0) + Number(ops[1..], op)
  }

  /** Without MPIR_cc_set the counter holds its first value plus the increments less the decrements. */
  lemma {:induction false} ValueIsBalance(cc: int, ops: seq<Op>)
    requires forall op <- ops :: !op.Set?
    ensures Final(cc, ops) == cc + Number(ops, Incr) - Number(ops, Decr)
    decreases |ops|
  {
    if ops != [] {
      ValueIsBalance(After(cc, ops[0]), ops[1..]);
    }
  }

  /** After MPIR_cc_set everything before it is forgotten. */
  lemma {:induction false} SetForgets(cc: int, ops: seq<Op>, value: int, rest: seq<Op>)
    requires forall op <- rest :: !op.Set?
    ensures Final(cc, ops + [Set(value)] + rest) == value + Number(rest, Incr) - Number(rest, Decr)
    decreases |ops|
  {
    var all := ops + [Set(value)] + rest;
    if ops == [] {
      assert all[1..] == rest;
      ValueIsBalance(value, rest);
    } else {
      assert all[1..] == ops[1..] + [Set(value)] + rest;
      SetForgets(After(cc, ops[0]), ops[1..], value, rest);
    }
  }

  /** Both forms call a counter complete exactly when it holds zero, and tell a decrementer that it
      is incomplete exactly when it then holds something else. */
  lemma AnswersMeanValue(cc: int)
    ensures Truth(PlainAnswer(cc, IsComplete)) <==> cc == 0
    ensures Truth(AtomicAnswer(cc, IsComplete)) <==> cc == 0
    ensures cc > 0 ==> (Truth(AtomicAnswer(cc, Decr)) <==> After(cc, Decr) != 0)
    ensures cc > 0 ==> (Truth(PlainAnswer(cc, Decr)) <==> After(cc, Decr) != 0)
    ensures Truth(AtomicAnswer(cc, Incr)) <==> cc != 0
  {
  }
}
