/**
 * The count and the cancel flag of a status (src/include/mpir_status.h). A count is split
 * over two 32-bit words, and bit 0 of the second word is the cancel flag, so each setter
 * writes a word that the other one also owns.
 *
 * Words are the unsigned values of the two `int` fields. A mask or a shift is a remainder
 * or a quotient by a power of two, and an `|` of fields that do not overlap is their sum;
 * `BitsAgree` shows this for the source's own expressions.
 */
module Status {
  import opened Bits

  const WORD := 0x1_0000_0000
  const COUNT_LIMIT := 0x8000_0000_0000_0000

  type Word = w: int | 0 <= w < WORD
  type Ucount = c: int | 0 <= c < WORD * WORD   // MPIR_Ucount, 64 bits
  type Flag = f: int | 0 <= f <= 1

  datatype Words = Words(countLo: Word, hiAndCancelled: Word)

  /** The C conversion of a wider value to a 32-bit word. */
  function Truncate(x: nat): Word {
    x % WORD
  }

  // MPIR_STATUS_GET_COUNT and MPIR_STATUS_GET_CANCEL_BIT
  function GetCount(w: Words): Ucount {
    w.hiAndCancelled / 2 * WORD + w.countLo
  }

  function GetCancelBit(w: Words): Flag {
    w.hiAndCancelled % 2
  }

  datatype Setter = SetCount(count: Ucount) | SetCancel(cancelled: Flag)

  // The words that MPIR_STATUS_SET_COUNT and MPIR_STATUS_SET_CANCEL_BIT leave behind.
  function Apply(w: Words, op: Setter): Words {
    match op
    case SetCount(count) => Words(Truncate(count), w.hiAndCancelled % 2 + Truncate(count / WORD * 2))
    case SetCancel(cancelled) => Words(w.countLo, w.hiAndCancelled - w.hiAndCancelled % 2 + cancelled)
  }

  class StatusObject {
    var countLo: Word
    var hiAndCancelled: Word

    function Value(): Words
      reads this
    {
      Words(countLo, hiAndCancelled)
    }

    method SetCount(count: Ucount)
      modifies this
      ensures Value() == Apply(old(Value()), Setter.SetCount(count))
      ensures GetCount(Value()) == count <==> count < COUNT_LIMIT
      ensures GetCancelBit(Value()) == old(GetCancelBit(Value()))
    {
      SetCountMeaning(Value(), count);
      countLo := Truncate(count);
      hiAndCancelled := hiAndCancelled % 2;
      hiAndCancelled := hiAndCancelled + Truncate(count / WORD * 2);
    }

    method SetCancelBit(cancelled: Flag)
      modifies this
      ensures Value() == Apply(old(Value()), SetCancel(cancelled))
      ensures GetCancelBit(Value()) == cancelled
      ensures GetCount(Value()) == old(GetCount(Value()))
    {
      hiAndCancelled := hiAndCancelled - hiAndCancelled % 2;
      hiAndCancelled := hiAndCancelled + cancelled;
    }
  }

  /** SET_COUNT: bit 63 is lost, so the count reads back if and only if that bit is clear;
      the flag stays. */
  lemma SetCountMeaning(w: Words, count: Ucount)
    ensures GetCount(Apply(w, SetCount(count))) == count % COUNT_LIMIT
    ensures GetCount(Apply(w, SetCount(count))) == count <==> count < COUNT_LIMIT
    ensures GetCancelBit(Apply(w, SetCount(count))) == GetCancelBit(w)
  {
    var hi, lo := count / WORD, count % WORD;
    assert count == hi * WORD + lo;
    assert Truncate(hi * 2) / 2 == hi % 0x8000_0000;
  }

  function Run(w: Words, ops: seq<Setter>): Words {
    if ops == [] then w else Apply(Run(w, ops[..|ops| - 1]), ops[|ops| - 1])
  }

  // The argument of the last setter of each kind, if there was one.
  function LastCount(ops: seq<Setter>, none: Ucount): Ucount {
    if ops == [] then none
    else match ops[|ops| - 1]
      case SetCount(count) => count
      case SetCancel(_) => LastCount(ops[..|ops| - 1], none)
  }

  function LastCancel(ops: seq<Setter>, none: Flag): Flag {
    if ops == [] then none
    else match ops[|ops| - 1]
      case SetCount(_) => LastCancel(ops[..|ops| - 1], none)
      case SetCancel(cancelled) => cancelled
  }

  /** After any run the getters return the last count, less its bit 63, and the last flag. */
  lemma {:induction false} LastSettersWin(w: Words, ops: seq<Setter>)
    ensures GetCount(Run(w, ops)) == LastCount(ops, GetCount(w)) % COUNT_LIMIT
    ensures GetCancelBit(Run(w, ops)) == LastCancel(ops, GetCancelBit(w))
  {
    if ops != [] {
      var init, op := ops[..|ops| - 1], ops[|ops| - 1];
      LastSettersWin(w, init);
      if op.SetCount? {
        SetCountMeaning(Run(w, init), op.count);
      }
    }
  }

  // ---- The same words on bits ----

  /** The masks, shifts and ors of the four macros compute the words and readings above. A
      conversion to a narrower type keeps the low bits, one to a wider type adds zeros. */
  lemma BitsAgree(hi: Bits, lo: Bits, count: Bits, flag: Bits)
    requires |hi| == |lo| == |flag| == 32 && |count| == 64 && Val(flag) <= 1
    ensures Val(hi) < WORD && Val(lo) < WORD && Val(count) < WORD * WORD
    ensures var w := Apply(Words(Val(lo), Val(hi)), SetCount(Val(count)));
      && w.countLo == Val(count[..32])
      && w.hiAndCancelled == Val(Or(And(hi, Ones(32, 0, 1)), Shl(Shr(count, 32), 1)[..32]))
    ensures var w := Apply(Words(Val(lo), Val(hi)), SetCancel(Val(flag)));
      w.hiAndCancelled == Val(Or(And(hi, Not(Ones(32, 0, 1))), flag))
    ensures GetCount(Words(Val(lo), Val(hi))) == Val(Shl(Shr(hi, 1) + Zeros(32), 32)) + Val(lo + Zeros(32))
    ensures GetCancelBit(Words(Val(lo), Val(hi))) == Val(And(hi, Ones(32, 0, 1)))
  {
    WordBounds(hi, lo, count);
    CountBits(hi, count);
    FlagBits(hi, flag);
    ReadBits(hi, lo);
  }

  lemma WordBounds(hi: Bits, lo: Bits, count: Bits)
    requires |hi| == |lo| == 32 && |count| == 64
    ensures Val(hi) < WORD && Val(lo) < WORD && Val(count) < WORD * WORD
  {
    Powers();
    PowSum(32, 32);
    assert hi[..32] == hi && lo[..32] == lo && count[..64] == count;
    ValSplit(hi, 32);
    ValSplit(lo, 32);
    ValSplit(count, 64);
  }

  lemma CountBits(hi: Bits, count: Bits)
    requires |hi| == 32 && |count| == 64
    ensures Val(count[..32]) == Val(count) % WORD
    ensures Val(Or(And(hi, Ones(32, 0, 1)), Shl(Shr(count, 32), 1)[..32]))
         == Val(hi) % 2 + (Val(count) / WORD * 2) % WORD
  {
    LowHalf(count);
    HighHalf(count);
    LowBit(hi);
    OrVal(And(hi, Ones(32, 0, 1)), Shl(Shr(count, 32), 1)[..32]);
  }

  lemma LowHalf(count: Bits)
    requires |count| == 64
    ensures Val(count[..32]) == Val(count) % WORD
  {
    Powers();
    ValSplit(count, 32);
    Quotient(Val(count), WORD, Val(count[32..]), Val(count[..32]));
  }

  lemma HighField(count: Bits)
    requires |count| == 64
    ensures Val(count[32..63]) == Val(count) / WORD % 0x8000_0000
  {
    Powers();
    FieldVal(count, 32, 63);
  }

  lemma HighHalf(count: Bits)
    requires |count| == 64
    ensures var high := Shl(Shr(count, 32), 1)[..32];
      !high[0] && Val(high) == (Val(count) / WORD * 2) % WORD
  {
    assert Shl(Shr(count, 32), 1)[..32] == Zeros(1) + count[32..63];
    ValRaised(count[32..63], 1);
    HighField(count);
    assert Pow2(1) == 2;
    DoubledRemainder(Val(count) / WORD);
  }

  lemma DoubledRemainder(q: nat)
    ensures 2 * (q % 0x8000_0000) == (q * 2) % WORD
  {
  }

  lemma LowBit(hi: Bits)
    requires |hi| == 32
    ensures Val(And(hi, Ones(32, 0, 1))) == Val(hi) % 2
  {
    assert Pow2(1) == 2;
    LowMask(hi, 1);
  }

  lemma OtherBits(hi: Bits)
    requires |hi| == 32
    ensures Val(And(hi, Not(Ones(32, 0, 1)))) == Val(hi) - Val(hi) % 2
  {
    LowBit(hi);
    var mask := Ones(32, 0, 1);
    assert Or(And(hi, mask), And(hi, Not(mask))) == hi;
    OrVal(And(hi, mask), And(hi, Not(mask)));
  }

  lemma FlagBits(hi: Bits, flag: Bits)
    requires |hi| == |flag| == 32 && Val(flag) <= 1
    ensures Val(Or(And(hi, Not(Ones(32, 0, 1))), flag)) == Val(hi) - Val(hi) % 2 + Val(flag)
  {
    OtherBits(hi);
    assert Pow2(1) == 2;
    HighZero(flag, 1);
    OrVal(And(hi, Not(Ones(32, 0, 1))), flag);
  }

  lemma ReadBits(hi: Bits, lo: Bits)
    requires |hi| == |lo| == 32
    ensures Val(Shl(Shr(hi, 1) + Zeros(32), 32)) == Val(hi) / 2 * WORD
    ensures Val(lo + Zeros(32)) == Val(lo) && Val(And(hi, Ones(32, 0, 1))) == Val(hi) % 2
  {
    Powers();
    ValPadded(lo, 32);
    LowBit(hi);
    ValSplit(hi, 1);
    assert Shl(Shr(hi, 1) + Zeros(32), 32) == Zeros(32) + (hi[1..] + Zeros(1));
    ValRaised(hi[1..] + Zeros(1), 32);
    ValPadded(hi[1..], 1);
    assert hi[..1][1..] == [];
  }
}
