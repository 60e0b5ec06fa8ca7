/** The 32-bit handle layout of src/include/mpir_objects.h, as an unsigned value:

      bits 30-31   handle kind: 0 invalid, 1 builtin, 2 direct, 3 indirect
      bits 26-29   MPI object kind
      bits 12-25   block number of an indirect handle, bits 0-11 its index in the block
      bits 0-25    index of a direct handle

    A mask followed by a shift is a quotient and a remainder by powers of two, and an `|` of
    fields that do not overlap is their sum; the lemmas at the end show this for the source's own
    masks and shifts.
 */
module Handles {
  import opened Bits

  const HANDLE_KIND_INVALID := 0
  const HANDLE_KIND_BUILTIN := 1
  const HANDLE_KIND_DIRECT := 2
  const HANDLE_KIND_INDIRECT := 3

  const KIND_UNIT := 0x4000_0000     // 1 << HANDLE_KIND_SHIFT
  const MPI_KIND_UNIT := 0x400_0000  // 1 << HANDLE_MPI_KIND_SHIFT
  const BLOCK_UNIT := 0x1000         // 1 << HANDLE_INDIRECT_SHIFT
  const KEYVAL_UNIT := 0x40_0000     // 1 << 22
  const FIELD := 16                  // values of a four-bit field

  const HANDLE_NUM_BLOCKS := 8192
  const HANDLE_NUM_INDICES := 1024

  type Handle = h: int | 0 <= h < 0x1_0000_0000

  predicate ValidKind(kind: int) {
    0 < kind < FIELD
  }

  function DirectHandle(kind: int, i: int): Handle
    requires ValidKind(kind) && 0 <= i < MPI_KIND_UNIT
  {
    HANDLE_KIND_DIRECT * KIND_UNIT + kind * MPI_KIND_UNIT + i
  }

  function IndirectHandle(kind: int, block: int, i: int): Handle
    requires ValidKind(kind) && 0 <= block < HANDLE_NUM_BLOCKS && 0 <= i < HANDLE_NUM_INDICES
  {
    HANDLE_KIND_INDIRECT * KIND_UNIT + kind * MPI_KIND_UNIT + block * BLOCK_UNIT + i
  }

  function GetKind(h: Handle): int {
    h / KIND_UNIT
  }

  function GetMpiKind(h: Handle): int {
    h / MPI_KIND_UNIT % FIELD
  }

  function GetIndex(h: Handle): int {
    h % MPI_KIND_UNIT
  }

  function GetBlock(h: Handle): int {
    h % MPI_KIND_UNIT / BLOCK_UNIT
  }

  function GetBlockIndex(h: Handle): int {
    h % BLOCK_UNIT
  }

  /** The handles as numbers. */
  lemma HandleNumbers(kind: int, block: int, i: int)
    requires ValidKind(kind) && 0 <= block < 8192 && 0 <= i < 1024
    ensures IndirectHandle(kind, block, i) == 0xC000_0000 + kind * 0x400_0000 + block * 0x1000 + i
    ensures DirectHandle(kind, i) == 0x8000_0000 + kind * 0x400_0000 + i
    ensures 0x8000_0000 <= DirectHandle(kind, i) < 0xC000_0000 <= IndirectHandle(kind, block, i)
  {
  }

  lemma DirectNumber(kind: int, i: int)
    requires ValidKind(kind) && 0 <= i < 0x400_0000
    ensures DirectHandle(kind, i) == 0x8000_0000 + kind * 0x400_0000 + i
    ensures 0x8000_0000 <= DirectHandle(kind, i) < 0xC000_0000
  {
  }

  /** The four kinds are the four quarters of the handle space. */
  lemma KindQuarters(h: Handle)
    ensures GetKind(h) == HANDLE_KIND_INVALID <==> h < 0x4000_0000
    ensures GetKind(h) == HANDLE_KIND_BUILTIN <==> 0x4000_0000 <= h < 0x8000_0000
    ensures GetKind(h) == HANDLE_KIND_DIRECT <==> 0x8000_0000 <= h < 0xC000_0000
    ensures GetKind(h) == HANDLE_KIND_INDIRECT <==> 0xC000_0000 <= h
  {
  }

  /** Every field written into a handle is read back. */
  lemma DirectFields(kind: int, i: int)
    requires ValidKind(kind) && 0 <= i < MPI_KIND_UNIT
    ensures var h := DirectHandle(kind, i);
            GetKind(h) == HANDLE_KIND_DIRECT && GetMpiKind(h) == kind && GetIndex(h) == i
  {
  }

  lemma IndirectFields(kind: int, block: int, i: int)
    requires ValidKind(kind) && 0 <= block < HANDLE_NUM_BLOCKS && 0 <= i < HANDLE_NUM_INDICES
    ensures var h := IndirectHandle(kind, block, i);
            && GetKind(h) == HANDLE_KIND_INDIRECT && GetMpiKind(h) == kind
            && GetBlock(h) == block && GetBlockIndex(h) == i
  {
  }

  /** ... and the fields determine the handle. */
  lemma FieldsDetermine(h: Handle)
    ensures h == GetKind(h) * KIND_UNIT + GetMpiKind(h) * MPI_KIND_UNIT + GetIndex(h)
    ensures GetIndex(h) == GetBlock(h) * BLOCK_UNIT + GetBlockIndex(h)
  {
  }

  // ----- keyvals, which carry the kind of the object they attach to in bits 22-25

  /** `(handle & ~0x03c00000) | (kind << 22)`, as the keyval constructors do. */
  function StampKeyval(h: Handle, objectKind: int): Handle
    requires ValidKind(objectKind)
  {
    h / MPI_KIND_UNIT * MPI_KIND_UNIT + objectKind * KEYVAL_UNIT + h % KEYVAL_UNIT
  }

  /** The object kind that the argument checks read back. */
  function KeyvalObjectKind(h: Handle): int {
    h / KEYVAL_UNIT % FIELD
  }

  /** The index `MPII_Keyval_get_ptr` uses for a direct keyval: `h & 0x3fffff`. */
  function KeyvalDirectIndex(h: Handle): int {
    h % KEYVAL_UNIT
  }

  /** The handle it looks up for an indirect one: `h & 0xfc3fffff`. */
  function KeyvalIndirectHandle(h: Handle): Handle {
    h / MPI_KIND_UNIT * MPI_KIND_UNIT + h % KEYVAL_UNIT
  }

  /** The stamp is read back and leaves both kinds alone. */
  lemma StampIsRead(h: Handle, objectKind: int)
    requires ValidKind(objectKind)
    ensures var k := StampKeyval(h, objectKind);
            KeyvalObjectKind(k) == objectKind && GetKind(k) == GetKind(h) && GetMpiKind(k) == GetMpiKind(h)
  {
  }

  /** A stamped direct keyval finds its own entry exactly when its index is below 2^22. */
  lemma DirectKeyvalFoundIff(kind: int, objectKind: int, i: int)
    requires ValidKind(kind) && ValidKind(objectKind) && 0 <= i < MPI_KIND_UNIT
    ensures KeyvalDirectIndex(StampKeyval(DirectHandle(kind, i), objectKind)) == i <==> i < KEYVAL_UNIT
  {
  }

  /** A stamped indirect keyval looks up its own handle exactly when its block is below 1024; from
      block 1024 on it finds the entry of block `block % 1024` instead. */
  lemma IndirectKeyvalFoundIff(kind: int, objectKind: int, block: int, i: int)
    requires ValidKind(kind) && ValidKind(objectKind)
    requires 0 <= block < HANDLE_NUM_BLOCKS && 0 <= i < HANDLE_NUM_INDICES
    ensures var found := KeyvalIndirectHandle(StampKeyval(IndirectHandle(kind, block, i), objectKind));
            && (found == IndirectHandle(kind, block, i) <==> block < 1024)
            && found == IndirectHandle(kind, block % 1024, i)
  {
    var h := IndirectHandle(kind, block, i);
    var top, b, c := HANDLE_KIND_INDIRECT * FIELD + kind, block / 1024, block % 1024;
    var low := c * BLOCK_UNIT + i;
    HighAndLow(top, b, low);
    assert h == top * MPI_KIND_UNIT + b * KEYVAL_UNIT + low;
    HighAndLow(top, objectKind, low);
  }

  /** Reading around bits 22-25. */
  lemma HighAndLow(top: int, field: int, low: int)
    requires 0 <= top < 64 && 0 <= field < FIELD && 0 <= low < KEYVAL_UNIT
    ensures var h := top * MPI_KIND_UNIT + field * KEYVAL_UNIT + low;
            0 <= h < 0x1_0000_0000 && h / MPI_KIND_UNIT == top && h % KEYVAL_UNIT == low
  {
  }

  // ----- the same layout on bits

  const WIDTH := 32

  /** The masks of the source, by their ones. */
  lemma MasksAre()
    ensures Val(Ones(WIDTH, 30, 32)) == 0xc000_0000 && Val(Ones(WIDTH, 26, 30)) == 0x3c00_0000
    ensures Val(Ones(WIDTH, 0, 26)) == 0x03ff_ffff && Val(Ones(WIDTH, 12, 26)) == 0x03ff_f000
    ensures Val(Ones(WIDTH, 0, 12)) == 0xfff && Val(Ones(WIDTH, 22, 26)) == 0x03c0_0000
    ensures Val(Ones(WIDTH, 0, 22)) == 0x3f_ffff
  {
    Powers();
    OnesVal(WIDTH, 30, 32);
    OnesVal(WIDTH, 26, 30);
    OnesVal(WIDTH, 0, 26);
    OnesVal(WIDTH, 12, 26);
    OnesVal(WIDTH, 0, 12);
    OnesVal(WIDTH, 22, 26);
    OnesVal(WIDTH, 0, 22);
  }

  lemma IsHandle(b: Bits)
    requires |b| == WIDTH
    ensures Val(b) < 0x1_0000_0000
  {
    Powers();
    ValSplit(b, WIDTH);
    assert b[..WIDTH] == b;
  }

  lemma KindBits(b: Bits)
    requires |b| == WIDTH
    ensures Val(Shr(And(b, Ones(WIDTH, 30, 32)), 30)) == Val(b) / KIND_UNIT % 4
    ensures Val(Shr(And(b, Ones(WIDTH, 26, 30)), 26)) == Val(b) / MPI_KIND_UNIT % FIELD
  {
    Powers();
    MaskShift(b, 30, 32);
    MaskShift(b, 26, 30);
  }

  lemma IndexBits(b: Bits)
    requires |b| == WIDTH
    ensures Val(And(b, Ones(WIDTH, 0, 26))) == Val(b) % MPI_KIND_UNIT
    ensures Val(And(b, Ones(WIDTH, 0, 12))) == Val(b) % BLOCK_UNIT
    ensures Val(And(b, Ones(WIDTH, 0, 22))) == Val(b) % KEYVAL_UNIT
  {
    Powers();
    LowMask(b, 26);
    LowMask(b, 12);
    LowMask(b, 22);
  }

  lemma BlockBits(b: Bits)
    requires |b| == WIDTH
    ensures Val(Shr(And(b, Ones(WIDTH, 12, 26)), 12)) == Val(b) / BLOCK_UNIT % 0x4000
  {
    Powers();
    MaskShift(b, 12, 26);
  }

  lemma KeyvalBits(b: Bits)
    requires |b| == WIDTH
    ensures Val(And(b, Not(Ones(WIDTH, 22, 26)))) == Val(b) - KEYVAL_UNIT * (Val(b) / KEYVAL_UNIT % FIELD)
  {
    ClearVal(b, 22, 26);
    Powers();
  }

  /** Masking and shifting a handle reads the fields that the arithmetic readers read. */
  lemma ReadersAgree(b: Bits)
    requires |b| == WIDTH
    ensures Val(b) < 0x1_0000_0000
    ensures GetKind(Val(b)) == Val(Shr(And(b, Ones(WIDTH, 30, 32)), 30))
    ensures GetMpiKind(Val(b)) == Val(Shr(And(b, Ones(WIDTH, 26, 30)), 26))
    ensures GetIndex(Val(b)) == Val(And(b, Ones(WIDTH, 0, 26)))
    ensures GetBlock(Val(b)) == Val(Shr(And(b, Ones(WIDTH, 12, 26)), 12))
    ensures GetBlockIndex(Val(b)) == Val(And(b, Ones(WIDTH, 0, 12)))
    ensures KeyvalDirectIndex(Val(b)) == Val(And(b, Ones(WIDTH, 0, 22)))
    ensures KeyvalIndirectHandle(Val(b)) == Val(And(b, Not(Ones(WIDTH, 22, 26))))
  {
    IsHandle(b);
    KindBits(b);
    IndexBits(b);
    BlockBits(b);
    KeyvalBits(b);
    FieldsInRange(Val(b));
  }

  lemma FieldsInRange(h: Handle)
    ensures h / KIND_UNIT % 4 == h / KIND_UNIT
    ensures h / BLOCK_UNIT % 0x4000 == h % MPI_KIND_UNIT / BLOCK_UNIT
    ensures h - KEYVAL_UNIT * (h / KEYVAL_UNIT % FIELD) == h / MPI_KIND_UNIT * MPI_KIND_UNIT + h % KEYVAL_UNIT
  {
  }

  /** Or-ing shifted fields builds the handles that the sums build. */
  lemma DirectBuilt(direct: Bits, kind: Bits, i: Bits)
    requires |direct| == |kind| == |i| == WIDTH && Val(direct) == HANDLE_KIND_DIRECT
    requires ValidKind(Val(kind)) && Val(i) < MPI_KIND_UNIT
    ensures Val(Or(Or(Shl(direct, 30), Shl(kind, 26)), i)) == DirectHandle(Val(kind), Val(i))
  {
    Powers();
    ShlOr(kind, 26, i);
    ShlOr(direct, 30, Or(Shl(kind, 26), i));
    assert Or(Or(Shl(direct, 30), Shl(kind, 26)), i) == Or(Shl(direct, 30), Or(Shl(kind, 26), i));
  }

  lemma IndirectBuilt(indirect: Bits, kind: Bits, block: Bits, i: Bits)
    requires |indirect| == |kind| == |block| == |i| == WIDTH && Val(indirect) == HANDLE_KIND_INDIRECT
    requires ValidKind(Val(kind)) && Val(block) < HANDLE_NUM_BLOCKS && Val(i) < HANDLE_NUM_INDICES
    ensures Val(Or(Or(Or(Shl(indirect, 30), Shl(kind, 26)), Shl(block, 12)), i))
         == IndirectHandle(Val(kind), Val(block), Val(i))
  {
    Powers();
    var low := Or(Shl(block, 12), i);
    ShlOr(block, 12, i);
    ShlOr(kind, 26, low);
    ShlOr(indirect, 30, Or(Shl(kind, 26), low));
    assert Or(Or(Or(Shl(indirect, 30), Shl(kind, 26)), Shl(block, 12)), i)
        == Or(Shl(indirect, 30), Or(Shl(kind, 26), low));
  }

  /** Stamping a keyval by a mask, a shift and an or. */
  lemma StampAgrees(b: Bits, kind: Bits)
    requires |b| == |kind| == WIDTH && ValidKind(Val(kind))
    ensures Val(b) < 0x1_0000_0000
    ensures StampKeyval(Val(b), Val(kind)) == Val(Or(And(b, Not(Ones(WIDTH, 22, 26))), Shl(kind, 22)))
  {
    IsHandle(b);
    KeyvalBits(b);
    FieldsInRange(Val(b));
    KindShifted(b, kind);
  }

  lemma KindShifted(b: Bits, kind: Bits)
    requires |b| == |kind| == WIDTH && ValidKind(Val(kind))
    ensures var kept := And(b, Not(Ones(WIDTH, 22, 26)));
      Val(Or(kept, Shl(kind, 22))) == Val(kept) + Val(kind) * KEYVAL_UNIT
  {
    Powers();
    HighZero(kind, 4);
    ShlVal(kind, 22);
    OrVal(And(b, Not(Ones(WIDTH, 22, 26))), Shl(kind, 22));
  }
}
