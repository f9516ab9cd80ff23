/** Which Dalvik opcodes are how long, and which of their code units hold an index
    into a constant pool. */
module OpcodeTable {
  import opened Bytes

  datatype PoolKind = StringPool | TypePool | FieldPool | MethodPool | ProtoPool | CallSitePool | MethodHandlePool

  /** The code unit, within the instruction, that holds the index; a 32-bit index takes the next one too. */
  datatype PoolRef = PoolRef(unitOffset: nat, pool: PoolKind, is32Bit: bool)

  /** Instruction sizes in 16-bit code units, sixteen opcodes a row. */
  const OPCODE_SIZES: seq<seq<nat>> := [
    [1, 1, 2, 3, 1, 2, 3, 1, 2, 3, 1, 1, 1, 1, 1, 1],
    [1, 1, 1, 2, 3, 2, 2, 3, 5, 2, 2, 3, 2, 1, 1, 2],
    [2, 1, 2, 2, 3, 3, 3, 1, 1, 2, 3, 3, 3, 2, 2, 2],
    [2, 2, 2, 2, 2, 2, 2, 2, 2, 2, 2, 2, 2, 2, 1, 1],
    [1, 1, 1, 1, 2, 2, 2, 2, 2, 2, 2, 2, 2, 2, 2, 2],
    [2, 2, 2, 2, 2, 2, 2, 2, 2, 2, 2, 2, 2, 2, 2, 2],
    [2, 2, 2, 2, 2, 2, 2, 2, 2, 2, 2, 2, 2, 2, 3, 3],
    [3, 3, 3, 1, 3, 3, 3, 3, 3, 1, 1, 1, 1, 1, 1, 1],
    [1, 1, 1, 1, 1, 1, 1, 1, 1, 1, 1, 1, 1, 1, 1, 1],
    [2, 2, 2, 2, 2, 2, 2, 2, 2, 2, 2, 2, 2, 2, 2, 2],
    [2, 2, 2, 2, 2, 2, 2, 2, 2, 2, 2, 2, 2, 2, 2, 2],
    [1, 1, 1, 1, 1, 1, 1, 1, 1, 1, 1, 1, 1, 1, 1, 1],
    [1, 1, 1, 1, 1, 1, 1, 1, 1, 1, 1, 1, 1, 1, 1, 1],
    [2, 2, 2, 2, 2, 2, 2, 2, 2, 2, 2, 2, 2, 2, 2, 2],
    [2, 2, 2, 1, 1, 1, 1, 1, 1, 1, 1, 1, 1, 1, 1, 1],
    [1, 1, 1, 1, 1, 1, 1, 1, 1, 1, 4, 4, 3, 3, 2, 2]
  ]

  function Row(high: nat): (r: seq<nat>)
    requires high < 16
    ensures |r| == 16 && forall i :: 0 <= i < 16 ==> 1 <= r[i] <= 5
  {
    OPCODE_SIZES[high]
  }

  /** No instruction is empty, so a walk over a code stream always moves on. */
  function OpcodeSize(opcode: nat): (size: nat)
    requires opcode < 256
    ensures 1 <= size <= 5
  {
    Row(opcode / 16)[opcode % 16]
  }

  function IndexInfo(opcode: nat): seq<PoolRef> {
    if opcode == 0x1a then [PoolRef(1, StringPool, false)]
    else if opcode == 0x1b then [PoolRef(1, StringPool, true)]
    else if opcode in {0x1c, 0x1f, 0x20, 0x22, 0x23, 0x24, 0x25} then [PoolRef(1, TypePool, false)]
    else if 0x52 <= opcode <= 0x5f || 0x60 <= opcode <= 0x6d then [PoolRef(1, FieldPool, false)]
    else if 0x6e <= opcode <= 0x72 || 0x74 <= opcode <= 0x78 then [PoolRef(1, MethodPool, false)]
    else if opcode == 0xfa || opcode == 0xfb then [PoolRef(1, MethodPool, false), PoolRef(3, ProtoPool, false)]
    else if opcode == 0xfc || opcode == 0xfd then [PoolRef(1, CallSitePool, false)]
    else if opcode == 0xfe then [PoolRef(1, MethodHandlePool, false)]
    else if opcode == 0xff then [PoolRef(1, ProtoPool, false)]
    else []
  }

  /** The first reference at a unit, if any. */
  function RefAt(refs: seq<PoolRef>, unitOffset: nat): Option<PoolRef> {
    if refs == [] then None
    else if refs[0].unitOffset == unitOffset then Some(refs[0])
    else RefAt(refs[1..], unitOffset)
  }

  lemma RowsOfReferring()
    ensures Row(1)[10] == 2 && Row(1)[11] == 3 && Row(1)[12] == 2 && Row(1)[15] == 2
    ensures Row(2)[0] == 2 && Row(2)[2] == 2 && Row(2)[3] == 2 && Row(2)[4] == 3 && Row(2)[5] == 3
    ensures forall i :: 0 <= i < 16 ==> Row(5)[i] == 2
    ensures forall i :: 0 <= i < 16 ==> Row(6)[i] >= 2
    ensures forall i :: 0 <= i <= 8 && i != 3 ==> Row(7)[i] == 3
    ensures forall i :: 10 <= i < 16 ==> Row(15)[i] >= (if i <= 11 then 4 else 2)
  {
  }

  lemma SizesOfReferring(opcode: nat)
    requires opcode < 256 && IndexInfo(opcode) != []
    ensures OpcodeSize(opcode) >= (if opcode == 0x1b then 3 else if opcode in {0xfa, 0xfb} then 4 else 2)
  {
    RowsOfReferring();
    hide Row;
    var high, low := opcode / 16, opcode % 16;
    assert opcode == 16 * high + low && OpcodeSize(opcode) == Row(high)[low];
    assert high == 1 ==> low in {10, 11, 12, 15};
    assert high == 2 ==> low in {0, 2, 3, 4, 5};
    assert high == 7 ==> low <= 8 && low != 3;
    assert high in {1, 2, 5, 6, 7, 15} && (high == 15 ==> low >= 10);
  }

  lemma {:induction false} RefAtMember(refs: seq<PoolRef>, i: nat)
    ensures RefAt(refs, i).Some? ==> RefAt(refs, i).value in refs && RefAt(refs, i).value.unitOffset == i
    ensures RefAt(refs, i).None? ==> forall r :: r in refs ==> r.unitOffset != i
  {
    if refs != [] {
      RefAtMember(refs[1..], i);
      assert forall r :: r in refs <==> r == refs[0] || r in refs[1..];
    }
  }

  /** Every index lies within its instruction, and never in the unit that holds the opcode. */
  lemma RefsFit(opcode: nat, i: nat)
    requires opcode < 256 && RefAt(IndexInfo(opcode), i).Some?
    ensures var ref := RefAt(IndexInfo(opcode), i).value;
      ref.unitOffset == i >= 1 && i + (if ref.is32Bit then 2 else 1) <= OpcodeSize(opcode)
  {
    RefAtMember(IndexInfo(opcode), i);
    SizesOfReferring(opcode);
  }
}
