/** The instruction formats of Dalvik bytecode and which opcode has which, as its documentation
    lists them, and the proof that the two tables are what follows from them. */
module Formats {
  import opened Bytes
  import opened OpcodeTable

  /** The first digit is the number of code units; the letter says what else there is: `c` a
      constant pool index, `cc` two of them. */
  datatype Format =
    | F10x | F12x | F11n | F11x | F10t
    | F20t | F22x | F21t | F21s | F21h | F21c | F23x | F22b | F22t | F22s | F22c
    | F30t | F32x | F31i | F31t | F31c | F35c | F3rc
    | F45cc | F4rcc
    | F51l

  function UnitsOf(f: Format): nat {
    match f
    case F10x | F12x | F11n | F11x | F10t => 1
    case F20t | F22x | F21t | F21s | F21h | F21c | F23x | F22b | F22t | F22s | F22c => 2
    case F30t | F32x | F31i | F31t | F31c | F35c | F3rc => 3
    case F45cc | F4rcc => 4
    case F51l => 5
  }

  /** The format of each opcode; opcodes that are not in use have that of `nop`. */
  function FormatOf(op: nat): Format {
    if op == 0x00 then F10x                                     // nop
    else if op in {0x01, 0x04, 0x07} then F12x                  // move
    else if op in {0x02, 0x05, 0x08} then F22x                  // move/from16
    else if op in {0x03, 0x06, 0x09} then F32x                  // move/16
    else if 0x0a <= op <= 0x0d then F11x                        // move-result, move-exception
    else if op == 0x0e then F10x                                // return-void
    else if 0x0f <= op <= 0x11 then F11x                        // return
    else if op == 0x12 then F11n                                // const/4
    else if op in {0x13, 0x16} then F21s                        // const/16, const-wide/16
    else if op in {0x14, 0x17} then F31i                        // const, const-wide/32
    else if op in {0x15, 0x19} then F21h                        // const/high16, const-wide/high16
    else if op == 0x18 then F51l                                // const-wide
    else if op == 0x1a then F21c                                // const-string
    else if op == 0x1b then F31c                                // const-string/jumbo
    else if op == 0x1c then F21c                                // const-class
    else if op in {0x1d, 0x1e} then F11x                        // monitor-enter, monitor-exit
    else if op == 0x1f then F21c                                // check-cast
    else if op == 0x20 then F22c                                // instance-of
    else if op == 0x21 then F12x                                // array-length
    else if op == 0x22 then F21c                                // new-instance
    else if op == 0x23 then F22c                                // new-array
    else if op == 0x24 then F35c                                // filled-new-array
    else if op == 0x25 then F3rc                                // filled-new-array/range
    else if op == 0x26 then F31t                                // fill-array-data
    else if op == 0x27 then F11x                                // throw
    else if op == 0x28 then F10t                                // goto
    else if op == 0x29 then F20t                                // goto/16
    else if op == 0x2a then F30t                                // goto/32
    else if op in {0x2b, 0x2c} then F31t                        // packed-switch, sparse-switch
    else if 0x2d <= op <= 0x31 then F23x                        // cmp
    else if 0x32 <= op <= 0x37 then F22t                        // if-test
    else if 0x38 <= op <= 0x3d then F21t                        // if-testz
    else if 0x44 <= op <= 0x51 then F23x                        // aget, aput
    else if 0x52 <= op <= 0x5f then F22c                        // iget, iput
    else if 0x60 <= op <= 0x6d then F21c                        // sget, sput
    else if 0x6e <= op <= 0x72 then F35c                        // invoke
    else if 0x74 <= op <= 0x78 then F3rc                        // invoke/range
    else if 0x7b <= op <= 0x8f then F12x                        // unary operations
    else if 0x90 <= op <= 0xaf then F23x                        // binary operations
    else if 0xb0 <= op <= 0xcf then F12x                        // binary operations, two addresses
    else if 0xd0 <= op <= 0xd7 then F22s                        // binary operations with 16 bits
    else if 0xd8 <= op <= 0xe2 then F22b                        // binary operations with 8 bits
    else if op == 0xfa then F45cc                               // invoke-polymorphic
    else if op == 0xfb then F4rcc                               // invoke-polymorphic/range
    else if op == 0xfc then F35c                                // invoke-custom
    else if op == 0xfd then F3rc                                // invoke-custom/range
    else if op in {0xfe, 0xff} then F21c                        // const-method-handle, const-method-type
    else F10x
  }

  /** What the mnemonic's constant is: `string@`, `type@`, `field@` and so on. */
  function ConstantOf(op: nat): PoolKind {
    if op in {0x1a, 0x1b} then StringPool
    else if 0x1c <= op <= 0x25 then TypePool
    else if 0x52 <= op <= 0x6d then FieldPool
    else if 0x6e <= op <= 0x78 || op in {0xfa, 0xfb} then MethodPool
    else if op in {0xfc, 0xfd} then CallSitePool
    else if op == 0xfe then MethodHandlePool
    else ProtoPool
  }

  /** The constants of an instruction: in its second unit, for the long string in the third too,
      and for the polymorphic calls a prototype in the fourth. */
  function Constants(op: nat): seq<PoolRef> {
    match FormatOf(op)
    case F21c | F22c | F35c | F3rc => [PoolRef(1, ConstantOf(op), false)]
    case F31c => [PoolRef(1, ConstantOf(op), true)]
    case F45cc | F4rcc => [PoolRef(1, ConstantOf(op), false), PoolRef(3, ProtoPool, false)]
    case _ => []
  }

  function Units(op: nat): nat {
    UnitsOf(FormatOf(op))
  }

  /** The references of every opcode are its constants. */
  lemma ReferencesExactly(op: nat)
    requires op < 256
    ensures IndexInfo(op) == Constants(op)
  {
  }

  lemma Digits(op: nat)
    requires op < 256
    ensures var high, low := op / 16, op % 16; op == 16 * high + low && high < 16 && low < 16
    ensures OpcodeSize(op) == Row(op / 16)[op % 16]
  {
  }

  lemma Row0()
    ensures Row(0) == [1, 1, 2, 3, 1, 2, 3, 1, 2, 3, 1, 1, 1, 1, 1, 1]
  {
  }

  lemma Sizes0(op: nat)
    requires 0x0 <= op < 0x10
    ensures OpcodeSize(op) == Units(op)
  {
    hide Row, OpcodeSize;
    Row0();
    Digits(op);
  }

  lemma Row1()
    ensures Row(1) == [1, 1, 1, 2, 3, 2, 2, 3, 5, 2, 2, 3, 2, 1, 1, 2]
  {
  }

  lemma Sizes1(op: nat)
    requires 0x10 <= op < 0x20
    ensures OpcodeSize(op) == Units(op)
  {
    hide Row, OpcodeSize;
    Row1();
    Digits(op);
  }

  lemma Row2()
    ensures Row(2) == [2, 1, 2, 2, 3, 3, 3, 1, 1, 2, 3, 3, 3, 2, 2, 2]
  {
  }

  lemma Sizes2(op: nat)
    requires 0x20 <= op < 0x30
    ensures OpcodeSize(op) == Units(op)
  {
    hide Row, OpcodeSize;
    Row2();
    Digits(op);
  }

  lemma Row3()
    ensures Row(3) == [2, 2, 2, 2, 2, 2, 2, 2, 2, 2, 2, 2, 2, 2, 1, 1]
  {
  }

  lemma Sizes3(op: nat)
    requires 0x30 <= op < 0x40
    ensures OpcodeSize(op) == Units(op)
  {
    hide Row, OpcodeSize;
    Row3();
    Digits(op);
  }

  lemma Row4()
    ensures Row(4) == [1, 1, 1, 1, 2, 2, 2, 2, 2, 2, 2, 2, 2, 2, 2, 2]
  {
  }

  lemma Sizes4(op: nat)
    requires 0x40 <= op < 0x50
    ensures OpcodeSize(op) == Units(op)
  {
    hide Row, OpcodeSize;
    Row4();
    Digits(op);
  }

  lemma Row6()
    ensures Row(6) == [2, 2, 2, 2, 2, 2, 2, 2, 2, 2, 2, 2, 2, 2, 3, 3]
  {
  }

  lemma Sizes6(op: nat)
    requires 0x60 <= op < 0x70
    ensures OpcodeSize(op) == Units(op)
  {
    hide Row, OpcodeSize;
    Row6();
    Digits(op);
  }

  lemma Row7()
    ensures Row(7) == [3, 3, 3, 1, 3, 3, 3, 3, 3, 1, 1, 1, 1, 1, 1, 1]
  {
  }

  lemma Sizes7(op: nat)
    requires 0x70 <= op < 0x80
    ensures OpcodeSize(op) == Units(op)
  {
    hide Row, OpcodeSize;
    Row7();
    Digits(op);
  }

  lemma Row14()
    ensures Row(14) == [2, 2, 2, 1, 1, 1, 1, 1, 1, 1, 1, 1, 1, 1, 1, 1]
  {
  }

  lemma Sizes14(op: nat)
    requires 0xe0 <= op < 0xf0
    ensures OpcodeSize(op) == Units(op)
  {
    hide Row, OpcodeSize;
    Row14();
    Digits(op);
  }

  lemma Row15()
    ensures Row(15) == [1, 1, 1, 1, 1, 1, 1, 1, 1, 1, 4, 4, 3, 3, 2, 2]
  {
  }

  lemma Sizes15(op: nat)
    requires 0xf0 <= op < 0x100
    ensures OpcodeSize(op) == Units(op)
  {
    hide Row, OpcodeSize;
    Row15();
    Digits(op);
  }

  /** The rows whose opcodes all have the same size. */
  lemma EvenRows(i: nat)
    requires i < 16
    ensures Row(5)[i] == Row(9)[i] == Row(10)[i] == Row(13)[i] == 2
    ensures Row(8)[i] == Row(11)[i] == Row(12)[i] == 1
  {
  }

  lemma SizesEven(op: nat)
    requires op < 256 && op / 16 in {5, 8, 9, 10, 11, 12, 13}
    ensures OpcodeSize(op) == Units(op)
  {
    hide Row, OpcodeSize;
    EvenRows(op % 16);
    Digits(op);
  }

  /** The size of every opcode is that of its format. */
  lemma SizesExactly(op: nat)
    requires op < 256
    ensures OpcodeSize(op) == Units(op)
  {
    hide OpcodeSize, Units;
    if op < 0x10 {
      Sizes0(op);
    } else if op < 0x20 {
      Sizes1(op);
    } else if op < 0x30 {
      Sizes2(op);
    } else if op < 0x40 {
      Sizes3(op);
    } else if op < 0x50 {
      Sizes4(op);
    } else if 0x60 <= op < 0x70 {
      Sizes6(op);
    } else if 0x70 <= op < 0x80 {
      Sizes7(op);
    } else if 0xe0 <= op < 0xf0 {
      Sizes14(op);
    } else if 0xf0 <= op {
      Sizes15(op);
    } else {
      SizesEven(op);
    }
  }

  /** A unit that belongs to no constant. */
  predicate Bare(op: nat, k: nat) {
    k < Units(op) && !Within(op, k) && forall ref :: ref in Constants(op) ==> ref.unitOffset != k
  }

  /** The second unit of a constant of 32 bits. */
  predicate Within(op: nat, k: nat) {
    exists ref :: ref in Constants(op) && ref.is32Bit && ref.unitOffset + 1 == k
  }

  lemma BareFirst(op: nat)
    ensures Bare(op, 0)
  {
  }

  /** What the lookup in the table finds, at a unit that is not within a constant. */
  lemma UnitIs(op: nat, i: nat)
    requires op < 256 && i < OpcodeSize(op) && !Within(op, i)
    ensures i < Units(op)
    ensures var ref := RefAt(IndexInfo(op), i);
      && (ref.None? ==> Bare(op, i))
      && (ref.Some? ==> ref.value in Constants(op) && ref.value.unitOffset == i)
      && !Within(op, i + if ref.Some? && ref.value.is32Bit then 2 else 1)
  {
    ReferencesExactly(op);
    SizesExactly(op);
    RefAtMember(IndexInfo(op), i);
    hide IndexInfo, OpcodeSize, FormatOf, ConstantOf;
  }

  /** And every constant is found. */
  lemma ConstantFound(op: nat, ref: PoolRef)
    requires op < 256 && ref in Constants(op)
    ensures RefAt(IndexInfo(op), ref.unitOffset) == Some(ref) && ref.unitOffset < OpcodeSize(op)
  {
    ReferencesExactly(op);
    SizesExactly(op);
    RefAtMember(IndexInfo(op), ref.unitOffset);
    hide IndexInfo, OpcodeSize, FormatOf, ConstantOf;
  }
}
