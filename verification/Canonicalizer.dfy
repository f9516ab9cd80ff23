/** The canonical text of a method's instructions: every index into a constant pool
    is replaced by what it denotes, so that code compares equal however its pools
    are ordered. */
module Canonicalizer {
  import opened Bytes
  import opened Text
  import opened OpcodeTable

  datatype Proto = Proto(shorty: string, returnType: string, parameters: seq<string>)
  datatype FieldId = FieldId(className: string, typeName: string, fieldName: string)
  datatype MethodId = MethodId(className: string, methodName: string, proto: Proto)

  datatype MethodHandle = FieldHandle(kind: nat, field: FieldId) | InvokeHandle(kind: nat, target: MethodId)
  datatype CallSite = CallSite(linker: MethodHandle, name: string, proto: Proto, arguments: seq<string>)

  /** The pools of a file. The call sites and method handles are there, but are not parsed
      and have no part in the text. */
  datatype Pools = Pools(
    strings: seq<string>, types: seq<string>, protos: seq<Proto>, fields: seq<FieldId>, methods: seq<MethodId>,
    sites: seq<CallSite>, handles: seq<MethodHandle>)

  /** `size` 16-bit units at byte `off` of the file. */
  datatype Code = Code(bytes: seq<byte>, off: nat, size: nat)

  /** Little-endian reads; none where the index is out of range and the read throws. */
  function Uint16At(bytes: seq<byte>, off: nat): Option<nat> {
    if off + 1 < |bytes| then Some(bytes[off] as int + bytes[off + 1] as int * 0x100) else None
  }

  function Uint32At(bytes: seq<byte>, off: nat): Option<nat> {
    if off + 3 < |bytes| then
      Some(bytes[off] as int + bytes[off + 1] as int * 0x100 + bytes[off + 2] as int * 0x1_0000 +
           bytes[off + 3] as int * 0x100_0000)
    else None
  }

  function Unit(c: Code, k: nat): (u: Option<nat>)
    ensures u.Some? ==> u.value < 0x1_0000
  {
    Uint16At(c.bytes, c.off + k * 2)
  }

  /** Size in units of the switch or array payload at a unit, 0 if there is none. */
  function PayloadSize(c: Code, k: nat): Option<nat> {
    var off := c.off + k * 2;
    var ident := Uint16At(c.bytes, off);
    if ident.None? then None
    else if ident.value == 0x100 then
      var n := Uint16At(c.bytes, off + 2);
      if n.None? then None else Some(4 + n.value * 2)
    else if ident.value == 0x200 then
      var n := Uint16At(c.bytes, off + 2);
      if n.None? then None else Some(2 + n.value * 4)
    else if ident.value == 0x300 then
      var width, n := Uint16At(c.bytes, off + 2), Uint32At(c.bytes, off + 4);
      if width.None? || n.None? then None else Some(4 + (n.value * width.value + 1) / 2)
    else Some(0)
  }

  function FieldText(f: FieldId): string {
    "F:" + f.className + "." + f.fieldName + ":" + f.typeName
  }

  function MethodText(m: MethodId): string {
    "M:" + m.className + "." + m.methodName + "(" + Join(m.proto.parameters, ",") + ")" + m.proto.returnType
  }

  function ProtoText(p: Proto): string {
    "P:" + p.returnType + "(" + Join(p.parameters, ",") + ")"
  }

  /** What an index denotes; none where it is out of its pool's range. */
  function Resolve(pools: Pools, pool: PoolKind, index: nat): Option<string> {
    match pool
    case StringPool => if index < |pools.strings| then Some("S:" + pools.strings[index]) else None
    case TypePool => if index < |pools.types| then Some("T:" + pools.types[index]) else None
    case FieldPool => if index < |pools.fields| then Some(FieldText(pools.fields[index])) else None
    case MethodPool => if index < |pools.methods| then Some(MethodText(pools.methods[index])) else None
    case ProtoPool => if index < |pools.protos| then Some(ProtoText(pools.protos[index])) else None
    case CallSitePool => Some("CS:" + Decimal(index))
    case MethodHandlePool => Some("MH:" + Decimal(index))
  }

  // -- The text as a list of words, one per unit or operand ---------------------------

  function Prepend(word: Option<string>, rest: Option<seq<string>>): Option<seq<string>> {
    if word.None? || rest.None? then None else Some([word.value] + rest.value)
  }

  function Append(a: Option<seq<string>>, b: Option<seq<string>>): Option<seq<string>> {
    if a.None? || b.None? then None else Some(a.value + b.value)
  }

  function UnitWord(c: Code, k: nat): Option<string> {
    if Unit(c, k).None? then None else Some(Decimal(Unit(c, k).value))
  }

  /** `n` units taken as they are. */
  function RawWords(c: Code, pos: nat, n: nat): Option<seq<string>>
    decreases n
  {
    if n == 0 then Some([]) else Prepend(UnitWord(c, pos), RawWords(c, pos + 1, n - 1))
  }

  /** The index that the operand at a unit spells. */
  function Index(c: Code, k: nat, wide: bool): Option<nat> {
    if Unit(c, k).None? || (wide && Unit(c, k + 1).None?) then None
    else Some(Unit(c, k).value + (if wide then Unit(c, k + 1).value * 0x1_0000 else 0))
  }

  function OperandWord(c: Code, pools: Pools, k: nat, ref: PoolRef): Option<string> {
    var index := Index(c, k, ref.is32Bit);
    if index.None? then None else Resolve(pools, ref.pool, index.value)
  }

  function OperandSize(ref: Option<PoolRef>): nat {
    if ref.Some? && ref.value.is32Bit then 2 else 1
  }

  /** The words of the instruction at `pos` from its unit `i` on. */
  function InsnWords(c: Code, pools: Pools, pos: nat, opcode: nat, i: nat): Option<seq<string>>
    requires opcode < 256
    decreases OpcodeSize(opcode) - i
  {
    if i >= OpcodeSize(opcode) then Some([])
    else
      var ref := RefAt(IndexInfo(opcode), i);
      var word := if ref.None? then UnitWord(c, pos + i) else OperandWord(c, pools, pos + i, ref.value);
      Prepend(word, InsnWords(c, pools, pos, opcode, i + OperandSize(ref)))
  }

  /** What starts at a unit: a payload of so many units, or an instruction. */
  datatype Item = Payload(units: nat) | Insn(opcode: nat)

  function ItemAt(c: Code, pos: nat): (r: Option<Item>)
    ensures r.Some? ==> match r.value case Payload(n) => n >= 2 case Insn(op) => op < 256
  {
    var unit := Unit(c, pos);
    if unit.None? then None
    else if unit.value % 0x100 == 0 then
      var n := PayloadSize(c, pos);
      if n.None? then None else if n.value > 0 then Some(Payload(n.value)) else Some(Insn(0))
    else Some(Insn(unit.value % 0x100))
  }

  function ItemWidth(item: Item): nat
    requires item.Insn? ==> item.opcode < 256
  {
    match item case Payload(n) => n case Insn(op) => OpcodeSize(op)
  }

  function ItemWords(c: Code, pools: Pools, pos: nat, item: Item): Option<seq<string>>
    requires item.Insn? ==> item.opcode < 256
  {
    match item case Payload(n) => RawWords(c, pos, n) case Insn(op) => InsnWords(c, pools, pos, op, 0)
  }

  /** All words from a unit on; none where the walk throws. */
  function Words(c: Code, pools: Pools, pos: nat): Option<seq<string>>
    decreases c.size - pos
  {
    if pos >= c.size then Some([])
    else
      var item := ItemAt(c, pos);
      if item.None? then None
      else Append(ItemWords(c, pools, pos, item.value), Words(c, pools, pos + ItemWidth(item.value)))
  }

  /** Each word followed by a comma. */
  function Spell(words: seq<string>): string {
    if words == [] then "" else words[0] + "," + Spell(words[1..])
  }

  function Canonical(c: Code, pools: Pools): Option<string> {
    var words := Words(c, pools, 0);
    if words.None? then None else Some(Spell(words.value))
  }

  // -- The walk itself -----------------------------------------------------------------

  lemma {:induction false} SpellAppend(x: seq<string>, y: seq<string>)
    ensures Spell(x + y) == Spell(x) + Spell(y)
  {
    if x == [] {
      assert x + y == y;
    } else {
      SpellAppend(x[1..], y);
      assert (x + y)[1..] == x[1..] + y;
    }
  }

  /** What is in the buffer, if the rest of the walk goes through. */
  predicate Leads(buf: string, rest: Option<seq<string>>, all: Option<seq<string>>) {
    (rest.None? <==> all.None?) && (all.Some? ==> buf + Spell(rest.value) == Spell(all.value))
  }

  lemma LeadsWord(buf: string, word: Option<string>, rest: Option<seq<string>>, all: Option<seq<string>>)
    requires Leads(buf, Prepend(word, rest), all)
    ensures word.None? ==> all.None?
    ensures word.Some? ==> Leads(buf + word.value + ",", rest, all)
  {
    if word.Some? && rest.Some? {
      var w := [word.value] + rest.value;
      assert w[1..] == rest.value;
      assert buf + Spell(w) == buf + word.value + "," + Spell(rest.value);
    }
  }

  lemma AppendPrepend(word: Option<string>, a: Option<seq<string>>, b: Option<seq<string>>)
    ensures Append(Prepend(word, a), b) == Prepend(word, Append(a, b))
  {
    if word.Some? && a.Some? && b.Some? {
      assert [word.value] + a.value + b.value == [word.value] + (a.value + b.value);
    }
  }

  lemma AppendNothing(b: Option<seq<string>>)
    ensures Append(Some([]), b) == b
  {
    if b.Some? {
      assert [] + b.value == b.value;
    }
  }

  /** Writes a payload's units; none if a read throws. */
  method WritePayload(buf: string, c: Code, pos: nat, n: nat, ghost rest: Option<seq<string>>,
                      ghost all: Option<seq<string>>)
      returns (out: Option<string>)
    requires Leads(buf, Append(RawWords(c, pos, n), rest), all)
    ensures if out.Some? then Leads(out.value, rest, all) else all.None?
  {
    hide Leads, Append, Decimal;
    var b := buf;
    var i := 0;
    while i < n
      invariant 0 <= i <= n && Leads(b, Append(RawWords(c, pos + i, n - i), rest), all)
    {
      var u := Uint16At(c.bytes, c.off + (pos + i) * 2);
      AppendPrepend(UnitWord(c, pos + i), RawWords(c, pos + i + 1, n - i - 1), rest);
      LeadsWord(b, UnitWord(c, pos + i), Append(RawWords(c, pos + i + 1, n - i - 1), rest), all);
      if u.None? {
        return None;
      }
      b := b + Decimal(u.value) + ",";
      i := i + 1;
    }
    AppendNothing(rest);
    out := Some(b);
  }

  /** Reads the operand at a unit and resolves it. */
  method ReadOperand(c: Code, pools: Pools, k: nat, ref: PoolRef) returns (text: Option<string>)
    ensures text == OperandWord(c, pools, k, ref)
  {
    var u := Uint16At(c.bytes, c.off + k * 2);
    if u.None? {
      return None;
    }
    var index := u.value;
    if ref.is32Bit {
      var hi := Uint16At(c.bytes, c.off + (k + 1) * 2);
      if hi.None? {
        return None;
      }
      index := u.value + hi.value * 0x1_0000;
    }
    text := Resolve(pools, ref.pool, index);
  }

  /** Writes an instruction's units, its pool indices resolved. */
  method WriteInsn(buf: string, c: Code, pools: Pools, pos: nat, opcode: nat, ghost rest: Option<seq<string>>,
                   ghost all: Option<seq<string>>)
      returns (out: Option<string>)
    requires opcode < 256 && Leads(buf, Append(InsnWords(c, pools, pos, opcode, 0), rest), all)
    ensures if out.Some? then Leads(out.value, rest, all) else all.None?
  {
    hide Leads, Append, Decimal, OperandWord, OpcodeSize, IndexInfo, RefAt;
    var b := buf;
    var size := OpcodeSize(opcode);
    var info := IndexInfo(opcode);
    var i := 0;
    while i < size
      invariant 0 <= i && Leads(b, Append(InsnWords(c, pools, pos, opcode, i), rest), all)
    {
      var ref := RefAt(info, i);
      var word;
      if ref.None? {
        var u := Uint16At(c.bytes, c.off + (pos + i) * 2);
        word := if u.None? then None else Some(Decimal(u.value));
      } else {
        word := ReadOperand(c, pools, pos + i, ref.value);
      }
      InsnWordsStep(c, pools, pos, opcode, i, word, rest);
      LeadsWord(b, word, Append(InsnWords(c, pools, pos, opcode, i + OperandSize(ref)), rest), all);
      if word.None? {
        return None;
      }
      b := b + word.value + ",";
      i := i + OperandSize(ref);
    }
    AppendNothing(rest);
    out := Some(b);
  }

  lemma InsnWordsStep(c: Code, pools: Pools, pos: nat, opcode: nat, i: nat, word: Option<string>,
                      rest: Option<seq<string>>)
    requires opcode < 256 && i < OpcodeSize(opcode)
    requires var ref := RefAt(IndexInfo(opcode), i);
      word == if ref.None? then UnitWord(c, pos + i) else OperandWord(c, pools, pos + i, ref.value)
    ensures var more := InsnWords(c, pools, pos, opcode, i + OperandSize(RefAt(IndexInfo(opcode), i)));
      Append(InsnWords(c, pools, pos, opcode, i), rest) == Prepend(word, Append(more, rest))
  {
    hide Append, OperandWord, UnitWord, IndexInfo, OpcodeSize;
    AppendPrepend(word, InsnWords(c, pools, pos, opcode, i + OperandSize(RefAt(IndexInfo(opcode), i))), rest);
  }

  /** `_canonicalizeInstructions`. */
  method Canonicalize(c: Code, pools: Pools) returns (text: Option<string>)
    ensures text == Canonical(c, pools)
  {
    hide ItemAt, ItemWords, Leads, Spell;
    ghost var all := Words(c, pools, 0);
    LeadsStart(all);
    var buf := "";
    var pos := 0;
    while pos < c.size
      invariant Leads(buf, Words(c, pools, pos), all)
      decreases c.size - pos
    {
      var item := ReadItem(c, pos);
      if item.None? {
        LeadsNowhere(buf, all);
        return None;
      }
      var next := pos + ItemWidth(item.value);
      var wrote := WriteItem(buf, c, pools, pos, item.value, Words(c, pools, next), all);
      if wrote.None? {
        return None;
      }
      buf := wrote.value;
      pos := next;
    }
    LeadsDone(buf, all);
    text := Some(buf);
  }

  lemma LeadsStart(all: Option<seq<string>>)
    ensures Leads("", all, all)
  {
  }

  lemma LeadsNowhere(buf: string, all: Option<seq<string>>)
    requires Leads(buf, None, all)
    ensures all.None?
  {
  }

  lemma LeadsDone(buf: string, all: Option<seq<string>>)
    requires Leads(buf, Some([]), all)
    ensures all.Some? && Spell(all.value) == buf
  {
    assert buf + Spell([]) == buf;
  }

  method WriteItem(buf: string, c: Code, pools: Pools, pos: nat, item: Item, ghost rest: Option<seq<string>>,
                   ghost all: Option<seq<string>>)
      returns (out: Option<string>)
    requires item.Insn? ==> item.opcode < 256
    requires Leads(buf, Append(ItemWords(c, pools, pos, item), rest), all)
    ensures if out.Some? then Leads(out.value, rest, all) else all.None?
  {
    match item {
      case Payload(n) => out := WritePayload(buf, c, pos, n, rest, all);
      case Insn(opcode) => out := WriteInsn(buf, c, pools, pos, opcode, rest, all);
    }
  }

  /** Decides what starts at a unit: a payload only where the opcode byte is zero and its size is not. */
  method ReadItem(c: Code, pos: nat) returns (item: Option<Item>)
    ensures item == ItemAt(c, pos)
  {
    var unit := Uint16At(c.bytes, c.off + pos * 2);
    if unit.None? {
      return None;
    }
    var opcode := unit.value % 0x100;
    if opcode == 0 {
      var payload := PayloadSize(c, pos);
      if payload.None? {
        return None;
      }
      if payload.value > 0 {
        return Some(Payload(payload.value));
      }
    }
    item := Some(Insn(opcode));
  }
}
