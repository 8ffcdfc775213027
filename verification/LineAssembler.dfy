/** A line-number assembler: the bytes of a program for any rows, and what the reader makes of them. */
module LineAssembler {
  import opened Bits
  import opened DwarfBuf
  import opened Leb128
  import opened LineMachine
  import opened LineProgram
  import opened Wrappers

  /** A row to be recorded; `file` counts the names of the header from 0. */
  datatype Entry = Entry(pc: nat, file: nat, line: int)

  /** How the address and the line are moved to those of the next row. */
  datatype Mode = ByAdvancePc | ByFixedAdvance | BySpecial | ByConstAdd

  datatype Placed = Placed(entry: Entry, mode: Mode)

  /** Rows at rising addresses, from the address `start` on. */
  datatype Sequence = Sequence(start: nat, rows: seq<Placed>)

  /** The number of instructions between two addresses. */
  function Advances(h: Header, from: Entry, to: Entry): nat
    requires h.minInsnLen > 0 && from.pc <= to.pc
  {
    DivNonNeg(to.pc - from.pc, h.minInsnLen);
    (to.pc - from.pc) / h.minInsnLen
  }

  /** The opcode of section 6.2.5.1 for a line and an operation advance. */
  function SpecialOpcode(h: Header, line: int, advance: int): int {
    line - h.lineBase + h.lineRange * advance + h.opcodeBase
  }

  /** From the table in section 6.2.5.1 of DWARF 4: line base -3, line range 12, opcode base 13. */
  lemma SpecialTable(h: Header)
    requires h.lineBase == -3 && h.lineRange == 12 && h.opcodeBase == 13
    ensures SpecialOpcode(h, -3, 0) == 13 && SpecialOpcode(h, 8, 0) == 24 && SpecialOpcode(h, -3, 1) == 25
    ensures SpecialOpcode(h, 8, 19) == 252 && SpecialOpcode(h, -1, 20) == 255
  {
  }

  /** The operation advance of the opcode 255. */
  function ConstAdvance(h: Header): nat
    requires HeaderOk(h)
  {
    DivNonNeg(255 - h.opcodeBase, h.lineRange);
    (255 - h.opcodeBase) / h.lineRange
  }

  predicate SpecialFits(h: Header, line: int, advance: int) {
    0 <= advance && h.lineBase <= line < h.lineBase + h.lineRange && SpecialOpcode(h, line, advance) <= 255
  }

  predicate AssemblerOk(h: Header, u: Unit) {
    HeaderOk(h) && h.minInsnLen > 0 && h.files > 0 && h.opcodeBase >= 10 && u.addrSize in {1, 2, 4, 8}
  }

  /** The row `to` can follow the row `from` in this way. */
  predicate Placeable(h: Header, from: Entry, to: Entry, mode: Mode)
    requires HeaderOk(h) && h.minInsnLen > 0
  {
    && from.pc <= to.pc < WORD && to.file < h.files && to.file + 1 < WORD && -0x8000_0000 <= to.line < 0x8000_0000
    && (mode.ByFixedAdvance? || (to.pc - from.pc) % h.minInsnLen == 0)
    && match mode
       case ByAdvancePc => true
       case ByFixedAdvance => to.pc - from.pc < 0x1_0000
       case BySpecial => SpecialFits(h, to.line - from.line, Advances(h, from, to))
       case ByConstAdd => SpecialFits(h, to.line - from.line, Advances(h, from, to) - ConstAdvance(h))
  }

  predicate AllPlaceable(h: Header, from: Entry, rows: seq<Placed>)
    requires HeaderOk(h) && h.minInsnLen > 0
    decreases |rows|
  {
    rows == [] || (Placeable(h, from, rows[0].entry, rows[0].mode) && AllPlaceable(h, rows[0].entry, rows[1..]))
  }

  /** A new file is set by its number, which counts from 1. */
  function FileBytes(from: Entry, to: Entry): seq<byte> {
    if to.file == from.file then [] else [4] + EncodeUleb(to.file + 1)
  }

  function OpcodeByte(opcode: int): seq<byte> {
    if 0 <= opcode < 256 then [opcode] else []
  }

  function MoveBytes(h: Header, u: Unit, from: Entry, to: Entry, mode: Mode): seq<byte>
    requires HeaderOk(h) && h.minInsnLen > 0 && from.pc <= to.pc
  {
    var line, advance := to.line - from.line, Advances(h, from, to);
    match mode
    case ByAdvancePc => [3] + EncodeSleb(line) + [2] + EncodeUleb(advance) + [1]
    case ByFixedAdvance => [3] + EncodeSleb(line) + [9] + ToBytes(to.pc - from.pc, 2, u.bigEndian) + [1]
    case BySpecial => OpcodeByte(SpecialOpcode(h, line, advance))
    case ByConstAdd => [8] + OpcodeByte(SpecialOpcode(h, line, advance - ConstAdvance(h)))
  }

  function RowsBytes(h: Header, u: Unit, from: Entry, rows: seq<Placed>): seq<byte>
    requires HeaderOk(h) && h.minInsnLen > 0 && AllPlaceable(h, from, rows)
    decreases |rows|
  {
    if rows == [] then []
    else
      FileBytes(from, rows[0].entry) + MoveBytes(h, u, from, rows[0].entry, rows[0].mode) +
      RowsBytes(h, u, rows[0].entry, rows[1..])
  }

  /** Every sequence starts in the first file, at line 1. */
  predicate SequenceOk(h: Header, u: Unit, s: Sequence)
    requires AssemblerOk(h, u)
  {
    s.start < Pow(8 * u.addrSize) && AllPlaceable(h, Entry(s.start, 0, 1), s.rows)
  }

  /** `set_address` with the bytes of the address, the rows, and the end of the sequence. */
  function SequenceBytes(h: Header, u: Unit, s: Sequence): seq<byte>
    requires AssemblerOk(h, u) && SequenceOk(h, u, s)
  {
    [0, 1 + u.addrSize, 2] + ToBytes(s.start, u.addrSize, u.bigEndian) + RowsBytes(h, u, Entry(s.start, 0, 1), s.rows) +
    [0, 1, 1]
  }

  predicate AllOk(h: Header, u: Unit, program: seq<Sequence>)
    requires AssemblerOk(h, u)
  {
    forall k :: 0 <= k < |program| ==> SequenceOk(h, u, program[k])
  }

  function Assembled(h: Header, u: Unit, program: seq<Sequence>): seq<byte>
    requires AssemblerOk(h, u) && AllOk(h, u, program)
  {
    if program == [] then [] else SequenceBytes(h, u, program[0]) + Assembled(h, u, program[1..])
  }

  function Entries(rows: seq<Placed>): (r: seq<Entry>)
    ensures |r| == |rows|
  {
    if rows == [] then [] else [rows[0].entry] + Entries(rows[1..])
  }

  function AllEntries(program: seq<Sequence>): seq<Entry> {
    if program == [] then [] else Entries(program[0].rows) + AllEntries(program[1..])
  }

  /** No row repeats the one before it. */
  predicate NoRepeats(rows: seq<Entry>) {
    forall k :: 0 < k < |rows| ==> rows[k] != rows[k - 1]
  }

  /** The rows without those that repeat the one before. */
  function Squeezed(rows: seq<Entry>): (r: seq<Entry>)
    ensures rows != [] ==> r != [] && r[|r| - 1] == rows[|rows| - 1]
  {
    if rows == [] then []
    else
      var n := |rows| - 1;
      Squeezed(rows[..n]) + if n > 0 && rows[n] == rows[n - 1] then [] else [rows[n]]
  }

  lemma {:induction false} NothingSqueezed(rows: seq<Entry>)
    requires NoRepeats(rows)
    ensures Squeezed(rows) == rows
  {
    if rows != [] {
      var n := |rows| - 1;
      NothingSqueezed(rows[..n]);
      assert rows == rows[..n] + [rows[n]];
    }
  }

  /** The lines are the rows, each with its own index. */
  predicate Recorded(lines: seq<Line>, rows: seq<Entry>) {
    |lines| == |rows| &&
    forall k :: 0 <= k < |rows| ==> lines[k] == Line(rows[k].pc, FromHeader(rows[k].file), rows[k].line, k)
  }

  /** The same instructions as the bytes. */
  function FileOps(from: Entry, to: Entry): seq<Op> {
    if to.file == from.file then [] else [SetFile(EncodeUleb(to.file + 1))]
  }

  function SpecialOps(opcode: int): seq<Op> {
    if 0 <= opcode < 256 then [Special(opcode)] else []
  }

  function MoveOps(h: Header, u: Unit, from: Entry, to: Entry, mode: Mode): seq<Op>
    requires HeaderOk(h) && h.minInsnLen > 0 && from.pc <= to.pc
  {
    var line, advance := to.line - from.line, Advances(h, from, to);
    match mode
    case ByAdvancePc => [AdvanceLine(EncodeSleb(line)), AdvancePc(EncodeUleb(advance)), Copy]
    case ByFixedAdvance => [AdvanceLine(EncodeSleb(line)), FixedAdvancePc(ToBytes(to.pc - from.pc, 2, u.bigEndian)), Copy]
    case BySpecial => SpecialOps(SpecialOpcode(h, line, advance))
    case ByConstAdd => [ConstAddPc] + SpecialOps(SpecialOpcode(h, line, advance - ConstAdvance(h)))
  }

  function RowsOps(h: Header, u: Unit, from: Entry, rows: seq<Placed>): seq<Op>
    requires HeaderOk(h) && h.minInsnLen > 0 && AllPlaceable(h, from, rows)
    decreases |rows|
  {
    if rows == [] then []
    else
      FileOps(from, rows[0].entry) + MoveOps(h, u, from, rows[0].entry, rows[0].mode) +
      RowsOps(h, u, rows[0].entry, rows[1..])
  }

  function SequenceOps(h: Header, u: Unit, s: Sequence): seq<Op>
    requires AssemblerOk(h, u) && SequenceOk(h, u, s)
  {
    [SetAddress([1 + u.addrSize], ToBytes(s.start, u.addrSize, u.bigEndian))] + RowsOps(h, u, Entry(s.start, 0, 1), s.rows) +
    [EndSequence([1])]
  }

  function AllOps(h: Header, u: Unit, program: seq<Sequence>): seq<Op>
    requires AssemblerOk(h, u) && AllOk(h, u, program)
  {
    if program == [] then [] else SequenceOps(h, u, program[0]) + AllOps(h, u, program[1..])
  }

  lemma {:induction false} EncodeAppend(a: seq<Op>, b: seq<Op>)
    ensures Encode(a + b) == Encode(a) + Encode(b)
  {
    hide EncodeOp;
    if a == [] {
      assert a + b == b;
    } else {
      assert (a + b)[1..] == a[1..] + b;
      EncodeAppend(a[1..], b);
    }
  }

  lemma EncodeOne(op: Op)
    ensures Encode([op]) == EncodeOp(op)
  {
    hide EncodeOp;
    assert [op][1..] == [];
    assert EncodeOp(op) + [] == EncodeOp(op);
  }

  lemma EncodeThree(a: Op, b: Op, c: Op)
    ensures Encode([a, b, c]) == EncodeOp(a) + EncodeOp(b) + EncodeOp(c)
  {
    hide EncodeOp, Encode;
    EncodeOne(a);
    EncodeOne(b);
    EncodeOne(c);
    EncodeAppend([a], [b]);
    EncodeAppend([a] + [b], [c]);
    assert [a, b, c] == [a] + [b] + [c];
  }

  lemma EncodeRow(line: seq<byte>, n: seq<byte>)
    ensures Encode([AdvanceLine(line), AdvancePc(n), Copy]) == [3] + line + [2] + n + [1]
    ensures Encode([AdvanceLine(line), FixedAdvancePc(n), Copy]) == [3] + line + [9] + n + [1]
  {
    hide Encode;
    EncodeThree(AdvanceLine(line), AdvancePc(n), Copy);
    EncodeThree(AdvanceLine(line), FixedAdvancePc(n), Copy);
  }

  lemma FileEncoded(from: Entry, to: Entry)
    ensures Encode(FileOps(from, to)) == FileBytes(from, to)
  {
    hide EncodeUleb;
    if to.file != from.file {
      EncodeOne(SetFile(EncodeUleb(to.file + 1)));
    }
  }

  lemma SpecialEncoded(opcode: int)
    ensures Encode(SpecialOps(opcode)) == OpcodeByte(opcode)
  {
    if 0 <= opcode < 256 {
      EncodeOne(Special(opcode));
    }
  }

  lemma MoveEncoded(h: Header, u: Unit, from: Entry, to: Entry, mode: Mode)
    requires HeaderOk(h) && h.minInsnLen > 0 && from.pc <= to.pc
    ensures Encode(MoveOps(h, u, from, to, mode)) == MoveBytes(h, u, from, to, mode)
  {
    hide Encode, EncodeUleb, EncodeSleb, ToBytes, SpecialOpcode, SpecialOps, OpcodeByte;
    var line, advance := to.line - from.line, Advances(h, from, to);
    match mode
    case ByAdvancePc =>
      EncodeRow(EncodeSleb(line), EncodeUleb(advance));
    case ByFixedAdvance =>
      EncodeRow(EncodeSleb(line), ToBytes(to.pc - from.pc, 2, u.bigEndian));
    case BySpecial =>
      SpecialEncoded(SpecialOpcode(h, line, advance));
    case ByConstAdd =>
      var opcode := SpecialOpcode(h, line, advance - ConstAdvance(h));
      EncodeOne(ConstAddPc);
      SpecialEncoded(opcode);
      EncodeAppend([ConstAddPc], SpecialOps(opcode));
  }

  lemma {:induction false} RowsEncoded(h: Header, u: Unit, from: Entry, rows: seq<Placed>)
    requires HeaderOk(h) && h.minInsnLen > 0 && AllPlaceable(h, from, rows)
    ensures Encode(RowsOps(h, u, from, rows)) == RowsBytes(h, u, from, rows)
    decreases |rows|
  {
    hide Encode, FileOps, FileBytes, MoveOps, MoveBytes;
    if rows == [] {
      NothingEncoded();
    } else {
      var to, mode := rows[0].entry, rows[0].mode;
      FileEncoded(from, to);
      MoveEncoded(h, u, from, to, mode);
      RowsEncoded(h, u, to, rows[1..]);
      EncodeAppend(FileOps(from, to), MoveOps(h, u, from, to, mode));
      EncodeAppend(FileOps(from, to) + MoveOps(h, u, from, to, mode), RowsOps(h, u, to, rows[1..]));
    }
  }

  lemma NothingEncoded()
    ensures Encode([]) == []
  {
  }

  lemma SequenceEncoded(h: Header, u: Unit, s: Sequence)
    requires AssemblerOk(h, u) && SequenceOk(h, u, s)
    ensures Encode(SequenceOps(h, u, s)) == SequenceBytes(h, u, s)
  {
    hide Encode, RowsOps, RowsBytes, ToBytes, AllPlaceable, Pow;
    var first, rows, last := SetAddress([1 + u.addrSize], ToBytes(s.start, u.addrSize, u.bigEndian)),
        RowsOps(h, u, Entry(s.start, 0, 1), s.rows), EndSequence([1]);
    EncodeOne(first);
    EncodeOne(last);
    RowsEncoded(h, u, Entry(s.start, 0, 1), s.rows);
    EncodeAppend([first], rows);
    EncodeAppend([first] + rows, [last]);
    assert [0] + [1 + u.addrSize] + [2] == [0, 1 + u.addrSize, 2];
  }

  lemma {:induction false} ProgramEncoded(h: Header, u: Unit, program: seq<Sequence>)
    requires AssemblerOk(h, u) && AllOk(h, u, program)
    ensures Encode(AllOps(h, u, program)) == Assembled(h, u, program)
  {
    hide Encode, SequenceOps, SequenceBytes;
    if program == [] {
      NothingEncoded();
    } else {
      SequenceEncoded(h, u, program[0]);
      ProgramEncoded(h, u, program[1..]);
      EncodeAppend(SequenceOps(h, u, program[0]), AllOps(h, u, program[1..]));
    }
  }

  /** Wherever the instructions stand, the reader goes from one state to the other. */
  ghost predicate Reach(h: Header, u: Unit, vm: Vm, ops: seq<Op>, after: Vm)
    requires h.lineRange > 0
  {
    forall at: nat :: Run(h, u, vm, ops, at) == Some(after)
  }

  lemma {:induction false} RunBoth(h: Header, u: Unit, vm: Vm, a: seq<Op>, b: seq<Op>, at: nat, mid: Vm)
    requires h.lineRange > 0 && Run(h, u, vm, a, at) == Some(mid)
    ensures Run(h, u, vm, a + b, at) == Run(h, u, mid, b, at + |Encode(a)|)
    decreases |a|
  {
    hide Step, EncodeOp;
    if a == [] {
      assert a + b == b;
    } else {
      assert (a + b)[1..] == a[1..] + b;
      RunBoth(h, u, Step(h, u, vm, a[0], at).value, a[1..], b, at + |EncodeOp(a[0])|, mid);
    }
  }

  lemma ReachBoth(h: Header, u: Unit, vm: Vm, a: seq<Op>, mid: Vm, b: seq<Op>, after: Vm)
    requires h.lineRange > 0 && Reach(h, u, vm, a, mid) && Reach(h, u, mid, b, after)
    ensures Reach(h, u, vm, a + b, after)
  {
    hide Run, Encode;
    forall at: nat
      ensures Run(h, u, vm, a + b, at) == Some(after)
    {
      RunBoth(h, u, vm, a, b, at, mid);
      var end: nat := at + |Encode(a)|;
      assert Run(h, u, mid, b, end) == Some(after);
    }
  }

  lemma ReachOne(h: Header, u: Unit, vm: Vm, op: Op, after: Vm)
    requires h.lineRange > 0 && forall at: nat :: Step(h, u, vm, op, at) == Some(after)
    ensures Reach(h, u, vm, [op], after)
  {
    hide Step, EncodeOp;
    forall at: nat
      ensures Run(h, u, vm, [op], at) == Some(after)
    {
      assert [op][1..] == [];
      assert Step(h, u, vm, op, at) == Some(after);
    }
  }

  lemma ReachNone(h: Header, u: Unit, vm: Vm)
    requires h.lineRange > 0
    ensures Reach(h, u, vm, [], vm)
  {
  }

  /** The instructions are allowed, and they take the reader from one state to the other. */
  ghost predicate Does(h: Header, u: Unit, vm: Vm, ops: seq<Op>, after: Vm)
    requires HeaderOk(h)
  {
    AllWellFormed(h, u, ops) && Reach(h, u, vm, ops, after)
  }

  lemma DoesOne(h: Header, u: Unit, vm: Vm, op: Op, after: Vm)
    requires HeaderOk(h) && WellFormed(h, u, op) && forall at: nat :: Step(h, u, vm, op, at) == Some(after)
    ensures Does(h, u, vm, [op], after)
  {
    hide WellFormed, Reach, Step;
    ReachOne(h, u, vm, op, after);
  }

  lemma DoesBoth(h: Header, u: Unit, vm: Vm, a: seq<Op>, mid: Vm, b: seq<Op>, after: Vm)
    requires HeaderOk(h) && Does(h, u, vm, a, mid) && Does(h, u, mid, b, after)
    ensures Does(h, u, vm, a + b, after)
  {
    hide WellFormed, Reach;
    ReachBoth(h, u, vm, a, mid, b, after);
  }

  lemma NumberOf(v: nat)
    requires v < WORD
    ensures IsNumber(EncodeUleb(v)) && Groups(EncodeUleb(v)) == v
  {
    hide Pow, Groups, EncodeUleb;
    PowWord();
    PowMono(64, 70);
    EncodedUleb(v, 10);
  }

  lemma SetsFile(h: Header, u: Unit, vm: Vm, n: nat)
    requires HeaderOk(h) && h.opcodeBase >= 10 && n < h.files && n + 1 < WORD
    ensures Does(h, u, vm, [SetFile(EncodeUleb(n + 1))], vm.(file := FromHeader(n)))
  {
    hide Groups, EncodeUleb, Ends;
    NumberOf(n + 1);
    DoesOne(h, u, vm, SetFile(EncodeUleb(n + 1)), vm.(file := FromHeader(n)));
  }

  lemma AdvancesLine(h: Header, u: Unit, vm: Vm, d: int)
    requires HeaderOk(h) && h.opcodeBase >= 10 && -0x8000_0000 <= vm.lineno < 0x8000_0000
    requires -0x8000_0000 <= vm.lineno + d < 0x8000_0000
    ensures Does(h, u, vm, [AdvanceLine(EncodeSleb(d))], vm.(lineno := vm.lineno + d))
  {
    hide Signed, EncodeSleb, Ends, Pow;
    PowWord();
    PowMono(63, 69);
    EncodedSleb(d, 10);
    DoesOne(h, u, vm, AdvanceLine(EncodeSleb(d)), vm.(lineno := vm.lineno + d));
  }

  lemma ExactQuotient(x: nat, d: nat)
    requires d > 0 && x % d == 0
    ensures x / d >= 0 && d * (x / d) == x && x / d <= x
  {
    DivModFacts(x, d);
    MulMono(1, d, x / d);
  }

  lemma AdvancesPc(h: Header, u: Unit, vm: Vm, from: Entry, to: Entry)
    requires HeaderOk(h) && h.minInsnLen > 0 && h.opcodeBase >= 10 && vm.address == from.pc <= to.pc < WORD
    requires (to.pc - from.pc) % h.minInsnLen == 0
    ensures Does(h, u, vm, [AdvancePc(EncodeUleb(Advances(h, from, to)))], vm.(address := to.pc))
  {
    hide Groups, EncodeUleb, Ends;
    var a := Advances(h, from, to);
    ExactQuotient(to.pc - from.pc, h.minInsnLen);
    NumberOf(a);
    DoesOne(h, u, vm, AdvancePc(EncodeUleb(a)), vm.(address := to.pc));
  }

  lemma FixedAdvances(h: Header, u: Unit, vm: Vm, n: nat)
    requires HeaderOk(h) && h.opcodeBase >= 10 && n < 0x1_0000 && vm.address + n < WORD
    ensures Does(h, u, vm, [FixedAdvancePc(ToBytes(n, 2, u.bigEndian))], vm.(address := vm.address + n))
  {
    hide FromBytes, ToBytes;
    PowTable();
    FromToBytes(n, 2, u.bigEndian);
    DoesOne(h, u, vm, FixedAdvancePc(ToBytes(n, 2, u.bigEndian)), vm.(address := vm.address + n));
  }

  lemma AddsRow(h: Header, u: Unit, vm: Vm)
    requires HeaderOk(h) && h.opcodeBase >= 10
    ensures Does(h, u, vm, [Copy], Add(vm))
  {
    hide AddLine;
    DoesOne(h, u, vm, Copy, Add(vm));
  }

  lemma Does3(h: Header, u: Unit, v0: Vm, a: Op, v1: Vm, b: Op, v2: Vm, c: Op, v3: Vm)
    requires HeaderOk(h) && Does(h, u, v0, [a], v1) && Does(h, u, v1, [b], v2) && Does(h, u, v2, [c], v3)
    ensures Does(h, u, v0, [a, b, c], v3)
  {
    hide Does;
    DoesBoth(h, u, v0, [a], v1, [b], v2);
    DoesBoth(h, u, v0, [a] + [b], v2, [c], v3);
    assert [a, b, c] == [a] + [b] + [c];
  }

  /** The fields of a special opcode come out as they went in. */
  lemma SpecialParts(line: int, range: nat, advance: nat)
    requires 0 <= line < range
    ensures (line + range * advance) / range == advance && (line + range * advance) % range == line
  {
    DivModUnique(line + range * advance, advance, line, range);
  }

  lemma AddsSpecial(h: Header, u: Unit, vm: Vm, d: int, advance: nat, pc: nat)
    requires HeaderOk(h) && SpecialFits(h, d, advance) && pc == vm.address + h.minInsnLen * advance < WORD
    requires -0x8000_0000 <= vm.lineno + d < 0x8000_0000
    ensures Does(h, u, vm, SpecialOps(SpecialOpcode(h, d, advance)), Add(vm.(address := pc, lineno := vm.lineno + d)))
  {
    hide AddLine;
    SpecialParts(d - h.lineBase, h.lineRange, advance);
    var opcode := SpecialOpcode(h, d, advance);
    MulMono(0, advance, h.lineRange);
    assert advance * h.lineRange == h.lineRange * advance;
    assert h.opcodeBase <= opcode <= 255;
    DoesOne(h, u, vm, Special(opcode), Add(vm.(address := pc, lineno := vm.lineno + d)));
  }

  lemma ConstAdds(h: Header, u: Unit, vm: Vm)
    requires HeaderOk(h) && h.opcodeBase >= 10 && vm.address + h.minInsnLen * ConstAdvance(h) < WORD
    ensures Does(h, u, vm, [ConstAddPc], vm.(address := vm.address + h.minInsnLen * ConstAdvance(h)))
  {
    DoesOne(h, u, vm, ConstAddPc, vm.(address := vm.address + h.minInsnLen * ConstAdvance(h)));
  }

  /** The reader is where the row `from` has left it. */
  predicate IsAt(vm: Vm, from: Entry) {
    && vm.address == from.pc && vm.file == FromHeader(from.file) && vm.lineno == from.line
    && -0x8000_0000 <= from.line < 0x8000_0000
  }

  lemma MoveDoes(h: Header, u: Unit, vm: Vm, from: Entry, to: Entry, mode: Mode)
    requires AssemblerOk(h, u) && Placeable(h, from, to, mode) && vm.address == from.pc && vm.lineno == from.line
    requires -0x8000_0000 <= from.line < 0x8000_0000
    ensures Does(h, u, vm, MoveOps(h, u, from, to, mode), Add(vm.(address := to.pc, lineno := to.line)))
  {
    hide Does, EncodeUleb, EncodeSleb, ToBytes, SpecialOpcode, SpecialOps, Add;
    var line, advance := to.line - from.line, Advances(h, from, to);
    var v1, v2 := vm.(lineno := to.line), vm.(address := to.pc, lineno := to.line);
    match mode
    case ByAdvancePc =>
      AdvancesLine(h, u, vm, line);
      AdvancesPc(h, u, v1, from, to);
      AddsRow(h, u, v2);
      Does3(h, u, vm, AdvanceLine(EncodeSleb(line)), v1, AdvancePc(EncodeUleb(advance)), v2, Copy, Add(v2));
    case ByFixedAdvance =>
      var n: nat := to.pc - from.pc;
      AdvancesLine(h, u, vm, line);
      FixedAdvances(h, u, v1, n);
      AddsRow(h, u, v2);
      Does3(h, u, vm, AdvanceLine(EncodeSleb(line)), v1, FixedAdvancePc(ToBytes(n, 2, u.bigEndian)), v2, Copy, Add(v2));
    case BySpecial =>
      ExactQuotient(to.pc - from.pc, h.minInsnLen);
      AddsSpecial(h, u, vm, line, advance, to.pc);
    case ByConstAdd =>
      ConstMoveDoes(h, u, vm, from, to);
  }

  lemma ConstMoveDoes(h: Header, u: Unit, vm: Vm, from: Entry, to: Entry)
    requires AssemblerOk(h, u) && Placeable(h, from, to, ByConstAdd) && vm.address == from.pc && vm.lineno == from.line
    ensures Does(h, u, vm, MoveOps(h, u, from, to, ByConstAdd), Add(vm.(address := to.pc, lineno := to.line)))
  {
    hide Does, SpecialOpcode, SpecialOps, Add, ConstAdvance;
    var line, c := to.line - from.line, ConstAdvance(h);
    var rest: nat := Advances(h, from, to) - c;
    ExactQuotient(to.pc - from.pc, h.minInsnLen);
    Split(h.minInsnLen, c, rest);
    var mid := vm.(address := vm.address + h.minInsnLen * c);
    ConstAdds(h, u, vm);
    AddsSpecial(h, u, mid, line, rest, to.pc);
    var after := Add(vm.(address := to.pc, lineno := to.line));
    assert mid.(address := to.pc, lineno := to.line) == vm.(address := to.pc, lineno := to.line);
    assert vm.lineno + line == to.line;
    DoesBoth(h, u, vm, [ConstAddPc], mid, SpecialOps(SpecialOpcode(h, line, rest)), after);
  }

  lemma Split(m: nat, a: nat, b: nat)
    ensures m * (a + b) == m * a + m * b && m * a >= 0 && m * b >= 0
  {
  }

  lemma RowDoes(h: Header, u: Unit, vm: Vm, from: Entry, to: Entry, mode: Mode)
    requires AssemblerOk(h, u) && Placeable(h, from, to, mode) && IsAt(vm, from)
    ensures Does(h, u, vm, FileOps(from, to) + MoveOps(h, u, from, to, mode),
              Vm(to.pc, FromHeader(to.file), to.line, AddLine(vm.lines, to.pc, FromHeader(to.file), to.line)))
  {
    hide Does, EncodeUleb, AddLine, MoveOps;
    var mid := vm.(file := FromHeader(to.file));
    if to.file == from.file {
      assert [] + MoveOps(h, u, from, to, mode) == MoveOps(h, u, from, to, mode);
    } else {
      SetsFile(h, u, vm, to.file);
    }
    MoveDoes(h, u, mid, from, to, mode);
    var after := Add(mid.(address := to.pc, lineno := to.line));
    assert after == Vm(to.pc, FromHeader(to.file), to.line, AddLine(vm.lines, to.pc, FromHeader(to.file), to.line));
    if to.file != from.file {
      DoesBoth(h, u, vm, FileOps(from, to), mid, MoveOps(h, u, from, to, mode), after);
    }
  }

  /** A row is recorded unless it repeats the last one. */
  lemma RowRecorded(lines: seq<Line>, done: seq<Entry>, to: Entry)
    requires Recorded(lines, Squeezed(done))
    ensures Recorded(AddLine(lines, to.pc, FromHeader(to.file), to.line), Squeezed(done + [to]))
  {
    hide Squeezed;
    SqueezedOne(done, to);
  }

  lemma SqueezedOne(done: seq<Entry>, to: Entry)
    ensures Squeezed(done + [to]) == Squeezed(done) + if done != [] && done[|done| - 1] == to then [] else [to]
    ensures done == [] ==> Squeezed(done) == []
  {
    assert (done + [to])[..|done|] == done;
  }

  lemma DoesNothing(h: Header, u: Unit, vm: Vm)
    requires HeaderOk(h)
    ensures Does(h, u, vm, [], vm)
  {
    ReachNone(h, u, vm);
  }

  lemma NoEntries(done: seq<Entry>)
    ensures done + Entries([]) == done
  {
  }

  lemma EntriesFrom(done: seq<Entry>, rows: seq<Placed>)
    requires rows != []
    ensures done + Entries(rows) == done + [rows[0].entry] + Entries(rows[1..])
  {
  }

  lemma {:induction false} RowsDo(h: Header, u: Unit, vm: Vm, from: Entry, rows: seq<Placed>, done: seq<Entry>)
    returns (after: Vm)
    requires AssemblerOk(h, u) && AllPlaceable(h, from, rows) && IsAt(vm, from)
    requires Recorded(vm.lines, Squeezed(done))
    ensures Does(h, u, vm, RowsOps(h, u, from, rows), after) && Recorded(after.lines, Squeezed(done + Entries(rows)))
    decreases |rows|
  {
    hide Does, FileOps, MoveOps, AddLine, Recorded, Squeezed, Entries, SpecialFits, Advances;
    if rows == [] {
      after := vm;
      DoesNothing(h, u, vm);
      NoEntries(done);
    } else {
      var to, mode := rows[0].entry, rows[0].mode;
      var mid := Vm(to.pc, FromHeader(to.file), to.line, AddLine(vm.lines, to.pc, FromHeader(to.file), to.line));
      EntriesFrom(done, rows);
      RowRecorded(vm.lines, done, to);
      RowDoes(h, u, vm, from, to, mode);
      after := RowsDo(h, u, mid, to, rows[1..], done + [to]);
      DoesBoth(h, u, vm, FileOps(from, to) + MoveOps(h, u, from, to, mode), mid, RowsOps(h, u, to, rows[1..]), after);
    }
  }

  lemma SetsAddress(h: Header, u: Unit, vm: Vm, address: nat)
    requires AssemblerOk(h, u) && address < Pow(8 * u.addrSize)
    ensures var bytes := ToBytes(address, u.addrSize, u.bigEndian);
            Does(h, u, vm, [SetAddress([1 + u.addrSize], bytes)], vm.(address := address))
  {
    hide FromBytes, ToBytes, Pow;
    FromToBytes(address, u.addrSize, u.bigEndian);
    SmallLength(1 + u.addrSize);
    DoesOne(h, u, vm, SetAddress([1 + u.addrSize], ToBytes(address, u.addrSize, u.bigEndian)), vm.(address := address));
  }

  lemma SmallLength(n: byte)
    requires n < 128
    ensures IsNumber([n]) && Groups([n]) == n
  {
    assert [n][1..] == [];
  }

  lemma EndsSequence(h: Header, u: Unit, vm: Vm)
    requires AssemblerOk(h, u)
    ensures Does(h, u, vm, [EndSequence([1])], Start(h, vm.lines))
  {
    SmallLength(1);
    DoesOne(h, u, vm, EndSequence([1]), Start(h, vm.lines));
  }

  lemma SequenceDoes(h: Header, u: Unit, lines: seq<Line>, s: Sequence, done: seq<Entry>) returns (lines': seq<Line>)
    requires AssemblerOk(h, u) && SequenceOk(h, u, s) && Recorded(lines, Squeezed(done))
    ensures Does(h, u, Start(h, lines), SequenceOps(h, u, s), Start(h, lines'))
    ensures Recorded(lines', Squeezed(done + Entries(s.rows)))
  {
    hide Does, RowsOps, ToBytes, AllPlaceable, Recorded, Squeezed, Pow, AddLine;
    var from := Entry(s.start, 0, 1);
    var first, rows := [SetAddress([1 + u.addrSize], ToBytes(s.start, u.addrSize, u.bigEndian))], RowsOps(h, u, from, s.rows);
    var v0 := Start(h, lines);
    var v1 := v0.(address := s.start);
    SetsAddress(h, u, v0, s.start);
    var v2 := RowsDo(h, u, v1, from, s.rows, done);
    lines' := v2.lines;
    EndsSequence(h, u, v2);
    DoesBoth(h, u, v0, first, v1, rows, v2);
    DoesBoth(h, u, v0, first + rows, v2, [EndSequence([1])], Start(h, lines'));
  }

  lemma {:induction false} ProgramDoes(h: Header, u: Unit, lines: seq<Line>, program: seq<Sequence>, done: seq<Entry>)
    returns (lines': seq<Line>)
    requires AssemblerOk(h, u) && AllOk(h, u, program) && Recorded(lines, Squeezed(done))
    ensures Does(h, u, Start(h, lines), AllOps(h, u, program), Start(h, lines'))
    ensures Recorded(lines', Squeezed(done + AllEntries(program)))
    decreases |program|
  {
    hide Does, SequenceOps, SequenceOk, Recorded, Squeezed, Start;
    if program == [] {
      lines' := lines;
      DoesNothing(h, u, Start(h, lines));
      assert done + AllEntries(program) == done;
    } else {
      var rows := Entries(program[0].rows);
      assert done + AllEntries(program) == done + rows + AllEntries(program[1..]);
      var mid := SequenceDoes(h, u, lines, program[0], done);
      lines' := ProgramDoes(h, u, mid, program[1..], done + rows);
      var first, rest := SequenceOps(h, u, program[0]), AllOps(h, u, program[1..]);
      DoesBoth(h, u, Start(h, lines), first, Start(h, mid), rest, Start(h, lines'));
    }
  }

  /**
   * Any rows that can be placed are assembled to a program from which exactly those rows are recorded,
   * a row that repeats the one before only once.
   */
  method ReadAssembled(b: Buf, h: Header, u: Unit, ghost program: seq<Sequence>) returns (ok: bool, lines: seq<Line>)
    requires b.Valid() && b.bigEndian == u.bigEndian && AssemblerOk(h, u) && AllOk(h, u, program)
    requires b.Rest() == Assembled(h, u, program)
    modifies b
    ensures b.Valid() && ok && Recorded(lines, Squeezed(AllEntries(program)))
    ensures NoRepeats(AllEntries(program)) ==> Recorded(lines, AllEntries(program))
    ensures b.left == 0 && b.reportedUnderflow == old(b.reportedUnderflow)
  {
    hide WellFormed, Encode, Assembled, AllOps, SequenceOk, Run, Recorded, NoRepeats, Numbered, DefinedUnused,
      Record, Matrix, Squeezed;
    ghost var ops, at := AllOps(h, u, program), b.pos;
    ProgramEncoded(h, u, program);
    NoLines();
    var none: seq<Entry> := [];
    assert none + AllEntries(program) == AllEntries(program);
    ghost var all := ProgramDoes(h, u, [], program, none);
    assert Run(h, u, Start(h, []), ops, at) == Some(Start(h, all));
    if NoRepeats(AllEntries(program)) {
      NothingSqueezed(AllEntries(program));
    }
    ok, lines := ReadLineProgram(b, h, u, ops);
  }

  lemma NoLines()
    ensures Recorded([], Squeezed([]))
  {
  }
}
