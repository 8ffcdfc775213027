/** The line-number state machine of DWARF 4, section 6.2, and the one that the line reader runs. */
module LineMachine {
  import opened Bits
  import opened DwarfBuf
  import opened Leb128
  import opened Wrappers

  /** What the header says; `dirs` and `files` count its directories and file names. */
  datatype Header = Header(minInsnLen: nat, lineBase: int, lineRange: nat, opcodeBase: nat,
                           opcodeLengths: seq<byte>, dirs: nat, files: nat)

  datatype Unit = Unit(addrSize: nat, bigEndian: bool)

  predicate HeaderOk(h: Header) {
    && h.lineRange > 0
    && h.opcodeBase < 256 && h.opcodeBase <= |h.opcodeLengths| + 1
    && h.dirs < 0x1_0000_0000
  }

  /** A file name by where it comes from: a name defined in the program, by its place in the section. */
  datatype File = NoName | FromHeader(index: nat) | Defined(at: nat)

  /** An instruction with its operands as the bytes that encode them. */
  datatype Op =
    | Special(opcode: byte)
    | Copy
    | AdvancePc(n: seq<byte>)
    | AdvanceLine(n: seq<byte>)
    | SetFile(n: seq<byte>)
    | SetColumn(n: seq<byte>)
    | NegateStmt
    | SetBasicBlock
    | ConstAddPc
    | FixedAdvancePc(n: seq<byte>)
    | SetPrologueEnd
    | SetEpilogueBegin
    | SetIsa(n: seq<byte>)
    | UnknownStandard(opcode: byte, operands: seq<seq<byte>>)
    | EndSequence(len: seq<byte>)
    | SetAddress(len: seq<byte>, address: seq<byte>)
    | DefineFile(len: seq<byte>, name: seq<byte>, dir: seq<byte>, time: seq<byte>, size: seq<byte>)
    | SetDiscriminator(len: seq<byte>, n: seq<byte>)
    | UnknownExtended(len: seq<byte>, opcode: byte, data: seq<byte>)

  /** The opcode byte of a standard instruction. */
  function Opcode(op: Op): byte {
    match op
    case Special(opcode) => opcode
    case Copy => 1
    case AdvancePc(_) => 2
    case AdvanceLine(_) => 3
    case SetFile(_) => 4
    case SetColumn(_) => 5
    case NegateStmt => 6
    case SetBasicBlock => 7
    case ConstAddPc => 8
    case FixedAdvancePc(_) => 9
    case SetPrologueEnd => 10
    case SetEpilogueBegin => 11
    case SetIsa(_) => 12
    case UnknownStandard(opcode, _) => opcode
    case _ => 0
  }

  predicate IsExtended(op: Op) {
    op.EndSequence? || op.SetAddress? || op.DefineFile? || op.SetDiscriminator? || op.UnknownExtended?
  }

  function ExtendedOpcode(op: Op): byte
    requires IsExtended(op)
  {
    match op
    case EndSequence(_) => 1
    case SetAddress(_, _) => 2
    case DefineFile(_, _, _, _, _) => 3
    case SetDiscriminator(_, _) => 4
    case UnknownExtended(_, opcode, _) => opcode
  }

  function Concat(parts: seq<seq<byte>>): seq<byte> {
    if parts == [] then [] else parts[0] + Concat(parts[1..])
  }

  /** The operand bytes after the opcode. */
  function Operands(op: Op): seq<byte> {
    match op
    case AdvancePc(n) => n
    case AdvanceLine(n) => n
    case SetFile(n) => n
    case SetColumn(n) => n
    case FixedAdvancePc(n) => n
    case SetIsa(n) => n
    case UnknownStandard(_, operands) => Concat(operands)
    case SetAddress(_, address) => address
    case DefineFile(_, name, dir, time, size) => name + [0] + dir + time + size
    case SetDiscriminator(_, n) => n
    case UnknownExtended(_, _, operands) => operands
    case _ => []
  }

  function EncodeOp(op: Op): (s: seq<byte>)
    ensures |s| > 0
  {
    if IsExtended(op) then [0] + op.len + [ExtendedOpcode(op)] + Operands(op) else [Opcode(op)] + Operands(op)
  }

  /** The standard opcodes of section 7.21 of DWARF 4. */
  lemma StandardOpcodes(n: seq<byte>)
    ensures EncodeOp(Copy) == [1] && EncodeOp(AdvancePc(n)) == [2] + n && EncodeOp(AdvanceLine(n)) == [3] + n
    ensures EncodeOp(SetFile(n)) == [4] + n && EncodeOp(SetColumn(n)) == [5] + n && EncodeOp(NegateStmt) == [6]
    ensures EncodeOp(SetBasicBlock) == [7] && EncodeOp(ConstAddPc) == [8] && EncodeOp(FixedAdvancePc(n)) == [9] + n
    ensures EncodeOp(SetPrologueEnd) == [10] && EncodeOp(SetEpilogueBegin) == [11] && EncodeOp(SetIsa(n)) == [12] + n
  {
  }

  /** The extended opcodes of section 7.21. */
  lemma ExtendedOpcodes(len: seq<byte>, n: seq<byte>)
    ensures EncodeOp(EndSequence(len)) == [0] + len + [1] && EncodeOp(SetAddress(len, n)) == [0] + len + [2] + n
    ensures EncodeOp(SetDiscriminator(len, n)) == [0] + len + [4] + n
    ensures EncodeOp(DefineFile(len, n, [1], [2], [3])) == [0] + len + [3] + (n + [0, 1, 2, 3])
  {
    assert [0] + len + [1] + [] == [0] + len + [1];
    assert n + [0] + [1] + [2] + [3] == n + [0, 1, 2, 3];
  }

  function Encode(ops: seq<Op>): seq<byte> {
    if ops == [] then [] else EncodeOp(ops[0]) + Encode(ops[1..])
  }

  predicate IsNumber(s: seq<byte>) {
    Ends(s, |s|) && Groups(s) < WORD
  }

  /** An instruction that the header and the unit allow, however large its file and directory numbers are. */
  predicate WellFormed(h: Header, u: Unit, op: Op)
    requires HeaderOk(h)
  {
    if IsExtended(op) then
      && h.opcodeBase > 0
      && IsNumber(op.len) && Groups(op.len) == 1 + |Operands(op)|
      && match op
         case SetAddress(_, address) => |address| == u.addrSize && u.addrSize in {1, 2, 4, 8}
         case DefineFile(_, name, dir, time, size) => 0 !in name && IsNumber(dir) && IsNumber(time) && IsNumber(size)
         case SetDiscriminator(_, n) => IsNumber(n)
         case UnknownExtended(_, opcode, _) => opcode == 0 || opcode > 4
         case _ => true
    else if op.Special? then
      op.opcode >= h.opcodeBase
    else
      && Opcode(op) < h.opcodeBase
      && match op
         case AdvanceLine(n) => Ends(n, |n|)
         case FixedAdvancePc(n) => |n| == 2
         case UnknownStandard(opcode, operands) =>
           && opcode > 12 && |operands| == h.opcodeLengths[opcode - 1]
           && forall k :: 0 <= k < |operands| ==> IsNumber(operands[k])
         case AdvancePc(n) => IsNumber(n)
         case SetFile(n) => IsNumber(n)
         case SetColumn(n) => IsNumber(n)
         case SetIsa(n) => IsNumber(n)
         case _ => true
  }

  /** What section 6.2.2 calls a row, as far as it is kept. */
  datatype Row = Row(address: nat, file: File, line: int, endSequence: bool)

  /** The registers; `defined` lists the names that the program has added to those of the header. */
  datatype Registers = Registers(address: nat, file: File, line: int, defined: seq<File>)

  /** File numbers start at 1: the header's names come first, then the program's own. */
  function FileNumber(h: Header, defined: seq<File>, n: nat): Option<File> {
    if n == 0 then Some(NoName)
    else if n - 1 < h.files then Some(FromHeader(n - 1))
    else if n - 1 - h.files < |defined| then Some(defined[n - 1 - h.files])
    else None
  }

  /** The file register starts as 1, which may be the number of no name. */
  function Initial(h: Header, defined: seq<File>): Registers {
    Registers(0, FileNumber(h, [], 1).UnwrapOr(NoName), 1, defined)
  }

  /** Where the name that starts an instruction's operands is, for an instruction at `at`. */
  function NameAt(op: Op, at: nat): nat
    requires IsExtended(op)
  {
    at + 2 + |op.len|
  }

  /** The registers after one instruction, by sections 6.2.5.1 to 6.2.5.3. */
  function Next(h: Header, u: Unit, r: Registers, op: Op, at: nat): Registers
    requires h.lineRange > 0
  {
    match op
    case Special(opcode) =>
      var n: int := opcode - h.opcodeBase;
      if n < 0 then r
      else
        DivNonNeg(n, h.lineRange);
        r.(address := (r.address + h.minInsnLen * (n / h.lineRange)) % WORD, line := r.line + h.lineBase + n % h.lineRange)
    case AdvancePc(n) => r.(address := (r.address + h.minInsnLen * Groups(n)) % WORD)
    case AdvanceLine(n) => r.(line := r.line + Signed(n))
    case SetFile(n) => r.(file := FileNumber(h, r.defined, Groups(n)).UnwrapOr(r.file))
    case ConstAddPc =>
      if h.opcodeBase > 255 then r
      else
        DivNonNeg(255 - h.opcodeBase, h.lineRange);
        r.(address := (r.address + h.minInsnLen * ((255 - h.opcodeBase) / h.lineRange)) % WORD)
    case FixedAdvancePc(n) => r.(address := (r.address + FromBytes(n, u.bigEndian)) % WORD)
    case EndSequence(_) => Initial(h, r.defined)
    case SetAddress(_, address) => r.(address := FromBytes(address, u.bigEndian))
    case DefineFile(_, _, _, _, _) => r.(defined := r.defined + [Defined(NameAt(op, at))])
    case _ => r
  }

  /** The rows that an instruction appends: special and copy one of the new registers, the end of a sequence one. */
  function Emitted(r: Registers, after: Registers, op: Op): seq<Row> {
    match op
    case Special(_) => [Row(after.address, after.file, after.line, false)]
    case Copy => [Row(after.address, after.file, after.line, false)]
    case EndSequence(_) => [Row(r.address, r.file, r.line, true)]
    case _ => []
  }

  /** All rows of a program whose encoding starts at `at`. */
  function Matrix(h: Header, u: Unit, r: Registers, ops: seq<Op>, at: nat): seq<Row>
    requires h.lineRange > 0
    decreases |ops|
  {
    if ops == [] then []
    else
      var after := Next(h, u, r, ops[0], at);
      Emitted(r, after, ops[0]) + Matrix(h, u, after, ops[1..], at + |EncodeOp(ops[0])|)
  }

  /** File and directory numbers that exist when they are used. */
  predicate Numbered(h: Header, defined: nat, ops: seq<Op>)
    decreases |ops|
  {
    ops == [] ||
      match ops[0]
      case SetFile(n) => Groups(n) <= h.files + defined && Numbered(h, defined, ops[1..])
      case DefineFile(_, name, dir, _, _) =>
        (IsAbsolute(name) || Groups(dir) <= h.dirs) && Numbered(h, defined + 1, ops[1..])
      case _ => Numbered(h, defined, ops[1..])
  }

  predicate IsAbsolute(name: seq<byte>) {
    name != [] && name[0] == 0x2f
  }

  /** A recorded line. */
  datatype Line = Line(pc: nat, file: File, lineno: int, idx: nat)

  /** The `int` that has the same low 32 bits. */
  function ToInt32(x: int): (r: int)
    ensures -0x8000_0000 <= r <= 0x7fff_ffff && (x - r) % 0x1_0000_0000 == 0
  {
    (x + 0x8000_0000) % 0x1_0000_0000 - 0x8000_0000
  }

  /** `add_line`: a row that is the same as the last one recorded is not recorded again. */
  function AddLine(lines: seq<Line>, pc: nat, file: File, lineno: int): seq<Line> {
    if lines != [] && lines[|lines| - 1].pc == pc && lines[|lines| - 1].file == file && lines[|lines| - 1].lineno == lineno
    then lines
    else lines + [Line(pc, file, lineno, |lines|)]
  }

  /** The lines for a matrix: not the ends of sequences, and no row that repeats the one before. */
  function Record(lines: seq<Line>, rows: seq<Row>): seq<Line>
    decreases |rows|
  {
    if rows == [] then lines
    else if rows[0].endSequence then Record(lines, rows[1..])
    else Record(AddLine(lines, rows[0].address, rows[0].file, ToInt32(rows[0].line)), rows[1..])
  }

  /** The variables of the reader. */
  datatype Vm = Vm(address: nat, file: File, lineno: int, lines: seq<Line>)

  function FirstFile(h: Header): File {
    if h.files > 0 then FromHeader(0) else NoName
  }

  function Advanced(h: Header, address: nat, n: nat): nat {
    (address + h.minInsnLen * n) % WORD
  }

  function Start(h: Header, lines: seq<Line>): Vm {
    Vm(0, FirstFile(h), 1, lines)
  }

  function Add(vm: Vm): Vm {
    vm.(lines := AddLine(vm.lines, vm.address, vm.file, vm.lineno))
  }

  /** What the reader does for one instruction; it gives up on a file or directory it does not know. */
  function Step(h: Header, u: Unit, vm: Vm, op: Op, at: nat): Option<Vm>
    requires h.lineRange > 0
  {
    match op
    case Special(opcode) =>
      var n: int := opcode - h.opcodeBase;
      if n < 0 then None
      else
        DivNonNeg(n, h.lineRange);
        Some(Add(vm.(address := Advanced(h, vm.address, n / h.lineRange),
                     lineno := ToInt32(vm.lineno + h.lineBase + n % h.lineRange))))
    case Copy => Some(Add(vm))
    case AdvancePc(n) => Some(vm.(address := Advanced(h, vm.address, Groups(n))))
    case AdvanceLine(n) => Some(vm.(lineno := ToInt32(vm.lineno + Signed(n))))
    case SetFile(n) =>
      if Groups(n) == 0 then Some(vm.(file := NoName))
      else if Groups(n) - 1 >= h.files then None
      else Some(vm.(file := FromHeader(Groups(n) - 1)))
    case ConstAddPc =>
      if h.opcodeBase > 255 then None
      else
        DivNonNeg(255 - h.opcodeBase, h.lineRange);
        Some(vm.(address := Advanced(h, vm.address, (255 - h.opcodeBase) / h.lineRange)))
    case FixedAdvancePc(n) => Some(vm.(address := (vm.address + FromBytes(n, u.bigEndian)) % WORD))
    case EndSequence(_) => Some(Start(h, vm.lines))
    case SetAddress(_, address) => Some(vm.(address := FromBytes(address, u.bigEndian)))
    case DefineFile(_, name, dir, _, _) =>
      if IsAbsolute(name) || Groups(dir) % 0x1_0000_0000 <= h.dirs then Some(vm.(file := Defined(NameAt(op, at)))) else None
    case _ => Some(vm)
  }

  function Run(h: Header, u: Unit, vm: Vm, ops: seq<Op>, at: nat): Option<Vm>
    requires h.lineRange > 0
    decreases |ops|
  {
    if ops == [] then Some(vm)
    else match Step(h, u, vm, ops[0], at)
      case None => None
      case Some(after) => Run(h, u, after, ops[1..], at + |EncodeOp(ops[0])|)
  }

  /** The reader records exactly the rows of the state machine. */
  predicate Meets(h: Header, u: Unit, ops: seq<Op>, at: nat)
    requires h.lineRange > 0
  {
    match Run(h, u, Start(h, []), ops, at)
    case None => false
    case Some(vm) => vm.lines == Record([], Matrix(h, u, Initial(h, []), ops, at))
  }

  /**
   * No name that the program defines is used: file numbers are the header's, and between the definition of a
   * name and the next row comes a `set_file` or the end of the sequence. `pending` is set by a definition.
   */
  predicate DefinedUnused(h: Header, pending: bool, ops: seq<Op>)
    decreases |ops|
  {
    ops == [] ||
      match ops[0]
      case DefineFile(_, _, _, _, _) => DefinedUnused(h, true, ops[1..])
      case SetFile(n) => Groups(n) <= h.files && DefinedUnused(h, false, ops[1..])
      case EndSequence(_) => DefinedUnused(h, false, ops[1..])
      case Special(_) => !pending && DefinedUnused(h, pending, ops[1..])
      case Copy => !pending && DefinedUnused(h, pending, ops[1..])
      case _ => DefinedUnused(h, pending, ops[1..])
  }

  predicate AllWellFormed(h: Header, u: Unit, ops: seq<Op>)
    requires HeaderOk(h)
  {
    forall k :: 0 <= k < |ops| ==> WellFormed(h, u, ops[k])
  }

  lemma Int32Add(x: int, y: int)
    ensures ToInt32(ToInt32(x) + y) == ToInt32(x + y)
  {
  }

  /** The reader's variables agree with the registers, but for the file while a definition is pending. */
  predicate Agrees(vm: Vm, r: Registers, pending: bool) {
    vm.address == r.address && vm.lineno == ToInt32(r.line) && (pending || vm.file == r.file)
  }

  predicate Defines(op: Op, pending: bool) {
    if op.DefineFile? then true else if op.SetFile? || op.EndSequence? then false else pending
  }

  lemma RecordAppend(lines: seq<Line>, a: seq<Row>, b: seq<Row>)
    requires |a| <= 1
    ensures Record(lines, a + b) == Record(Record(lines, a), b)
  {
    if |a| == 1 {
      assert (a + b)[1..] == b && a[1..] == [];
    } else {
      assert a + b == b;
    }
  }

  lemma RecordNone(lines: seq<Line>)
    ensures Record(lines, []) == lines
  {
  }

  lemma EmittedAtMostOne(r: Registers, after: Registers, op: Op)
    ensures |Emitted(r, after, op)| <= 1
  {
  }

  /** After one instruction the two machines still agree, and the reader has recorded the rows for it. */
  ghost predicate AgreesAfter(h: Header, u: Unit, vm: Vm, r: Registers, op: Op, at: nat, pending: bool)
    requires h.lineRange > 0
  {
    var after := Next(h, u, r, op, at);
    match Step(h, u, vm, op, at)
    case None => false
    case Some(vm') => Agrees(vm', after, Defines(op, pending)) && vm'.lines == Record(vm.lines, Emitted(r, after, op))
  }

  lemma RecordOne(lines: seq<Line>, row: Row)
    ensures Record(lines, [row]) ==
      if row.endSequence then lines else AddLine(lines, row.address, row.file, ToInt32(row.line))
  {
    assert [row][1..] == [];
  }

  lemma SpecialAgrees(h: Header, u: Unit, vm: Vm, r: Registers, op: Op, at: nat, pending: bool)
    requires HeaderOk(h) && op.Special? && op.opcode >= h.opcodeBase && Agrees(vm, r, false)
    ensures AgreesAfter(h, u, vm, r, op, at, pending)
  {
    hide ToInt32, AddLine, Record;
    var after := Next(h, u, r, op, at);
    Int32Add(r.line, h.lineBase + (op.opcode - h.opcodeBase) % h.lineRange);
    RecordOne(vm.lines, Row(after.address, after.file, after.line, false));
  }

  lemma RowAgrees(h: Header, u: Unit, vm: Vm, r: Registers, op: Op, at: nat, pending: bool)
    requires HeaderOk(h) && (op.Copy? || op.EndSequence?) && Agrees(vm, r, pending) && (op.Copy? ==> !pending)
    ensures AgreesAfter(h, u, vm, r, op, at, pending)
  {
    hide AddLine, Record;
    RecordOne(vm.lines, Row(r.address, r.file, r.line, op.EndSequence?));
  }

  lemma FileAgrees(h: Header, u: Unit, vm: Vm, r: Registers, op: Op, at: nat, pending: bool)
    requires HeaderOk(h) && (op.SetFile? || op.DefineFile?) && Agrees(vm, r, pending)
    requires op.SetFile? ==> Groups(op.n) <= h.files
    requires op.DefineFile? ==> IsAbsolute(op.name) || Groups(op.dir) <= h.dirs
    ensures AgreesAfter(h, u, vm, r, op, at, pending)
  {
    hide Groups, ToInt32, IsAbsolute;
    RecordNone(vm.lines);
    if op.DefineFile? && Groups(op.dir) <= h.dirs {
      SmallNumber(Groups(op.dir));
    }
  }

  lemma SmallNumber(n: nat)
    requires n < 0x1_0000_0000
    ensures n % 0x1_0000_0000 == n
  {
  }

  lemma QuietAgrees(h: Header, u: Unit, vm: Vm, r: Registers, op: Op, at: nat, pending: bool)
    requires HeaderOk(h) && Agrees(vm, r, pending)
    requires !op.Special? && !op.Copy? && !op.EndSequence? && !op.SetFile? && !op.DefineFile?
    ensures AgreesAfter(h, u, vm, r, op, at, pending)
  {
    hide Groups, Signed, FromBytes, ToInt32;
    RecordNone(vm.lines);
    if op.AdvanceLine? {
      Int32Add(r.line, Signed(op.n));
    }
  }

  lemma StepAgrees(h: Header, u: Unit, vm: Vm, r: Registers, op: Op, at: nat, pending: bool)
    requires HeaderOk(h) && WellFormed(h, u, op) && Agrees(vm, r, pending)
    requires DefinedUnused(h, pending, [op]) && Numbered(h, |r.defined|, [op])
    ensures AgreesAfter(h, u, vm, r, op, at, pending)
  {
    hide AgreesAfter, Groups, Ends, Operands;
    assert [op][1..] == [];
    match op
    case Special(_) => SpecialAgrees(h, u, vm, r, op, at, pending);
    case Copy => RowAgrees(h, u, vm, r, op, at, pending);
    case EndSequence(_) => RowAgrees(h, u, vm, r, op, at, pending);
    case SetFile(_) => FileAgrees(h, u, vm, r, op, at, pending);
    case DefineFile(_, _, _, _, _) => FileAgrees(h, u, vm, r, op, at, pending);
    case _ => QuietAgrees(h, u, vm, r, op, at, pending);
  }

  lemma ConditionsStep(h: Header, u: Unit, r: Registers, ops: seq<Op>, at: nat, pending: bool)
    requires h.lineRange > 0 && ops != [] && DefinedUnused(h, pending, ops) && Numbered(h, |r.defined|, ops)
    ensures DefinedUnused(h, pending, [ops[0]]) && DefinedUnused(h, Defines(ops[0], pending), ops[1..])
    ensures Numbered(h, |r.defined|, [ops[0]]) && Numbered(h, |Next(h, u, r, ops[0], at).defined|, ops[1..])
  {
    assert [ops[0]][1..] == [];
  }

  lemma {:induction false} RunAgrees(h: Header, u: Unit, vm: Vm, r: Registers, ops: seq<Op>, at: nat, pending: bool)
    requires HeaderOk(h) && AllWellFormed(h, u, ops) && Agrees(vm, r, pending)
    requires DefinedUnused(h, pending, ops) && Numbered(h, |r.defined|, ops)
    ensures match Run(h, u, vm, ops, at)
            case None => false
            case Some(end) => end.lines == Record(vm.lines, Matrix(h, u, r, ops, at))
    decreases |ops|
  {
    hide DefinedUnused, Numbered, Step, Next, Emitted, Record, Agrees, Defines, WellFormed, EncodeOp;
    RecordNone(vm.lines);
    if ops != [] {
      var op := ops[0];
      ConditionsStep(h, u, r, ops, at, pending);
      EmittedAtMostOne(r, Next(h, u, r, op, at), op);
      StepAgrees(h, u, vm, r, op, at, pending);
      var after := Next(h, u, r, op, at);
      var end: nat := at + |EncodeOp(op)|;
      RunAgrees(h, u, Step(h, u, vm, op, at).value, after, ops[1..], end, Defines(op, pending));
      RecordAppend(vm.lines, Emitted(r, after, op), Matrix(h, u, after, ops[1..], end));
    }
  }

  predicate HasDefined(lines: seq<Line>) {
    exists k :: 0 <= k < |lines| && lines[k].file.Defined?
  }

  /** What is recorded stays, and a file number beyond the header's stops the reader. */
  lemma {:induction false} RunKeeps(h: Header, u: Unit, vm: Vm, ops: seq<Op>, at: nat)
    requires HeaderOk(h) && Run(h, u, vm, ops, at).Some? && HasDefined(vm.lines)
    ensures HasDefined(Run(h, u, vm, ops, at).value.lines)
    decreases |ops|
  {
    if ops != [] {
      var after := Step(h, u, vm, ops[0], at).value;
      var k :| 0 <= k < |vm.lines| && vm.lines[k].file.Defined?;
      assert after.lines[k] == vm.lines[k];
      RunKeeps(h, u, after, ops[1..], at + |EncodeOp(ops[0])|);
    }
  }

  predicate HeaderFiles(h: Header, ops: seq<Op>) {
    forall k :: 0 <= k < |ops| && ops[k].SetFile? ==> Groups(ops[k].n) <= h.files
  }

  lemma {:induction false} RunHeaderFiles(h: Header, u: Unit, vm: Vm, ops: seq<Op>, at: nat)
    requires HeaderOk(h) && Run(h, u, vm, ops, at).Some?
    ensures HeaderFiles(h, ops)
    decreases |ops|
  {
    if ops != [] {
      RunHeaderFiles(h, u, Step(h, u, vm, ops[0], at).value, ops[1..], at + |EncodeOp(ops[0])|);
      assert forall k :: 0 < k < |ops| ==> ops[k] == ops[1..][k - 1];
    }
  }

  /** A program that uses a name it defines is not read, or some recorded line has such a name. */
  lemma {:induction false} UsedIsRecorded(h: Header, u: Unit, vm: Vm, ops: seq<Op>, at: nat, pending: bool)
    requires HeaderOk(h) && !DefinedUnused(h, pending, ops) && (pending ==> vm.file.Defined?)
    requires Run(h, u, vm, ops, at).Some?
    ensures HasDefined(Run(h, u, vm, ops, at).value.lines)
    decreases |ops|
  {
    var op := ops[0];
    var after := Step(h, u, vm, op, at).value;
    var end: nat := at + |EncodeOp(op)|;
    if (op.Special? || op.Copy?) && pending {
      var k: nat := |after.lines| - 1;
      assert after.lines[k].file.Defined?;
      RunKeeps(h, u, after, ops[1..], end);
    } else {
      UsedIsRecorded(h, u, after, ops[1..], end, Defines(op, pending));
    }
  }

  lemma HeaderFilesKept(h: Header, u: Unit, r: Registers, op: Op, at: nat, lines: seq<Line>)
    requires HeaderOk(h) && (op.SetFile? ==> Groups(op.n) <= h.files) && !r.file.Defined? && !HasDefined(lines)
    ensures var after := Next(h, u, r, op, at);
            !after.file.Defined? && !HasDefined(Record(lines, Emitted(r, after, op)))
  {
    hide Groups, Signed, FromBytes, ToInt32, Record;
    var after := Next(h, u, r, op, at);
    var rows := Emitted(r, after, op);
    RecordNone(lines);
    if |rows| == 1 {
      RecordOne(lines, rows[0]);
    }
  }

  /** The state machine gives rows with a defined name only after a `set_file` to one. */
  lemma {:induction false} MatrixOfHeaderFiles(h: Header, u: Unit, r: Registers, ops: seq<Op>, at: nat, lines: seq<Line>)
    requires HeaderOk(h) && HeaderFiles(h, ops) && !r.file.Defined? && !HasDefined(lines)
    ensures !HasDefined(Record(lines, Matrix(h, u, r, ops, at)))
    decreases |ops|
  {
    hide Next, Emitted, Record, HasDefined, Groups, EncodeOp;
    if ops == [] {
      RecordNone(lines);
    } else {
      var op := ops[0];
      var after := Next(h, u, r, op, at);
      var end: nat := at + |EncodeOp(op)|;
      var rows := Emitted(r, after, op);
      EmittedAtMostOne(r, after, op);
      HeaderFilesKept(h, u, r, op, at, lines);
      assert forall k :: 0 <= k < |ops[1..]| ==> ops[1..][k] == ops[k + 1];
      MatrixOfHeaderFiles(h, u, after, ops[1..], end, Record(lines, rows));
      RecordAppend(lines, rows, Matrix(h, u, after, ops[1..], end));
    }
  }

  /**
   * The reader records the rows of the state machine, without the ends of sequences and without repeated
   * rows, if and only if the program uses no file name of its own: `define_file` should only add a name
   * to the table, but the reader makes it the current file and does not number it.
   */
  lemma RefinesIff(h: Header, u: Unit, ops: seq<Op>, at: nat)
    requires HeaderOk(h) && AllWellFormed(h, u, ops) && Numbered(h, 0, ops)
    ensures Meets(h, u, ops, at) <==> DefinedUnused(h, false, ops)
  {
    var vm, r := Start(h, []), Initial(h, []);
    if DefinedUnused(h, false, ops) {
      RunAgrees(h, u, vm, r, ops, at, false);
    } else if Run(h, u, vm, ops, at).Some? {
      UsedIsRecorded(h, u, vm, ops, at, false);
      RunHeaderFiles(h, u, vm, ops, at);
      MatrixOfHeaderFiles(h, u, r, ops, at, []);
    }
  }

  /** A header with one file, the standard opcodes and nothing else of note. */
  function OneFile(): Header {
    Header(1, -5, 14, 13, [0, 1, 1, 1, 1, 0, 0, 0, 1, 0, 0, 1], 0, 1)
  }

  /** Defines the name "/" and then appends a row. */
  function DefineThenCopy(): seq<Op> {
    [DefineFile([6], [0x2f], [0], [0], [0]), Copy]
  }

  /** A program that the two machines disagree about: the row is in the header's file, the recorded line in "/". */
  lemma DefinedNameRecorded(u: Unit, at: nat)
    ensures var h, ops := OneFile(), DefineThenCopy();
            && HeaderOk(h) && AllWellFormed(h, u, ops) && Numbered(h, 0, ops) && !Meets(h, u, ops, at)
            && Matrix(h, u, Initial(h, []), ops, at) == [Row(0, FromHeader(0), 1, false)]
            && Run(h, u, Start(h, []), ops, at) == Some(Vm(0, Defined(at + 3), 1, [Line(0, Defined(at + 3), 1, 0)]))
  {
    var h, ops := OneFile(), DefineThenCopy();
    assert ops[1..] == [Copy] && ops[1..][1..] == [];
    assert Operands(ops[0]) == [0x2f, 0, 0, 0, 0];
    assert IsNumber([6]) && Groups([6]) == 6 && IsNumber([0]) && Groups([0]) == 0;
    assert !DefinedUnused(h, false, ops);
    RefinesIff(h, u, ops, at);
    var end: nat := at + |EncodeOp(ops[0])|;
    var vm := Vm(0, Defined(at + 3), 1, []);
    assert Step(h, u, Start(h, []), ops[0], at) == Some(vm);
    assert Add(vm) == Vm(0, Defined(at + 3), 1, [Line(0, Defined(at + 3), 1, 0)]);
    assert Run(h, u, Add(vm), [], end + |EncodeOp(Copy)|) == Some(Add(vm));
    assert Run(h, u, vm, ops[1..], end) == Some(Add(vm));
    var r := Next(h, u, Initial(h, []), ops[0], at);
    assert Matrix(h, u, r, ops[1..], end) == [Row(0, FromHeader(0), 1, false)] + Matrix(h, u, r, [], end + |EncodeOp(Copy)|);
  }
}
