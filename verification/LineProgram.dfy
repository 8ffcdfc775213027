/** The reader of a line-number program, over any bytes. */
module LineProgram {
  import opened Bits
  import opened DwarfBuf
  import opened Leb128
  import opened LineMachine
  import opened Wrappers

  /** The next bytes are `operands`, and `tail` is behind them. */
  ghost predicate Ahead(b: Buf, operands: seq<byte>, tail: seq<byte>)
    requires b.Valid()
    reads b
  {
    b.Rest() == operands + tail
  }

  /** Just what was expected has been read: `tail` is ahead, at `end`, and nothing was missing. */
  ghost predicate Took(b: Buf, tail: seq<byte>, end: nat, underflow: bool)
    requires b.Valid()
    reads b
  {
    b.Rest() == tail && b.pos == end && b.reportedUnderflow == underflow
  }

  /** An unsigned number: if it is the one expected, what is read and what is left are known. */
  method ReadNumber(b: Buf, ghost n: seq<byte>, ghost tail: seq<byte>) returns (v: nat)
    requires b.Valid()
    modifies b
    ensures b.Valid() && b.left <= old(b.left)
    ensures old(Ahead(b, n, tail)) && Ends(n, |n|) ==>
      v == Groups(n) % WORD && Took(b, tail, old(b.pos) + |n|, old(b.reportedUnderflow))
  {
    hide Groups;
    ghost var s := b.Rest();
    if s == n + tail && Ends(n, |n|) {
      EndsInFront(n, tail);
    }
    ghost var left := b.left;
    v := ReadUleb(b);
  }

  /** The outcome is the one that the reader's step for `op` has. */
  ghost predicate Did(h: Header, u: Unit, vm: Vm, op: Op, at: nat, ok: bool, after: Vm)
    requires h.lineRange > 0
  {
    match Step(h, u, vm, op, at)
    case None => !ok
    case Some(next) => ok && after == next
  }

  /** `strnlen` on what is left. */
  method NameLength(b: Buf) returns (n: nat)
    requires b.Valid()
    ensures n <= b.left && 0 !in b.Rest()[..n] && (n < b.left ==> b.Rest()[n] == 0)
  {
    n := 0;
    while n < b.left && b.data[b.pos + n] != 0
      invariant n <= b.left && 0 !in b.Rest()[..n]
    {
      assert b.Rest()[..n + 1] == b.Rest()[..n] + [b.data[b.pos + n]];
      n := n + 1;
    }
  }

  lemma NameEnds(s: seq<byte>, name: seq<byte>, tail: seq<byte>, n: nat)
    requires s == name + [0] + tail && 0 !in name
    requires n <= |s| && 0 !in s[..n] && (n < |s| ==> s[n] == 0)
    ensures n == |name| && s[..n] == name && s[n + 1..] == tail
  {
    assert s[|name|] == 0;
    assert forall k :: 0 <= k < |name| ==> s[k] == name[k] && name[k] != 0;
    assert forall k :: 0 <= k < n ==> s[k] == s[..n][k] && s[k] != 0;
  }

  /** Three numbers, of which only the first matters. */
  method ReadThree(b: Buf, ghost first: seq<byte>, ghost second: seq<byte>, ghost third: seq<byte>, ghost tail: seq<byte>)
    returns (v: nat)
    requires b.Valid()
    modifies b
    ensures b.Valid() && b.left <= old(b.left)
    ensures old(Ahead(b, first, second + (third + tail))) && IsNumber(first) && IsNumber(second) && IsNumber(third) ==>
      v == Groups(first) && Took(b, tail, old(b.pos) + |first| + |second| + |third|, old(b.reportedUnderflow))
  {
    hide Groups, Ends;
    v := ReadNumber(b, first, second + (third + tail));
    var _ := ReadNumber(b, second, third + tail);
    var _ := ReadNumber(b, third, tail);
  }

  lemma DefineFileStep(h: Header, u: Unit, vm: Vm, op: Op, at: nat)
    requires HeaderOk(h) && WellFormed(h, u, op) && op.DefineFile?
    ensures 0 !in op.name && IsNumber(op.dir) && IsNumber(op.time) && IsNumber(op.size)
    ensures Operands(op) == op.name + [0] + op.dir + op.time + op.size
    ensures Step(h, u, vm, op, at) ==
      if IsAbsolute(op.name) || Groups(op.dir) % 0x1_0000_0000 <= h.dirs then Some(vm.(file := Defined(NameAt(op, at)))) else None
  {
  }

  /** A name and the 0 behind it. */
  method TakeName(b: Buf, ghost expected: seq<byte>, ghost tail: seq<byte>) returns (ok: bool, name: seq<byte>)
    requires b.Valid()
    modifies b
    ensures b.Valid() && b.left <= old(b.left)
    ensures old(Ahead(b, expected + [0], tail)) && 0 !in expected ==>
      ok && name == expected && Took(b, tail, old(b.pos) + |expected| + 1, old(b.reportedUnderflow))
  {
    ghost var s := b.Rest();
    var f := b.pos;
    var n := NameLength(b);
    if s == expected + [0] + tail && 0 !in expected {
      NameEnds(s, expected, tail, n);
    }
    name := b.data[f..f + n];
    assert name == s[..n];
    ok := b.Advance(n + 1);
  }

  /** The operands of `define_file`: a name, its directory, and two numbers that are not used. */
  method DefineFileOp(b: Buf, h: Header, u: Unit, vm: Vm, ghost op: Op, ghost at: nat, ghost tail: seq<byte>)
    returns (ok: bool, after: Vm)
    requires b.Valid() && HeaderOk(h)
    modifies b
    ensures b.Valid() && b.left <= old(b.left)
    ensures WellFormed(h, u, op) && op.DefineFile? && old(b.pos) == NameAt(op, at) && old(Ahead(b, Operands(op), tail)) ==>
      && Did(h, u, vm, op, at, ok, after)
      && Took(b, tail, NameAt(op, at) + |Operands(op)|, old(b.reportedUnderflow))
  {
    hide Groups, Ends, WellFormed, Operands, Step, EncodeOp, Opcode, ExtendedOpcode;
    ghost var expected := WellFormed(h, u, op) && op.DefineFile? && b.pos == NameAt(op, at) && Ahead(b, Operands(op), tail);
    ghost var name: seq<byte>, dir: seq<byte>, time: seq<byte>, size: seq<byte> := [], [], [], [];
    var f := b.pos;
    if expected {
      name, dir, time, size := op.name, op.dir, op.time, op.size;
      DefineFileStep(h, u, vm, op, at);
      assert Operands(op) + tail == name + [0] + (dir + (time + (size + tail)));
    }
    after := vm;
    var filename;
    ok, filename := TakeName(b, name, dir + (time + (size + tail)));
    if !ok {
      return;
    }
    var absolute := filename != [] && filename[0] == 0x2f;
    var dirIndex := ReadThree(b, dir, time, size, tail);
    dirIndex := dirIndex % 0x1_0000_0000;
    if !absolute && dirIndex != 0 && dirIndex - 1 >= h.dirs {
      b.Report(BadDirectory);
      return false, vm;
    }
    after := vm.(file := Defined(f));
  }

  /** An extended instruction whose length and opcode have been read. */
  method ExtendedOperands(b: Buf, h: Header, u: Unit, vm: Vm, len: nat, opcode: byte,
                          ghost op: Op, ghost at: nat, ghost tail: seq<byte>)
    returns (ok: bool, after: Vm)
    requires b.Valid() && HeaderOk(h)
    modifies b
    ensures b.Valid() && b.left <= old(b.left)
    ensures b.bigEndian == u.bigEndian && OperandsExpected(h, u, op, at, len, opcode, old(b.pos), old(b.Rest()), tail) ==>
      Performed(b, h, u, vm, op, at, tail, ok, after, old(b.reportedUnderflow))
  {
    hide Groups, Ends, WellFormed, FromBytes, Step, Operands, EncodeOp, ExtendedOpcode, NameAt, Opcode;
    ghost var expected := OperandsExpected(h, u, op, at, len, opcode, b.pos, b.Rest(), tail);
    ghost var operands: seq<byte> := [];
    if expected {
      operands := Operands(op);
      ExtendedFacts(h, u, op, at);
      ExtendedSteps(h, u, vm, op, at);
      assert b.Rest()[..|operands|] == operands && b.Rest()[|operands|..] == tail;
    }
    ok := true;
    after := vm;
    if opcode == 1 {
      after := Start(h, vm.lines);
    } else if opcode == 2 {
      var address := b.ReadAddress(u.addrSize);
      after := vm.(address := address);
    } else if opcode == 3 {
      ok, after := DefineFileOp(b, h, u, vm, op, at, tail);
    } else if opcode == 4 {
      var _ := ReadNumber(b, operands, tail);
    } else {
      ok := b.Advance(if len == 0 then WORD - 1 else len - 1);
    }
  }

  /** An extended instruction: its length, its opcode and its operands. */
  method ExtendedOp(b: Buf, h: Header, u: Unit, vm: Vm, ghost op: Op, ghost at: nat, ghost tail: seq<byte>)
    returns (ok: bool, after: Vm)
    requires b.Valid() && HeaderOk(h)
    modifies b
    ensures b.Valid() && b.left <= old(b.left)
    ensures b.bigEndian == u.bigEndian && Expected(h, u, op, at, old(b.pos), old(b.Rest()), tail) && IsExtended(op) ==>
      Performed(b, h, u, vm, op, at, tail, ok, after, old(b.reportedUnderflow))
  {
    hide Groups, Ends, WellFormed, FromBytes, Step, Operands, EncodeOp, ExtendedOpcode, NameAt, Opcode, Performed;
    ghost var length: seq<byte>, c: byte, behind: seq<byte> := [], 0, [];
    if Expected(h, u, op, at, b.pos, b.Rest(), tail) && IsExtended(op) {
      ExtendedFacts(h, u, op, at);
      length, c, behind := op.len, ExtendedOpcode(op), Operands(op) + tail;
      assert b.Rest() == length + ([c] + behind);
    }
    var len, opcode := ReadLengthAndOpcode(b, length, c, behind);
    ok, after := ExtendedOperands(b, h, u, vm, len, opcode, op, at, tail);
  }

  method ReadLengthAndOpcode(b: Buf, ghost length: seq<byte>, ghost c: byte, ghost tail: seq<byte>)
    returns (len: nat, opcode: byte)
    requires b.Valid()
    modifies b
    ensures b.Valid() && b.left <= old(b.left)
    ensures old(Ahead(b, length, [c] + tail)) && IsNumber(length) ==>
      len == Groups(length) && opcode == c && Took(b, tail, old(b.pos) + |length| + 1, old(b.reportedUnderflow))
  {
    hide Groups, Ends;
    len := ReadNumber(b, length, [c] + tail);
    opcode := b.ReadByte();
  }

  /** What is ahead of the reader behind the opcode of an extended instruction. */
  ghost predicate OperandsExpected(h: Header, u: Unit, op: Op, at: nat, len: nat, opcode: byte,
                                   pos: nat, rest: seq<byte>, tail: seq<byte>)
    requires HeaderOk(h)
  {
    && WellFormed(h, u, op) && IsExtended(op) && opcode == ExtendedOpcode(op) && len == Groups(op.len)
    && pos == at + 2 + |op.len| && rest == Operands(op) + tail
  }

  /** What is ahead of the reader, just behind the first byte of an instruction at `at`. */
  ghost predicate Expected(h: Header, u: Unit, op: Op, at: nat, pos: nat, rest: seq<byte>, tail: seq<byte>)
    requires HeaderOk(h)
  {
    WellFormed(h, u, op) && pos == at + 1 && rest == EncodeOp(op)[1..] + tail
  }

  /** The reader's step for the instruction has been taken, and unless it gave up it is behind the instruction. */
  ghost predicate Performed(b: Buf, h: Header, u: Unit, vm: Vm, op: Op, at: nat, tail: seq<byte>,
                            ok: bool, after: Vm, underflow: bool)
    requires b.Valid() && h.lineRange > 0
    reads b
  {
    && Did(h, u, vm, op, at, ok, after)
    && (ok ==> b.Rest() == tail && b.pos == at + |EncodeOp(op)|)
    && b.reportedUnderflow == underflow
  }

  lemma Performs(b: Buf, h: Header, u: Unit, vm: Vm, op: Op, at: nat, tail: seq<byte>,
                 ok: bool, after: Vm, underflow: bool)
    requires b.Valid() && h.lineRange > 0 && Did(h, u, vm, op, at, ok, after)
    requires (ok ==> b.Rest() == tail && b.pos == at + |EncodeOp(op)|) && b.reportedUnderflow == underflow
    ensures Performed(b, h, u, vm, op, at, tail, ok, after, underflow)
  {
  }

  lemma ExtendedBytes(op: Op, at: nat)
    requires IsExtended(op)
    ensures EncodeOp(op)[1..] == op.len + [ExtendedOpcode(op)] + Operands(op)
    ensures NameAt(op, at) == at + 2 + |op.len|
    ensures |EncodeOp(op)| == 2 + |op.len| + |Operands(op)|
  {
    hide Operands, ExtendedOpcode;
    var code, rest := [ExtendedOpcode(op)], Operands(op);
    assert EncodeOp(op) == [0] + op.len + code + rest;
    assert ([0] + op.len + code + rest)[1..] == op.len + code + rest;
  }

  lemma ExtendedFacts(h: Header, u: Unit, op: Op, at: nat)
    requires HeaderOk(h) && WellFormed(h, u, op) && IsExtended(op)
    ensures Ends(op.len, |op.len|) && Groups(op.len) == 1 + |Operands(op)| < WORD
    ensures EncodeOp(op)[1..] == op.len + [ExtendedOpcode(op)] + Operands(op)
    ensures NameAt(op, at) == at + 2 + |op.len|
    ensures |EncodeOp(op)| == 2 + |op.len| + |Operands(op)|
  {
    hide Groups, Ends, Operands, EncodeOp, ExtendedOpcode;
    ExtendedBytes(op, at);
  }

  /** What the reader does for each extended opcode. */
  lemma ExtendedSteps(h: Header, u: Unit, vm: Vm, op: Op, at: nat)
    requires HeaderOk(h) && WellFormed(h, u, op) && IsExtended(op)
    ensures var code, next := ExtendedOpcode(op), Step(h, u, vm, op, at);
            && (code == 1 ==> Operands(op) == [] && next == Some(Start(h, vm.lines)))
            && (code == 2 ==> |Operands(op)| == u.addrSize && u.addrSize in {1, 2, 4, 8})
            && (code == 2 ==> next == Some(vm.(address := FromBytes(Operands(op), u.bigEndian))))
            && (code == 3 <==> op.DefineFile?)
            && (code == 4 ==> Ends(Operands(op), |Operands(op)|) && next == Some(vm))
            && (code == 0 || code > 4 ==> next == Some(vm))
  {
    hide FromBytes, Groups, IsAbsolute, Ends;
  }

  /** What is ahead of the reader behind the opcode of a standard instruction. */
  ghost predicate StandardExpected(h: Header, u: Unit, op: Op, at: nat, opcode: byte,
                                   pos: nat, rest: seq<byte>, tail: seq<byte>)
    requires HeaderOk(h)
  {
    && WellFormed(h, u, op) && !IsExtended(op) && !op.Special? && opcode == Opcode(op)
    && pos == at + 1 && rest == Operands(op) + tail
  }

  lemma StandardFacts(h: Header, u: Unit, op: Op)
    requires HeaderOk(h) && WellFormed(h, u, op) && !IsExtended(op)
    ensures EncodeOp(op)[1..] == Operands(op) && |EncodeOp(op)| == 1 + |Operands(op)|
  {
  }

  /** The opcodes of standard instructions that move the address, set the line or the file, or add a row. */
  predicate Changes(opcode: byte) {
    opcode == 1 || opcode == 2 || opcode == 3 || opcode == 4 || opcode == 8 || opcode == 9
  }

  /** The address moves as for the special opcode 255. */
  function AfterConstAdd(h: Header, vm: Vm): Vm
    requires HeaderOk(h)
  {
    DivNonNeg(255 - h.opcodeBase, h.lineRange);
    vm.(address := Advanced(h, vm.address, (255 - h.opcodeBase) / h.lineRange))
  }

  function Moved(vm: Vm, n: nat): Vm {
    vm.(address := (vm.address + n) % WORD)
  }

  lemma StandardSteps(h: Header, u: Unit, vm: Vm, op: Op, at: nat)
    requires HeaderOk(h) && WellFormed(h, u, op) && !IsExtended(op) && !op.Special?
    ensures var code, x, next := Opcode(op), Operands(op), Step(h, u, vm, op, at);
            && (code in {1, 6, 7, 8, 10, 11} ==> x == [])
            && (code in {2, 3, 4, 5, 12} ==> Ends(x, |x|))
            && (code in {2, 4} ==> Groups(x) < WORD)
            && (code == 9 ==> |x| == 2)
            && (code == 1 ==> next == Some(Add(vm)))
            && (code == 2 ==> next == Some(vm.(address := Advanced(h, vm.address, Groups(x)))))
            && (code == 3 ==> next == Some(vm.(lineno := ToInt32(vm.lineno + Signed(x)))))
            && (code == 4 && Groups(x) > h.files ==> next == None)
            && (code == 4 && Groups(x) <= h.files ==>
                  next == Some(vm.(file := if Groups(x) == 0 then NoName else FromHeader(Groups(x) - 1))))
            && (code == 8 ==> next == Some(AfterConstAdd(h, vm)))
            && (code == 9 ==> next == Some(Moved(vm, FromBytes(x, u.bigEndian))))
            && (!Changes(code) ==> next == Some(vm))
            && (code > 12 <==> op.UnknownStandard?)
  {
    hide FromBytes, Groups, Signed, Advanced, AddLine, ToInt32, Ends;
  }

  /** A 64-bit number cut to 32 bits and added to a 32-bit one is the sum cut to 32 bits. */
  lemma CutLine(x: int, y: int)
    ensures ToInt32(x + ToInt32(ToInt64(y % WORD))) == ToInt32(x + y)
  {
    var w := ToInt64(y % WORD);
    CutToInt32(y, w);
    assert ToInt32(w) == ToInt32(y);
    Int32Add(y, x);
  }

  lemma CutToInt32(y: int, w: int)
    requires w == ToInt64(y % WORD)
    ensures ToInt32(w) == ToInt32(y)
  {
    var k := y / WORD + if y % WORD < HALF then 0 else 1;
    assert y == w + k * WORD;
    WholeMultiple(w + 0x8000_0000, k * 0x1_0000_0000);
  }

  lemma WholeMultiple(x: int, m: int)
    ensures (x + m * 0x1_0000_0000) % 0x1_0000_0000 == x % 0x1_0000_0000
  {
  }

  /** Instructions of the header that the reader does not know: `count` numbers to skip. */
  method SkipNumbers(b: Buf, count: nat, ghost operands: seq<seq<byte>>, ghost tail: seq<byte>)
    requires b.Valid()
    modifies b
    ensures b.Valid() && b.left <= old(b.left)
    ensures AllNumbers(operands) && count == |operands| && old(Ahead(b, Concat(operands), tail)) ==>
      Took(b, tail, old(b.pos) + |Concat(operands)|, old(b.reportedUnderflow))
  {
    hide Ends;
    ghost var expected := AllNumbers(operands) && count == |operands| && Ahead(b, Concat(operands), tail);
    ghost var total := |Concat(operands)|;
    ghost var k: nat := 0;
    var i := count;
    assert operands[k..] == operands;
    while i > 0
      invariant b.Valid() && b.left <= old(b.left) && k + i == count
      invariant expected ==> Ahead(b, Concat(operands[k..]), tail)
      invariant expected ==> b.pos + |Concat(operands[k..])| == old(b.pos) + total
      invariant expected ==> b.reportedUnderflow == old(b.reportedUnderflow)
    {
      ghost var n: seq<byte>, behind: seq<byte> := [], [];
      if expected {
        n := operands[k];
        behind := Concat(operands[k + 1..]) + tail;
        assert operands[k..][1..] == operands[k + 1..];
        assert b.Rest() == n + behind;
      }
      var _ := ReadNumber(b, n, behind);
      i := i - 1;
      k := k + 1;
    }
  }

  ghost predicate AllNumbers(operands: seq<seq<byte>>) {
    forall k :: 0 <= k < |operands| ==> Ends(operands[k], |operands[k]|)
  }

  /** The file with a number from the program, if the header has it. */
  method SetFileOp(b: Buf, h: Header, vm: Vm, ghost n: seq<byte>, ghost tail: seq<byte>) returns (ok: bool, after: Vm)
    requires b.Valid()
    modifies b
    ensures b.Valid() && b.left <= old(b.left)
    ensures old(Ahead(b, n, tail)) && IsNumber(n) ==>
      ok == (Groups(n) <= h.files) && Took(b, tail, old(b.pos) + |n|, old(b.reportedUnderflow))
    ensures old(Ahead(b, n, tail)) && IsNumber(n) && ok ==>
      after == vm.(file := if Groups(n) == 0 then NoName else FromHeader(Groups(n) - 1))
  {
    hide Groups, Ends;
    var fileno := ReadNumber(b, n, tail);
    ok := true;
    after := vm;
    if fileno == 0 {
      after := vm.(file := NoName);
    } else if fileno - 1 >= h.files {
      b.Report(BadFileNumber);
      ok := false;
    } else {
      after := vm.(file := FromHeader(fileno - 1));
    }
  }

  method AdvanceLineOp(b: Buf, vm: Vm, ghost n: seq<byte>, ghost tail: seq<byte>) returns (after: Vm)
    requires b.Valid()
    modifies b
    ensures b.Valid() && b.left <= old(b.left)
    ensures old(Ahead(b, n, tail)) && Ends(n, |n|) ==>
      && after == vm.(lineno := ToInt32(vm.lineno + Signed(n)))
      && Took(b, tail, old(b.pos) + |n|, old(b.reportedUnderflow))
  {
    hide Groups, Ends, Signed, ToInt32;
    ghost var s := b.Rest();
    if s == n + tail && Ends(n, |n|) {
      EndsInFront(n, tail);
      CutLine(vm.lineno, Signed(n));
    }
    var advance := ReadSleb(b);
    after := vm.(lineno := ToInt32(vm.lineno + ToInt32(advance)));
  }

  method AdvancePcOp(b: Buf, h: Header, vm: Vm, ghost n: seq<byte>, ghost tail: seq<byte>) returns (after: Vm)
    requires b.Valid()
    modifies b
    ensures b.Valid() && b.left <= old(b.left)
    ensures old(Ahead(b, n, tail)) && IsNumber(n) ==>
      && after == vm.(address := Advanced(h, vm.address, Groups(n)))
      && Took(b, tail, old(b.pos) + |n|, old(b.reportedUnderflow))
  {
    hide Groups, Ends, Advanced;
    var advance := ReadNumber(b, n, tail);
    after := vm.(address := Advanced(h, vm.address, advance));
  }

  method FixedAdvanceOp(b: Buf, u: Unit, vm: Vm, ghost n: seq<byte>, ghost tail: seq<byte>) returns (after: Vm)
    requires b.Valid()
    modifies b
    ensures b.Valid() && b.left <= old(b.left)
    ensures old(Ahead(b, n, tail)) && |n| == 2 && b.bigEndian == u.bigEndian ==>
      && after == Moved(vm, FromBytes(n, u.bigEndian))
      && Took(b, tail, old(b.pos) + |n|, old(b.reportedUnderflow))
  {
    hide FromBytes;
    if b.Rest() == n + tail && |n| == 2 {
      assert b.Rest()[..2] == n && b.Rest()[2..] == tail;
    }
    var advance := b.ReadUint(2);
    after := Moved(vm, advance);
  }

  /** The standard instructions that do something with an operand. */
  method OperandOp(b: Buf, h: Header, u: Unit, vm: Vm, opcode: byte, ghost op: Op, ghost at: nat, ghost tail: seq<byte>)
    returns (ok: bool, after: Vm)
    requires b.Valid() && HeaderOk(h) && (opcode == 2 || opcode == 3 || opcode == 4 || opcode == 9)
    modifies b
    ensures b.Valid() && b.left <= old(b.left)
    ensures b.bigEndian == u.bigEndian && StandardExpected(h, u, op, at, opcode, old(b.pos), old(b.Rest()), tail) ==>
      && Did(h, u, vm, op, at, ok, after)
      && Took(b, tail, old(b.pos) + |Operands(op)|, old(b.reportedUnderflow))
  {
    hide Groups, Ends, WellFormed, FromBytes, Operands, EncodeOp, Opcode, Signed, Advanced, ToInt32, Step, Moved, Took;
    ghost var operands: seq<byte> := [];
    if StandardExpected(h, u, op, at, opcode, b.pos, b.Rest(), tail) {
      operands := Operands(op);
      StandardSteps(h, u, vm, op, at);
    }
    ok := true;
    if opcode == 2 {
      after := AdvancePcOp(b, h, vm, operands, tail);
    } else if opcode == 3 {
      after := AdvanceLineOp(b, vm, operands, tail);
    } else if opcode == 4 {
      ok, after := SetFileOp(b, h, vm, operands, tail);
    } else {
      after := FixedAdvanceOp(b, u, vm, operands, tail);
    }
  }

  /** The standard instructions that do something. */
  method ChangingOp(b: Buf, h: Header, u: Unit, vm: Vm, opcode: byte, ghost op: Op, ghost at: nat, ghost tail: seq<byte>)
    returns (ok: bool, after: Vm)
    requires b.Valid() && HeaderOk(h) && Changes(opcode)
    modifies b
    ensures b.Valid() && b.left <= old(b.left)
    ensures b.bigEndian == u.bigEndian && StandardExpected(h, u, op, at, opcode, old(b.pos), old(b.Rest()), tail) ==>
      Performed(b, h, u, vm, op, at, tail, ok, after, old(b.reportedUnderflow))
  {
    hide Groups, Ends, WellFormed, FromBytes, Operands, EncodeOp, Opcode, Signed, Advanced, ToInt32, Step, Add,
      Performed, AfterConstAdd, Moved;
    ghost var expected := b.bigEndian == u.bigEndian && StandardExpected(h, u, op, at, opcode, b.pos, b.Rest(), tail);
    if expected {
      StandardFacts(h, u, op);
      StandardSteps(h, u, vm, op, at);
      assert Operands(op) == [] ==> b.Rest() == tail;
    }
    ok := true;
    if opcode == 1 {
      after := Add(vm);
    } else if opcode == 8 {
      after := AfterConstAdd(h, vm);
    } else {
      ok, after := OperandOp(b, h, u, vm, opcode, op, at, tail);
    }
    if expected {
      Performs(b, h, u, vm, op, at, tail, ok, after, old(b.reportedUnderflow));
    }
  }

  /** A standard instruction whose opcode has been read. */
  method StandardOp(b: Buf, h: Header, u: Unit, vm: Vm, opcode: byte, ghost op: Op, ghost at: nat, ghost tail: seq<byte>)
    returns (ok: bool, after: Vm)
    requires b.Valid() && HeaderOk(h) && 0 < opcode < h.opcodeBase
    modifies b
    ensures b.Valid() && b.left <= old(b.left)
    ensures b.bigEndian == u.bigEndian && StandardExpected(h, u, op, at, opcode, old(b.pos), old(b.Rest()), tail) ==>
      Performed(b, h, u, vm, op, at, tail, ok, after, old(b.reportedUnderflow))
  {
    hide Groups, Ends, FromBytes, Operands, EncodeOp, Signed, Advanced, AddLine, ToInt32, Step, WellFormed, Opcode;
    if Changes(opcode) {
      ok, after := ChangingOp(b, h, u, vm, opcode, op, at, tail);
      return;
    }
    ghost var expected := StandardExpected(h, u, op, at, opcode, b.pos, b.Rest(), tail);
    ghost var operands: seq<byte>, numbers: seq<seq<byte>> := [], [];
    if expected {
      operands := Operands(op);
      StandardFacts(h, u, op);
      StandardSteps(h, u, vm, op, at);
      if opcode > 12 {
        numbers := op.operands;
        UnknownNumbers(h, u, op);
      }
      assert operands == [] ==> b.Rest() == tail;
    }
    ok := true;
    after := vm;
    if opcode == 5 || opcode == 12 {
      var _ := ReadNumber(b, operands, tail);
    } else if opcode > 12 {
      SkipNumbers(b, h.opcodeLengths[opcode - 1], numbers, tail);
    }
  }

  lemma UnknownNumbers(h: Header, u: Unit, op: Op)
    requires HeaderOk(h) && WellFormed(h, u, op) && op.UnknownStandard?
    ensures AllNumbers(op.operands) && Opcode(op) > 12 && |op.operands| == h.opcodeLengths[Opcode(op) - 1]
    ensures Operands(op) == Concat(op.operands)
  {
  }

  /** A special instruction moves the address and the line, and adds a row. */
  function AfterSpecial(h: Header, vm: Vm, opcode: byte): Vm
    requires h.lineRange > 0 && opcode >= h.opcodeBase
  {
    var n: nat := opcode - h.opcodeBase;
    DivNonNeg(n, h.lineRange);
    Add(vm.(address := Advanced(h, vm.address, n / h.lineRange),
            lineno := ToInt32(vm.lineno + h.lineBase + n % h.lineRange)))
  }

  /** Any instruction. */
  method OneOp(b: Buf, h: Header, u: Unit, vm: Vm, ghost op: Op, ghost tail: seq<byte>) returns (ok: bool, after: Vm)
    requires b.Valid() && HeaderOk(h) && b.left > 0
    modifies b
    ensures b.Valid() && b.left < old(b.left)
    ensures b.bigEndian == u.bigEndian && WellFormed(h, u, op) && old(Ahead(b, EncodeOp(op), tail)) ==>
      Performed(b, h, u, vm, op, old(b.pos), tail, ok, after, old(b.reportedUnderflow))
  {
    hide Groups, Ends, FromBytes, Operands, Signed, Advanced, AddLine, Step, WellFormed, Encode, EncodeOp, Opcode,
      Did, ExtendedOpcode, AfterSpecial, Performed;
    ghost var expected := b.bigEndian == u.bigEndian && WellFormed(h, u, op) && Ahead(b, EncodeOp(op), tail);
    ghost var at := b.pos;
    if expected {
      FirstByte(h, u, op);
      if op.Special? {
        SpecialStep(h, u, vm, op, at);
      } else if !IsExtended(op) {
        StandardFacts(h, u, op);
      }
      assert b.Rest()[0] == EncodeOp(op)[0] && b.Rest()[1..] == EncodeOp(op)[1..] + tail;
    }
    var opcode := b.ReadByte();
    if opcode >= h.opcodeBase {
      ok := true;
      after := AfterSpecial(h, vm, opcode);
      if expected {
        assert b.Rest() == tail;
        Performs(b, h, u, vm, op, at, tail, ok, after, old(b.reportedUnderflow));
      }
    } else if opcode == 0 {
      ok, after := ExtendedOp(b, h, u, vm, op, at, tail);
    } else {
      ok, after := StandardOp(b, h, u, vm, opcode, op, at, tail);
    }
  }

  /** The first byte tells the three kinds of instructions apart. */
  lemma FirstByte(h: Header, u: Unit, op: Op)
    requires HeaderOk(h) && WellFormed(h, u, op)
    ensures var c := EncodeOp(op)[0];
            && (op.Special? <==> c >= h.opcodeBase)
            && (op.Special? ==> op.opcode == c)
            && (IsExtended(op) ==> c == 0 < h.opcodeBase)
            && (!IsExtended(op) ==> c == Opcode(op))
            && (!IsExtended(op) && !op.Special? ==> 0 < c < h.opcodeBase)
  {
  }

  lemma SpecialStep(h: Header, u: Unit, vm: Vm, op: Op, at: nat)
    requires h.lineRange > 0 && op.Special? && op.opcode >= h.opcodeBase
    ensures Did(h, u, vm, op, at, true, AfterSpecial(h, vm, op.opcode)) && EncodeOp(op) == [op.opcode]
  {
  }

  /** The bytes are a program for this header and unit, in the byte order of the reader. */
  ghost predicate Encodes(b: Buf, h: Header, u: Unit, ops: seq<Op>, bytes: seq<byte>)
    requires HeaderOk(h)
  {
    b.bigEndian == u.bigEndian && AllWellFormed(h, u, ops) && bytes == Encode(ops)
  }

  /**
   * `read_line_program` reads any bytes. If they are the encoding of a program, the result is that of the
   * reader's own machine; and if the program's numbers are good, the lines are the rows of the state machine
   * if and only if the program uses no file name that it defines.
   */
  method ReadLineProgram(b: Buf, h: Header, u: Unit, ghost ops: seq<Op>) returns (ok: bool, lines: seq<Line>)
    requires b.Valid() && HeaderOk(h)
    modifies b
    ensures b.Valid() && (ok ==> b.left == 0)
    ensures Encodes(b, h, u, ops, old(b.Rest())) ==>
      Outcome(h, u, ops, old(b.pos), ok, lines) && b.reportedUnderflow == old(b.reportedUnderflow)
    ensures Encodes(b, h, u, ops, old(b.Rest())) && Numbered(h, 0, ops) ==>
      (ok && lines == Record([], Matrix(h, u, Initial(h, []), ops, old(b.pos))) <==> DefinedUnused(h, false, ops))
  {
    hide EncodeOp, Step, WellFormed, Did, Record, Matrix, Numbered, DefinedUnused;
    ghost var expected := Encodes(b, h, u, ops, b.Rest());
    ghost var k: nat := 0;
    ghost var p := b.pos;
    var vm := Start(h, []);
    assert ops[k..] == ops;
    if expected && Numbered(h, 0, ops) {
      RefinesIff(h, u, ops, p);
    }
    while b.left > 0
      invariant b.Valid()
      invariant expected ==> k <= |ops| && b.Rest() == Encode(ops[k..])
      invariant expected ==> b.reportedUnderflow == old(b.reportedUnderflow)
      invariant expected ==> Run(h, u, Start(h, []), ops, p) == Run(h, u, vm, ops[k..], b.pos)
      decreases b.left
    {
      ghost var op: Op, tail: seq<byte> := Copy, [];
      if expected {
        assert k < |ops|;
        assert ops[k..][1..] == ops[k + 1..];
        op, tail := ops[k], Encode(ops[k + 1..]);
      }
      ghost var before, at := vm, b.pos;
      ok, vm := OneOp(b, h, u, vm, op, tail);
      if expected {
        DidStep(h, u, before, op, at, ok, vm);
      }
      if !ok {
        return false, [];
      }
      k := k + 1;
    }
    if expected {
      EncodeNone(ops[k..]);
    }
    return true, vm.lines;
  }

  lemma DidStep(h: Header, u: Unit, vm: Vm, op: Op, at: nat, ok: bool, after: Vm)
    requires h.lineRange > 0 && Did(h, u, vm, op, at, ok, after)
    ensures Step(h, u, vm, op, at) == if ok then Some(after) else None
  {
    hide Step;
  }

  lemma EncodeNone(ops: seq<Op>)
    requires Encode(ops) == []
    ensures ops == []
  {
  }

  ghost predicate Outcome(h: Header, u: Unit, ops: seq<Op>, at: nat, ok: bool, lines: seq<Line>)
    requires h.lineRange > 0
  {
    match Run(h, u, Start(h, []), ops, at)
    case None => !ok
    case Some(vm) => ok && lines == vm.lines
  }
}
