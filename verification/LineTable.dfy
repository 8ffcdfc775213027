/** The sorted line table of a unit with its sentinel, and the search for an address in it. */
module LineTable {
  import opened Bits
  import opened DwarfBuf
  import opened Leb128
  import opened LineMachine
  import opened LineProgram
  import opened Sorting
  import opened Wrappers

  /** The highest address, which the entry behind the last line has. */
  const HIGHEST: nat := WORD - 1

  const SENTINEL: Line := Line(HIGHEST, NoName, 0, 0)

  /** `line_compare`: by address, and by the order of recording among equal ones. */
  function Compare(a: Line, b: Line): int {
    if a.pc < b.pc then -1
    else if a.pc > b.pc then 1
    else if a.idx < b.idx then -1
    else if a.idx > b.idx then 1
    else 0
  }

  predicate Before(a: Line, b: Line) {
    Compare(a, b) < 0
  }

  /** Each line knows its place in the order of recording; no address is beyond the highest one. */
  predicate Indexed(lines: seq<Line>) {
    forall i :: 0 <= i < |lines| ==> lines[i].idx == i && lines[i].pc <= HIGHEST
  }

  /** What a scan over the lines, in the order of recording, finds for `pc`. */
  function Scan(lines: seq<Line>, pc: nat): Option<Line> {
    if lines == [] then None
    else
      var l := lines[|lines| - 1];
      var best := Scan(lines[..|lines| - 1], pc);
      if l.pc <= pc && (best.None? || best.value.pc <= l.pc) then Some(l) else best
  }

  /** The line of greatest address not above `pc`, and the last recorded of those. */
  ghost predicate Covers(lines: seq<Line>, pc: nat, found: Option<Line>) {
    match found
    case None => forall l :: l in lines ==> pc < l.pc
    case Some(best) =>
      && best in lines && best.pc <= pc
      && forall l :: l in lines && l.pc <= pc ==> Compare(l, best) <= 0
  }

  lemma {:induction false} ScanCovers(lines: seq<Line>, pc: nat)
    requires Indexed(lines)
    ensures Covers(lines, pc, Scan(lines, pc))
  {
    if lines != [] {
      var front := lines[..|lines| - 1];
      var last := lines[|lines| - 1];
      assert lines == front + [last];
      ScanCovers(front, pc);
      forall l | l in lines
        ensures l == last || (l in front && l.idx < last.idx)
      {
      }
    }
  }

  lemma CoversUnique(lines: seq<Line>, pc: nat, a: Option<Line>, b: Option<Line>)
    requires Indexed(lines) && Covers(lines, pc, a) && Covers(lines, pc, b)
    ensures a == b
  {
    if a.Some? && b.Some? {
      assert Compare(a.value, b.value) == 0;
      assert a.value.idx == b.value.idx;
      var i :| 0 <= i < |lines| && lines[i] == a.value;
      var j :| 0 <= j < |lines| && lines[j] == b.value;
    }
  }

  /** The table that `read_line_info` leaves behind: the sorted lines and the entry behind them. */
  function Table(lines: seq<Line>): seq<Line> {
    Sort(Before, lines) + [SENTINEL]
  }

  /** `line_search`: the entry covers `pc` up to the address of the next one. */
  function LineSearch(pc: nat, table: seq<Line>, i: nat): int
    requires i + 1 < |table|
  {
    if pc < table[i].pc then -1 else if pc >= table[i + 1].pc then 1 else 0
  }

  lemma MembersOfTable(lines: seq<Line>, table: seq<Line>)
    requires table == Table(lines)
    ensures |table| == |lines| + 1
    ensures forall i :: 0 <= i < |lines| ==> table[i] in lines
    ensures forall l :: l in lines ==> exists i :: 0 <= i < |lines| && table[i] == l
  {
    SortMembers(Before, lines);
    var sorted := Sort(Before, lines);
    forall i | 0 <= i < |lines|
      ensures table[i] in lines
    {
      assert sorted[i] in sorted;
    }
    forall l | l in lines
      ensures exists i :: 0 <= i < |lines| && table[i] == l
    {
      assert l in sorted;
      var i :| 0 <= i < |sorted| && sorted[i] == l;
      assert table[i] == l;
    }
  }

  /** The addresses in the table do not fall, not even at the last entry. */
  lemma TableRises(lines: seq<Line>, table: seq<Line>)
    requires Indexed(lines) && table == Table(lines)
    ensures forall i, j :: 0 <= i < j < |table| ==> table[i].pc <= table[j].pc
    ensures forall i, j :: 0 <= i < j < |lines| ==> Compare(table[i], table[j]) <= 0
  {
    SortIsSorted(Before, lines);
    MembersOfTable(lines, table);
  }

  lemma TableEnd(lines: seq<Line>, table: seq<Line>)
    requires table == Table(lines)
    ensures |table| == |lines| + 1 && table[|lines|] == SENTINEL
  {
  }

  lemma CoversNone(lines: seq<Line>, pc: nat, found: Option<Line>)
    requires Covers(lines, pc, found)
    ensures found.None? <==> forall l :: l in lines ==> pc < l.pc
  {
  }

  /** Binary search in the table finds what a scan over the recorded lines finds. */
  method FindLine(table: seq<Line>, pc: nat, ghost lines: seq<Line>) returns (found: Option<Line>)
    requires Indexed(lines) && table == Table(lines) && pc < HIGHEST
    ensures found == Scan(lines, pc)
    ensures found.None? <==> forall l :: l in lines ==> pc < l.pc
  {
    hide Scan, Sort, Table, Covers, Indexed;
    TableEnd(lines, table);
    ScanCovers(lines, pc);
    CoversNone(lines, pc, Scan(lines, pc));
    var lo: nat, hi: nat := 0, |table| - 1;
    while lo < hi
      invariant lo <= hi <= |table| - 1
      invariant lo > 0 ==> table[lo].pc <= pc
      invariant pc < table[hi].pc
    {
      var mid := (lo + hi) / 2;
      var c := LineSearch(pc, table, mid);
      if c < 0 {
        hi := mid;
      } else if c > 0 {
        lo := mid + 1;
      } else {
        found := Some(table[mid]);
        FoundCovers(lines, table, pc, mid);
        CoversUnique(lines, pc, found, Scan(lines, pc));
        return;
      }
    }
    assert lo == 0;
    NoneCovers(lines, table, pc);
    found := None;
    CoversUnique(lines, pc, found, Scan(lines, pc));
  }

  lemma FoundCovers(lines: seq<Line>, table: seq<Line>, pc: nat, i: nat)
    requires Indexed(lines) && table == Table(lines) && i < |lines| && table[i].pc <= pc < table[i + 1].pc
    ensures Covers(lines, pc, Some(table[i]))
  {
    TableRises(lines, table);
    MembersOfTable(lines, table);
    forall l | l in lines && l.pc <= pc
      ensures Compare(l, table[i]) <= 0
    {
      var k :| 0 <= k < |lines| && table[k] == l;
      var next, there := table[i + 1].pc, table[k].pc;
      assert k > i + 1 ==> next <= there;
    }
  }

  lemma NoneCovers(lines: seq<Line>, table: seq<Line>, pc: nat)
    requires Indexed(lines) && table == Table(lines) && pc < table[0].pc
    ensures Covers(lines, pc, None)
  {
    TableRises(lines, table);
    MembersOfTable(lines, table);
    forall l | l in lines
      ensures pc < l.pc
    {
      var k :| 0 <= k < |lines| && table[k] == l;
      assert k > 0 ==> table[0].pc <= table[k].pc;
    }
  }

  lemma {:induction false} FromBytesBound(s: seq<byte>, bigEndian: bool)
    ensures FromBytes(s, bigEndian) < Pow(8 * |s|)
  {
    if s != [] {
      FromBytesBound(if bigEndian then s[..|s| - 1] else s[1..], bigEndian);
      PowAdd(8 * (|s| - 1), 8);
      PowTable();
    }
  }

  /** The reader's addresses fit in 64 bits, and its lines are numbered in order. */
  predicate Sound(vm: Vm) {
    vm.address < WORD && Indexed(vm.lines)
  }

  lemma StepSound(h: Header, u: Unit, vm: Vm, op: Op, at: nat)
    requires HeaderOk(h) && WellFormed(h, u, op) && Sound(vm) && Step(h, u, vm, op, at).Some?
    ensures Sound(Step(h, u, vm, op, at).value)
  {
    hide Groups, Signed, Ends, Operands, FromBytes, ToInt32;
    if op.SetAddress? {
      FromBytesBound(op.address, u.bigEndian);
      PowMono(8 * |op.address|, 64);
      PowWord();
    }
  }

  lemma {:induction false} RunSound(h: Header, u: Unit, vm: Vm, ops: seq<Op>, at: nat)
    requires HeaderOk(h) && AllWellFormed(h, u, ops) && Sound(vm) && Run(h, u, vm, ops, at).Some?
    ensures Sound(Run(h, u, vm, ops, at).value)
    decreases |ops|
  {
    hide Step, WellFormed, Sound, EncodeOp;
    if ops != [] {
      StepSound(h, u, vm, ops[0], at);
      RunSound(h, u, Step(h, u, vm, ops[0], at).value, ops[1..], at + |EncodeOp(ops[0])|);
    }
  }

  /** The rows that the state machine of DWARF gives and that are worth recording. */
  ghost function Rows(h: Header, u: Unit, ops: seq<Op>, at: nat): seq<Line>
    requires h.lineRange > 0
  {
    Record([], Matrix(h, u, Initial(h, []), ops, at))
  }

  /** The table for these lines; no lines count as a failure. */
  predicate IsTableFor(table: Option<seq<Line>>, lines: seq<Line>) {
    table == if lines == [] then None else Some(Table(lines))
  }

  /** A program whose numbers are good and which uses no file name that it defines. */
  predicate Readable(h: Header, u: Unit, ops: seq<Op>)
    requires HeaderOk(h)
  {
    AllWellFormed(h, u, ops) && Numbered(h, 0, ops) && DefinedUnused(h, false, ops)
  }

  /** The last part of `read_line_info`, from the line program on. */
  method ReadLineInfo(b: Buf, h: Header, u: Unit, ghost ops: seq<Op>) returns (table: Option<seq<Line>>)
    requires b.Valid() && HeaderOk(h) && b.bigEndian == u.bigEndian && !b.reportedUnderflow
    modifies b
    ensures Readable(h, u, ops) && old(b.Rest()) == Encode(ops) ==>
      Indexed(Rows(h, u, ops, old(b.pos))) && IsTableFor(table, Rows(h, u, ops, old(b.pos)))
  {
    hide Encode, Run, Matrix, Record, Numbered, DefinedUnused, WellFormed, Table;
    ghost var at := b.pos;
    if AllWellFormed(h, u, ops) {
      StartSound(h);
      if Run(h, u, Start(h, []), ops, at).Some? {
        RunSound(h, u, Start(h, []), ops, at);
      }
    }
    var ok, lines := ReadLineProgram(b, h, u, ops);
    if !ok || b.reportedUnderflow || |lines| == 0 {
      return None;
    }
    table := Some(Table(lines));
  }

  lemma StartSound(h: Header)
    ensures Sound(Start(h, []))
  {
  }
}
