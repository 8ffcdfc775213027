/** The abbreviation table of a unit: two passes count, one fills, and a lookup that tries the obvious place first. */
module Abbrevs {
  import opened Bits
  import opened DwarfBuf
  import opened Leb128
  import opened Sorting
  import opened Wrappers

  datatype Attr = Attr(name: nat, form: nat)

  datatype Abbrev = Abbrev(code: nat, tag: nat, hasChildren: byte, attrs: seq<Attr>)

  /** A number stored in an enumeration, which has 32 bits. */
  function Enum(v: nat): nat {
    v % 0x1_0000_0000
  }

  /** What is still to be read, and whether something was missing. */
  datatype Input = Input(rest: seq<byte>, short: bool)

  /** The length of the number in front, or 0 if it does not end. */
  function NumberLength(s: seq<byte>): (n: nat)
    ensures n <= |s|
  {
    if s == [] then 0
    else if s[0] < 128 then 1
    else if NumberLength(s[1..]) == 0 then 0
    else NumberLength(s[1..]) + 1
  }

  lemma {:induction false} NumberLengthEnds(s: seq<byte>)
    ensures NumberLength(s) > 0 ==> Ends(s, NumberLength(s))
    ensures NumberLength(s) == 0 ==> forall i :: 0 <= i < |s| ==> s[i] >= 128
  {
    if s != [] && s[0] >= 128 {
      NumberLengthEnds(s[1..]);
      assert forall i :: 0 < i < |s| ==> s[i] == s[1..][i - 1];
    }
  }

  function TakeNumber(i: Input): (r: (nat, Input))
    ensures |r.1.rest| <= |i.rest| && (r.0 != 0 ==> |r.1.rest| < |i.rest|)
  {
    var n := NumberLength(i.rest);
    if n == 0 then (0, Input([], true)) else (Groups(i.rest[..n]) % WORD, Input(i.rest[n..], i.short))
  }

  function TakeByte(i: Input): (r: (byte, Input))
    ensures |r.1.rest| <= |i.rest|
  {
    if i.rest == [] then (0, Input([], true)) else (i.rest[0], Input(i.rest[1..], i.short))
  }

  /** Pairs of a name and a form, up to and including the pair whose name is 0 (section 7.5.3 of DWARF 4). */
  function TakeAttrs(i: Input): (r: (seq<Attr>, Input))
    ensures |r.1.rest| <= |i.rest|
    decreases |i.rest|
  {
    var (name, i1) := TakeNumber(i);
    var (form, i2) := TakeNumber(i1);
    if name == 0 then ([], i2)
    else
      var (attrs, end) := TakeAttrs(i2);
      ([Attr(Enum(name), Enum(form))] + attrs, end)
  }

  /** Declarations, up to and including a code of 0. */
  function TakeAbbrevs(i: Input): (seq<Abbrev>, Input)
    decreases |i.rest|
  {
    var (code, i1) := TakeNumber(i);
    if code == 0 then ([], i1)
    else
      var (tag, i2) := TakeNumber(i1);
      var (hasChildren, i3) := TakeByte(i2);
      var (attrs, i4) := TakeAttrs(i3);
      var (abbrevs, end) := TakeAbbrevs(i4);
      ([Abbrev(code, Enum(tag), hasChildren, attrs)] + abbrevs, end)
  }

  /** The declarations in the order of the section, if all of them are there. */
  function Parse(bytes: seq<byte>): Option<seq<Abbrev>> {
    var (abbrevs, end) := TakeAbbrevs(Input(bytes, false));
    if end.short then None else Some(abbrevs)
  }

  /** The declarations that the format can express: codes are not 0, and nor are names. */
  predicate Declarable(a: Abbrev) {
    && 0 < a.code < WORD && a.tag < 0x1_0000_0000
    && forall k :: 0 <= k < |a.attrs| ==>
         0 < a.attrs[k].name < 0x1_0000_0000 && a.attrs[k].form < 0x1_0000_0000
  }

  /** Section 7.5.3 of DWARF 4: pairs of numbers, up to a pair of zeros. */
  function EncodeAttrs(attrs: seq<Attr>): seq<byte> {
    if attrs == [] then [0, 0]
    else EncodeUleb(attrs[0].name) + (EncodeUleb(attrs[0].form) + EncodeAttrs(attrs[1..]))
  }

  /** A code, a tag, a byte and attributes for each declaration, up to a code of 0. */
  function EncodeAbbrevs(abbrevs: seq<Abbrev>): seq<byte> {
    if abbrevs == [] then [0]
    else
      var a := abbrevs[0];
      EncodeUleb(a.code) + (EncodeUleb(a.tag) + ([a.hasChildren] + (EncodeAttrs(a.attrs) + EncodeAbbrevs(abbrevs[1..]))))
  }

  lemma TakeEncoded(v: nat, tail: seq<byte>)
    requires v < WORD
    ensures TakeNumber(Input(EncodeUleb(v) + tail, false)) == (v, Input(tail, false))
  {
    hide Groups, EncodeUleb, Pow;
    var s := EncodeUleb(v) + tail;
    PowWord();
    PowMono(64, 70);
    EncodedUleb(v, 10);
    EndsInFront(EncodeUleb(v), tail);
    NumberLengthEnds(s);
    EndsOnce(s, |EncodeUleb(v)|);
    assert NumberLength(s) == |EncodeUleb(v)|;
  }

  lemma EncodedZero()
    ensures EncodeUleb(0) == [0]
  {
  }

  lemma {:induction false} AttrsRoundTrip(attrs: seq<Attr>, tail: seq<byte>)
    requires forall k :: 0 <= k < |attrs| ==> 0 < attrs[k].name < 0x1_0000_0000 && attrs[k].form < 0x1_0000_0000
    ensures TakeAttrs(Input(EncodeAttrs(attrs) + tail, false)) == (attrs, Input(tail, false))
  {
    hide TakeNumber, EncodeUleb;
    EncodedZero();
    if attrs == [] {
      assert [0, 0] + tail == [0] + ([0] + tail);
      TakeEncoded(0, [0] + tail);
      TakeEncoded(0, tail);
    } else {
      var n, f, rest := EncodeUleb(attrs[0].name), EncodeUleb(attrs[0].form), EncodeAttrs(attrs[1..]);
      assert EncodeAttrs(attrs) == n + (f + rest);
      assert EncodeAttrs(attrs) + tail == n + (f + (rest + tail));
      assert attrs == [attrs[0]] + attrs[1..];
      TakeEncoded(attrs[0].name, f + (rest + tail));
      TakeEncoded(attrs[0].form, rest + tail);
      AttrsRoundTrip(attrs[1..], tail);
    }
  }

  /** Reading what was encoded, with anything behind it, gives back the declarations. */
  lemma {:induction false} AbbrevsRoundTrip(abbrevs: seq<Abbrev>, tail: seq<byte>)
    requires forall k :: 0 <= k < |abbrevs| ==> Declarable(abbrevs[k])
    ensures TakeAbbrevs(Input(EncodeAbbrevs(abbrevs) + tail, false)) == (abbrevs, Input(tail, false))
    ensures Parse(EncodeAbbrevs(abbrevs) + tail) == Some(abbrevs)
  {
    hide TakeNumber, EncodeUleb, TakeAttrs, EncodeAttrs;
    EncodedZero();
    if abbrevs == [] {
      TakeEncoded(0, tail);
    } else {
      var a := abbrevs[0];
      var c, t, x, rest := EncodeUleb(a.code), EncodeUleb(a.tag), EncodeAttrs(a.attrs), EncodeAbbrevs(abbrevs[1..]);
      var h: seq<byte> := [a.hasChildren];
      assert EncodeAbbrevs(abbrevs) == c + (t + (h + (x + rest)));
      assert EncodeAbbrevs(abbrevs) + tail == c + (t + (h + (x + (rest + tail))));
      assert abbrevs == [a] + abbrevs[1..];
      TakeEncoded(a.code, t + (h + (x + (rest + tail))));
      TakeEncoded(a.tag, h + (x + (rest + tail)));
      assert (h + (x + (rest + tail)))[1..] == x + (rest + tail);
      AttrsRoundTrip(a.attrs, rest + tail);
      AbbrevsRoundTrip(abbrevs[1..], tail);
    }
  }

  /** One declaration of a compilation unit with a name in the string section: its bytes and what they mean. */
  lemma CompileUnit()
    ensures Parse([1, 0x11, 1, 0x25, 0x0e, 0, 0, 0]) == Some([Abbrev(1, 0x11, 1, [Attr(0x25, 0x0e)])])
  {
    hide Parse;
    var abbrevs := [Abbrev(1, 0x11, 1, [Attr(0x25, 0x0e)])];
    assert EncodeUleb(1) == [1] && EncodeUleb(0x11) == [0x11] && EncodeUleb(0x25) == [0x25] && EncodeUleb(0x0e) == [0x0e];
    assert [Attr(0x25, 0x0e)][1..] == [] && abbrevs[1..] == [];
    assert EncodeAttrs([Attr(0x25, 0x0e)]) == [0x25, 0x0e, 0, 0];
    var none: seq<byte> := [];
    assert EncodeAbbrevs(abbrevs) + none == [1, 0x11, 1, 0x25, 0x0e, 0, 0, 0];
    AbbrevsRoundTrip(abbrevs, none);
  }

  /** The reader has `i` ahead of it. */
  ghost predicate Reads(b: Buf, i: Input)
    reads b
  {
    b.Valid() && b.Rest() == i.rest && b.reportedUnderflow == i.short
  }

  method NextNumber(b: Buf, ghost i: Input) returns (v: nat)
    requires Reads(b, i)
    modifies b
    ensures v == TakeNumber(i).0 && Reads(b, TakeNumber(i).1)
  {
    hide Groups, Ends;
    NumberLengthEnds(i.rest);
    if NumberLength(i.rest) == 0 {
      EndsNowhere(i.rest);
    }
    v := ReadUleb(b);
  }

  method NextByte(b: Buf, ghost i: Input) returns (v: byte)
    requires Reads(b, i)
    modifies b
    ensures v == TakeByte(i).0 && Reads(b, TakeByte(i).1)
  {
    v := b.ReadByte();
  }

  method Copy(b: Buf, ghost i: Input) returns (c: Buf)
    requires Reads(b, i)
    ensures Reads(c, i) && fresh(c)
  {
    c := new Buf(b.data, b.bigEndian, b.pos, b.left);
    c.reportedUnderflow := b.reportedUnderflow;
  }

  /** The loop of the counting passes over the attributes; it stops behind the name that is 0. */
  method CountAttrs(b: Buf, ghost i: Input) returns (n: nat, ghost last: Input)
    requires Reads(b, i)
    modifies b
    ensures n == |TakeAttrs(i).0| && Reads(b, last) && TakeNumber(last).1 == TakeAttrs(i).1
  {
    hide TakeNumber, NumberLength;
    n := 0;
    ghost var at := i;
    var name := NextNumber(b, at);
    last := TakeNumber(at).1;
    while name != 0
      invariant Reads(b, last) && name == TakeNumber(at).0 && last == TakeNumber(at).1
      invariant n + |TakeAttrs(at).0| == |TakeAttrs(i).0| && TakeAttrs(at).1 == TakeAttrs(i).1
      decreases |at.rest|
    {
      n := n + 1;
      var _ := NextNumber(b, last);
      at := TakeNumber(last).1;
      name := NextNumber(b, at);
      last := TakeNumber(at).1;
    }
  }

  /** The first pass. */
  method CountAbbrevs(b: Buf, ghost i: Input) returns (ok: bool, n: nat)
    requires Reads(b, i)
    modifies b
    ensures ok == !TakeAbbrevs(i).1.short
    ensures ok ==> n == |TakeAbbrevs(i).0|
  {
    hide TakeNumber, NumberLength, TakeByte, TakeAttrs;
    n := 0;
    ghost var at := i;
    var code := NextNumber(b, at);
    while code != 0
      invariant Reads(b, TakeNumber(at).1) && code == TakeNumber(at).0
      invariant n + |TakeAbbrevs(at).0| == |TakeAbbrevs(i).0| && TakeAbbrevs(at).1 == TakeAbbrevs(i).1
      decreases |at.rest|
    {
      ghost var i1 := TakeNumber(at).1;
      if b.reportedUnderflow {
        StaysShort(at);
        return false, n;
      }
      n := n + 1;
      var _ := NextNumber(b, i1);
      ghost var i2 := TakeNumber(i1).1;
      var _ := NextByte(b, i2);
      ghost var i3 := TakeByte(i2).1;
      var _, last := CountAttrs(b, i3);
      var _ := NextNumber(b, last);
      at := TakeAttrs(i3).1;
      code := NextNumber(b, at);
    }
    ok := !b.reportedUnderflow;
  }

  /** Once something was missing, something is missing in the end. */
  lemma {:induction false} StaysShort(i: Input)
    requires TakeNumber(i).1.short
    ensures TakeAbbrevs(i).1.short
    decreases |i.rest|
  {
    var (code, i1) := TakeNumber(i);
    if code != 0 {
      var i2 := TakeNumber(i1).1;
      var i3 := TakeByte(i2).1;
      AttrsStayShort(i3);
      StaysShort(TakeAttrs(i3).1);
    }
  }

  lemma {:induction false} AttrsStayShort(i: Input)
    ensures i.short ==> TakeAttrs(i).1.short
    decreases |i.rest|
  {
    var (name, i1) := TakeNumber(i);
    if name != 0 {
      AttrsStayShort(TakeNumber(i1).1);
    }
  }

  /** The input behind a pair of numbers. */
  function AfterPair(i: Input): Input {
    TakeNumber(TakeNumber(i).1).1
  }

  /** A name and a form. */
  method NextPair(b: Buf, ghost i: Input) returns (name: nat, form: nat)
    requires Reads(b, i)
    modifies b
    ensures name == TakeNumber(i).0 && form == TakeNumber(TakeNumber(i).1).0 && Reads(b, AfterPair(i))
  {
    hide TakeNumber;
    name := NextNumber(b, i);
    form := NextNumber(b, TakeNumber(i).1);
  }

  lemma PairStep(i: Input)
    ensures |AfterPair(i).rest| <= |i.rest| && (TakeNumber(i).0 != 0 ==> |AfterPair(i).rest| < |i.rest|)
    ensures TakeNumber(i).0 == 0 ==> TakeAttrs(i) == ([], AfterPair(i))
    ensures TakeNumber(i).0 != 0 ==>
      && TakeAttrs(i).0 == [Attr(Enum(TakeNumber(i).0), Enum(TakeNumber(TakeNumber(i).1).0))] + TakeAttrs(AfterPair(i)).0
      && TakeAttrs(i).1 == TakeAttrs(AfterPair(i)).1
  {
    hide TakeNumber, Enum;
  }

  /** The attributes of one declaration, into an array of the size that was counted. */
  method FillAttrs(b: Buf, ghost i: Input) returns (attrs: seq<Attr>)
    requires Reads(b, i)
    modifies b
    ensures attrs == TakeAttrs(i).0 && Reads(b, TakeAttrs(i).1)
  {
    hide TakeNumber, TakeAttrs, AfterPair, Reads;
    ghost var all := TakeAttrs(i).0;
    var count := Copy(b, i);
    var num, last := CountAttrs(count, i);
    if num == 0 {
      PairStep(i);
      var _, _ := NextPair(b, i);
      return [];
    }
    var out := new Attr[num](_ => Attr(0, 0));
    num := 0;
    ghost var at := i;
    while true
      invariant Reads(b, at) && num <= out.Length == |all| && fresh(out)
      invariant out[..num] + TakeAttrs(at).0 == all && TakeAttrs(at).1 == TakeAttrs(i).1
      decreases |at.rest|
    {
      PairStep(at);
      var name, form := NextPair(b, at);
      if name == 0 {
        break;
      }
      at := AfterPair(at);
      out[num] := Attr(name % 0x1_0000_0000, form % 0x1_0000_0000);
      assert out[..num + 1] == out[..num] + [out[num]];
      num := num + 1;
    }
    attrs := out[..];
  }

  /** The declaration whose code stands at `i`, and the input behind it. */
  function FirstAbbrev(i: Input): (Abbrev, Input) {
    var (code, i1) := TakeNumber(i);
    var (tag, i2) := TakeNumber(i1);
    var (hasChildren, i3) := TakeByte(i2);
    var (attrs, i4) := TakeAttrs(i3);
    (Abbrev(code, Enum(tag), hasChildren, attrs), i4)
  }

  lemma AbbrevStep(i: Input)
    ensures TakeNumber(i).0 == 0 ==> TakeAbbrevs(i) == ([], TakeNumber(i).1)
    ensures TakeNumber(i).0 != 0 ==>
      && |FirstAbbrev(i).1.rest| < |i.rest|
      && TakeAbbrevs(i).0 == [FirstAbbrev(i).0] + TakeAbbrevs(FirstAbbrev(i).1).0
      && TakeAbbrevs(i).1 == TakeAbbrevs(FirstAbbrev(i).1).1
  {
    hide TakeNumber, TakeByte, TakeAttrs, Enum;
  }

  /** What follows the code of a declaration. */
  method NextAbbrev(b: Buf, code: nat, ghost i: Input) returns (abbrev: Abbrev)
    requires Reads(b, TakeNumber(i).1) && code == TakeNumber(i).0
    modifies b
    ensures abbrev == FirstAbbrev(i).0 && Reads(b, FirstAbbrev(i).1)
  {
    hide TakeNumber, TakeByte, TakeAttrs, Reads;
    ghost var i1 := TakeNumber(i).1;
    var tag := NextNumber(b, i1);
    ghost var i2 := TakeNumber(i1).1;
    var hasChildren := NextByte(b, i2);
    var attrs := FillAttrs(b, TakeByte(i2).1);
    abbrev := Abbrev(code, tag % 0x1_0000_0000, hasChildren, attrs);
  }

  /** The second pass, into an array of the size that the first one counted. */
  method FillAbbrevs(b: Buf, ghost i: Input, num: nat) returns (abbrevs: seq<Abbrev>)
    requires Reads(b, i) && num == |TakeAbbrevs(i).0| && !TakeAbbrevs(i).1.short && !i.short
    modifies b
    ensures abbrevs == TakeAbbrevs(i).0
  {
    hide TakeNumber, TakeAbbrevs, FirstAbbrev;
    ghost var all := TakeAbbrevs(i).0;
    var out := new Abbrev[num](_ => Abbrev(0, 0, 0, []));
    var n: nat := 0;
    ghost var at := i;
    while true
      invariant Reads(b, at) && n <= out.Length == |all| && fresh(out)
      invariant out[..n] + TakeAbbrevs(at).0 == all && TakeAbbrevs(at).1 == TakeAbbrevs(i).1
      decreases |at.rest|
    {
      AbbrevStep(at);
      if b.reportedUnderflow {
        ShortNow(at);
        assert false;
      }
      var code := NextNumber(b, at);
      if code == 0 {
        break;
      }
      out[n] := NextAbbrev(b, code, at);
      at := FirstAbbrev(at).1;
      assert out[..n + 1] == out[..n] + [out[n]];
      n := n + 1;
    }
    abbrevs := out[..];
  }

  lemma ShortNow(i: Input)
    requires i.short
    ensures TakeAbbrevs(i).1.short
  {
    StaysShort(i);
  }

  /** `abbrev_compare`. */
  predicate Before(a: Abbrev, b: Abbrev) {
    a.code < b.code
  }

  function SortByCode(abbrevs: seq<Abbrev>): (r: seq<Abbrev>)
    ensures |r| == |abbrevs|
  {
    Sort(Before, abbrevs)
  }

  predicate Ascending(a: seq<Abbrev>) {
    forall i, j :: 0 <= i < j < |a| ==> a[i].code <= a[j].code
  }

  /** `read_abbrevs`: the table is the one-pass reading of the same bytes, sorted by code. */
  method ReadAbbrevs(data: seq<byte>, bigEndian: bool, offset: nat) returns (table: Option<seq<Abbrev>>)
    ensures offset >= |data| ==> table == None
    ensures offset < |data| ==>
      table == match Parse(data[offset..]) case None => None case Some(abbrevs) => Some(SortByCode(abbrevs))
  {
    hide TakeAbbrevs, SortByCode;
    if offset >= |data| {
      return None;
    }
    ghost var i := Input(data[offset..], false);
    var b := new Buf(data, bigEndian, offset, |data| - offset);
    var count := Copy(b, i);
    var ok, num := CountAbbrevs(count, i);
    if !ok {
      return None;
    }
    if num == 0 {
      SortNone();
      return Some([]);
    }
    var abbrevs := FillAbbrevs(b, i, num);
    table := Some(SortByCode(abbrevs));
  }

  lemma SortNone()
    ensures SortByCode([]) == []
  {
  }

  /** A scan for the code over the declarations in the order of the section. */
  function Linear(abbrevs: seq<Abbrev>, code: nat): Option<Abbrev> {
    if abbrevs == [] then None
    else if abbrevs[0].code == code then Some(abbrevs[0])
    else Linear(abbrevs[1..], code)
  }

  predicate DistinctCodes(abbrevs: seq<Abbrev>) {
    forall i, j :: 0 <= i < j < |abbrevs| ==> abbrevs[i].code != abbrevs[j].code
  }

  lemma {:induction false} LinearFinds(abbrevs: seq<Abbrev>, code: nat)
    ensures match Linear(abbrevs, code)
            case None => forall a :: a in abbrevs ==> a.code != code
            case Some(a) => a in abbrevs && a.code == code
  {
    if abbrevs != [] && abbrevs[0].code != code {
      LinearFinds(abbrevs[1..], code);
      assert abbrevs == [abbrevs[0]] + abbrevs[1..];
    }
  }

  /** The declarations by rising code, those of equal code in any order. */
  ghost predicate TableOf(abbrevs: seq<Abbrev>, table: seq<Abbrev>) {
    Ascending(table) && forall a :: a in abbrevs <==> a in table
  }

  /** The table that is read is one to look up codes in. */
  lemma SortedIsTable(abbrevs: seq<Abbrev>)
    ensures TableOf(abbrevs, SortByCode(abbrevs))
  {
    SortIsSorted(Before, abbrevs);
    SortMembers(Before, abbrevs);
  }

  /** An abbreviation of the code, if there is one: what a scan finds, unless two have the same code. */
  ghost predicate Found(abbrevs: seq<Abbrev>, code: nat, found: Option<Abbrev>) {
    && (found.None? ==> forall a :: a in abbrevs ==> a.code != code)
    && (found.Some? ==> found.value in abbrevs && found.value.code == code)
  }

  lemma FoundIsLinear(abbrevs: seq<Abbrev>, code: nat, found: Option<Abbrev>)
    requires Found(abbrevs, code, found) && DistinctCodes(abbrevs)
    ensures found == Linear(abbrevs, code)
  {
    LinearFinds(abbrevs, code);
  }

  /** `lookup_abbrev`: the place `code - 1`, or else binary search. No declaration has the code 0. */
  method LookupAbbrev(table: seq<Abbrev>, code: nat, ghost abbrevs: seq<Abbrev>) returns (found: Option<Abbrev>)
    requires TableOf(abbrevs, table) && code < WORD && |table| < WORD
    ensures Found(abbrevs, code, found)
    ensures DistinctCodes(abbrevs) ==> found == Linear(abbrevs, code)
  {
    if DistinctCodes(abbrevs) {
      forall f | Found(abbrevs, code, f)
        ensures f == Linear(abbrevs, code)
      {
        FoundIsLinear(abbrevs, code, f);
      }
    }
    hide Linear, DistinctCodes;
    var place := (code - 1) % WORD;
    if place < |table| && table[place].code == code {
      return Some(table[place]);
    }
    var lo: nat, hi: nat := 0, |table|;
    while lo < hi
      invariant lo <= hi <= |table|
      invariant forall k :: 0 <= k < lo ==> table[k].code < code
      invariant forall k :: hi <= k < |table| ==> code < table[k].code
    {
      var mid := (lo + hi) / 2;
      if code < table[mid].code {
        hi := mid;
      } else if code > table[mid].code {
        lo := mid + 1;
      } else {
        return Some(table[mid]);
      }
    }
    found := None;
  }

  lemma {:induction false} NoCodeZero(i: Input)
    ensures forall a :: a in TakeAbbrevs(i).0 ==> a.code != 0
    decreases |i.rest|
  {
    var (code, i1) := TakeNumber(i);
    if code != 0 {
      NoCodeZero(TakeAttrs(TakeByte(TakeNumber(i1).1).1).1);
    }
  }
}
