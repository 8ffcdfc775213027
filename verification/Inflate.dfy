/** Inflating a zlib stream. */
module Inflate {
  import opened Bits
  import opened Huffman
  import opened LongCodes
  import opened SecondarySpace
  import opened InflateTable
  import opened Deflate
  import opened Layout
  import opened BitReader
  import opened InflateMatch
  import opened InflateTokens
  import opened DynamicHeader
  import opened Wrappers

  /** Every code length in the list is below 16. */
  lemma {:induction false} LengthsFit(s: seq<byte>, p: nat, cl: seq<byte>, lens: seq<byte>, its: seq<LengthItem>)
    requires ItemsAt(s, p, cl, its) && ApplyItems(lens, its).Some? && LengthsBelow(lens, 16)
    ensures LengthsBelow(ApplyItems(lens, its).value, 16)
    decreases |its|
  {
    if its != [] {
      LengthsFit(s, ItemEnd(p, cl, its[0]), cl, ApplyItem(lens, its[0]).value, its[1..]);
    }
  }

  /** One of the codes of a dynamic block needs more secondary tables than there is room for. */
  ghost predicate TooManyTables(b: Block)
    requires b.Dynamic?
  {
    !SecondaryFits(DynamicLit(b)) || !SecondaryFits(DynamicDist(b))
  }

  /**
   * A well-formed block that the decoder does not take: the format has up to 32 distance codes, the
   * decoder allows for the 30 that mean something.
   */
  ghost predicate Refused(b: Block) {
    b.Dynamic? && (b.ndist > 30 || TooManyTables(b))
  }

  /** Otherwise only a literal code with unused code space and more than 264 long codes is ever refused. */
  lemma RefusedOnly(b: Block)
    requires HeaderOk(b) && Refused(b)
    ensures b.ndist > 30 || (!Complete(DynamicLit(b)) && LongCount(DynamicLit(b), 9, |DynamicLit(b)|) > 264)
  {
    hide SecondaryFits, Complete, Kraft, LongCount, ApplyItems, OrderOk, ItemsOk;
    var lit, dist := DynamicLit(b), DynamicDist(b);
    assert |lit| == b.nlit && |dist| == b.ndist;
    DistancesFit(dist);
    if Complete(lit) {
      CompleteFits(lit);
    }
    if LongCount(lit, 9, |lit|) <= 264 {
      FewLongFit(lit);
    }
  }

  /** A dynamic block's header is ahead. */
  ghost predicate TablesAhead(s: seq<byte>, p: nat, b: Block) {
    b.Dynamic? && HeaderOk(b) && HeaderAt(s, p, b) && Coded(DynamicLit(b), 256)
  }

  /** Reads the 14-bit start of a dynamic header. */
  method ReadCounts(r: Reader, ghost b: Block) returns (ok: bool, nlit: nat, ndist: nat, nclen: nat)
    requires r.Valid()
    modifies r
    ensures r.Valid() && old(r.Pos()) <= r.Pos()
    ensures ok ==> 257 <= nlit <= 286 && 1 <= ndist <= 30 && 4 <= nclen <= 19
    ensures TablesAhead(r.input, old(r.Pos()), b) ==>
      if ok then nlit == b.nlit && ndist == b.ndist && nclen == b.nclen && r.Pos() == old(r.Pos()) + 14
      else (r.Starved() && r.Pos() == old(r.Pos())) || b.ndist > 30
  {
    hide OrderAt, ItemsAt, Kraft, DynamicLit, DynamicDist, ApplyItems, BitsAt, Pow, ItemsOk, Coded, Order,
      Reader.OnWord;
    nlit, ndist, nclen := 0, 0, 0;
    ok := r.Fetch();
    if !ok {
      return;
    }
    PowTable();
    var v := r.Take(5);
    nlit := v + 257;
    v := r.Take(5);
    ndist := v + 1;
    v := r.Take(4);
    nclen := v + 4;
    ok := nlit <= 286 && ndist <= 30;
  }

  /** Reads a dynamic header up to the two lists of code lengths; `table` is for the code length code. */
  method ReadCodeLengths(r: Reader, next: array<u16>, table: array<u16>, lens: array<byte>, ghost b: Block)
    returns (ok: bool, nlit: nat, ndist: nat)
    requires r.Valid() && next.Length == 316 && table.Length == 1024 && lens.Length == 316
    requires next != table && lens as object != next && lens as object != table
    modifies r, next, table, lens
    ensures r.Valid() && old(r.Pos()) <= r.Pos()
    ensures ok ==> 257 <= nlit <= 286 && 1 <= ndist <= 30
    ensures TablesAhead(r.input, old(r.Pos()), b) ==>
      if ok then
        && nlit == |DynamicLit(b)| && ndist == |DynamicDist(b)| && r.Pos() == HeaderEnd(old(r.Pos()), b)
        && lens[..nlit + ndist] == DynamicLit(b) + DynamicDist(b)
      else (r.Starved() && r.Pos() < HeaderEnd(old(r.Pos()), b)) || b.ndist > 30
  {
    hide Decodes, Kraft, ApplyItems, SecondaryFits, OrderAt, NumAt, ItemsAt, ItemsEnd, DynamicLit, DynamicDist, HeaderOk, HeaderAt,
      HeaderEnd, OrderOk, Accepted, Loadable, Reader.OnWord;
    ghost var p := r.Pos();
    ghost var good := TablesAhead(r.input, p, b);
    ghost var all := if good then DynamicLit(b) + DynamicDist(b) else [];
    if good {
      HeaderLengths(r.input, p, b);
      HeaderParts(r.input, p, b);
    }
    var nclen;
    ok, nlit, ndist, nclen := ReadCounts(r, b);
    if !ok {
      return;
    }
    var codebits := new byte[19];
    ok := ReadOrder(r, nclen, codebits, if good then b.cl else []);
    if !ok {
      return;
    }
    var cl := codebits[..];
    if good {
      KraftFits(cl);
    }
    ok := BuildTable(cl, next, table);
    if !ok {
      return;
    }
    ok := ReadLengths(r, table, lens, nlit + ndist, cl, if good then b.items else [], all);
  }

  /** Reads a dynamic header and builds the two tables it describes. */
  method ReadTables(r: Reader, next: array<u16>, tlit: array<u16>, tdist: array<u16>, lens: array<byte>, ghost b: Block)
    returns (ok: bool)
    requires r.Valid() && next.Length == 316 && tlit.Length == tdist.Length == 1024 && lens.Length == 316
    requires next != tlit && next != tdist && tlit != tdist
    requires lens as object != next && lens as object != tlit && lens as object != tdist
    modifies r, next, tlit, tdist, lens
    ensures r.Valid() && old(r.Pos()) <= r.Pos()
    ensures TablesAhead(r.input, old(r.Pos()), b) ==>
      if ok then
        && Decodes(DynamicLit(b), tlit[..]) && Decodes(DynamicDist(b), tdist[..]) && !Refused(b)
        && r.Pos() == HeaderEnd(old(r.Pos()), b)
      else (r.Starved() && r.Pos() < HeaderEnd(old(r.Pos()), b)) || Refused(b)
  {
    hide Decodes, Kraft, ApplyItems, SecondaryFits, HeaderAt, HeaderEnd, DynamicLit, DynamicDist, OrderOk, ItemsOk,
      Reader.OnWord;
    ghost var p := r.Pos();
    ghost var good := TablesAhead(r.input, p, b);
    if good {
      HeaderLengths(r.input, p, b);
    }
    var nlit, ndist;
    ok, nlit, ndist := ReadCodeLengths(r, next, tlit, lens, b);
    if !ok {
      return;
    }
    var litLengths, distLengths := lens[..nlit], lens[nlit..nlit + ndist];
    assert lens[..nlit + ndist] == litLengths + distLengths;
    assert good ==> litLengths == DynamicLit(b) && distLengths == DynamicDist(b);
    if lens[256] == 0 {
      return false;
    }
    ok := BuildTable(litLengths, next, tlit);
    if !ok {
      return;
    }
    ok := BuildTable(distLengths, next, tdist);
  }

  /** The items of a well-formed header stand for the two lists of lengths. */
  lemma HeaderLengths(s: seq<byte>, p: nat, b: Block)
    requires TablesAhead(s, p, b)
    ensures ApplyItems([], b.items) == Some(DynamicLit(b) + DynamicDist(b))
    ensures |DynamicLit(b)| == b.nlit && |DynamicDist(b)| == b.ndist
    ensures LengthsBelow(DynamicLit(b), 16) && LengthsBelow(DynamicDist(b), 16)
    ensures p + 14 + 3 * b.nclen <= HeaderEnd(p, b)
  {
    hide NumAt, OrderAt, ItemsAt, ItemsEnd, Kraft, ApplyItems;
    var all := ApplyItems([], b.items).value;
    LengthsFit(s, p + 14 + 3 * b.nclen, b.cl, [], b.items);
    ItemsEndAfter(s, p + 14 + 3 * b.nclen, b.cl, b.items);
    assert all[..b.nlit] + all[b.nlit..] == all;
  }

  /** Where the parts of a header are. */
  lemma HeaderParts(s: seq<byte>, p: nat, b: Block)
    requires TablesAhead(s, p, b)
    ensures OrderOk(b.cl, b.nclen) && OrderAt(s, p + 14, b.cl, b.nclen)
    ensures Kraft(b.cl) && LengthsBelow(b.cl, 8)
    ensures ItemsAt(s, p + 14 + 3 * b.nclen, b.cl, b.items)
    ensures HeaderEnd(p, b) == ItemsEnd(p + 14 + 3 * b.nclen, b.cl, b.items)
    ensures b.nlit <= 286 && b.ndist <= 32
  {
    hide NumAt, OrderAt, ItemsAt, ItemsEnd, Kraft, ApplyItems;
  }

  /** Inflates the symbols of one block. */
  method InflateBlock(r: Reader, tlit: array<u16>, tdist: array<u16>, out: array<byte>, pout0: nat,
                      ghost lit: seq<byte>, ghost dist: seq<byte>, ghost ts: seq<Token>)
    returns (ok: bool, pout: nat)
    requires r.Valid() && tlit.Length == tdist.Length == 1024 && pout0 <= out.Length
    requires out as object != tlit && out as object != tdist
    modifies r, out
    ensures r.Valid() && pout0 <= pout <= out.Length && out[..pout0] == old(out[..pout0]) && old(r.Pos()) <= r.Pos()
    ensures old(Decodes(lit, tlit[..]) && Decodes(dist, tdist[..])) && TokensAt(r.input, old(r.Pos()), lit, dist, ts) ==>
      var end, last := TokensEnd(old(r.Pos()), lit, dist, ts), SymLength(lit, 256);
      if ok then
        && r.Pos() == end && 8 * r.pin + last >= end + 15
        && ApplyAll(old(out[..pout0]), ts) == Some(out[..pout])
      else
        || (r.Starved() && r.Pos() + last <= end)
        || TooBig(ApplyAll(old(out[..pout0]), ts), out.Length)
  {
    ghost var o, end, last := out[..pout0], TokensEnd(r.Pos(), lit, dist, ts), SymLength(lit, 256);
    ghost var tl, td := tlit[..], tdist[..];
    ghost var good := Decodes(lit, tl) && Decodes(dist, td) && TokensAt(r.input, r.Pos(), lit, dist, ts);
    ghost var todo := ts;
    ghost var result := ApplyAll(o, ts);
    pout := pout0;
    var done := false;
    ok := true;
    while ok && !done
      invariant r.Valid() && pout0 <= pout <= out.Length && out[..pout0] == o && old(r.Pos()) <= r.Pos()
      invariant tlit[..] == tl && tdist[..] == td
      invariant good && ok && !done ==> TokensAt(r.input, r.Pos(), lit, dist, todo)
      invariant good && ok && !done ==> TokensEnd(r.Pos(), lit, dist, todo) == end
      invariant good && ok && !done ==> ApplyAll(out[..pout], todo) == result
      invariant good && ok && done ==> r.Pos() == end && 8 * r.pin + last >= end + 15 && Some(out[..pout]) == result
      invariant good && !ok ==> (r.Starved() && r.Pos() + last <= end) || TooBig(result, out.Length)
      decreases 8 * |r.input| - r.Pos(), ok, !done
    {
      hide Decodes, TokenAt, TokenEnd, Apply, TokenOk, SymLength;
      ghost var was, pin := out[..pout], r.Pos();
      ok, done, pout := Step(r, tlit, tdist, out, pout, lit, dist, todo);
      if good && !ok && todo != [] {
        LaterTooBig(was, todo, out.Length);
      }
      todo := if todo == [] then [] else todo[1..];
    }
  }

  lemma {:induction false} ApplyAllGrows(o: seq<byte>, ts: seq<Token>)
    requires ApplyAll(o, ts).Some?
    ensures |o| <= |ApplyAll(o, ts).value|
    decreases |ts|
  {
    if ts != [] {
      ApplyGrows(o, ts[0]);
      ApplyAllGrows(Apply(o, ts[0]).value, ts[1..]);
    }
  }

  lemma ApplyGrows(o: seq<byte>, t: Token)
    requires Apply(o, t).Some?
    ensures |o| <= |Apply(o, t).value|
  {
    if t.Match? {
      CopyLength(o, LengthBase(t.lsym) + t.lextra, DistanceBase(t.dsym) + t.dextra);
    }
  }

  /** If one token does not fit, neither does the whole list. */
  lemma LaterTooBig(o: seq<byte>, ts: seq<Token>, limit: nat)
    requires ts != []
    ensures TooBig(Apply(o, ts[0]), limit) ==> TooBig(ApplyAll(o, ts), limit)
  {
    if Apply(o, ts[0]).Some? && ApplyAll(o, ts).Some? {
      ApplyAllGrows(Apply(o, ts[0]).value, ts[1..]);
    }
  }

  /** A 16-bit little-endian load. */
  function Half(s: seq<byte>, i: nat): nat
    requires i + 2 <= |s|
  {
    var b0: nat, b1: nat := s[i], s[i + 1];
    b0 + b1 * 0x100
  }

  lemma HalfBits(s: seq<byte>, i: nat)
    requires i + 2 <= |s|
    ensures BitsAt(s, 8 * i, 16) == Half(s, i)
  {
    ByteBits(s, i);
    ByteBits(s, i + 1);
    AppendBits(s, 8 * i, 8, 8);
    PowTable();
  }

  /** A stored block is ahead and ends before the stream does. */
  ghost predicate StoredAhead(s: seq<byte>, p: nat, pinend: nat, b: Block) {
    b.Stored? && BodyAt(s, p, b) && BodyEnd(p, b) <= 8 * pinend
  }

  /** Where the parts of a stored block are, in bytes, if its header does not end on a byte boundary. */
  lemma StoredParts(s: seq<byte>, p: nat, pinend: nat, b: Block)
    requires StoredAhead(s, p, pinend, b) && p % 8 != 0
    ensures var i := p / 8 + 1;
      && StoredLengthAt(p) == 8 * i && i + 4 + |b.data| <= pinend && i + 4 + |b.data| <= |s|
      && Half(s, i) == |b.data| && Half(s, i + 2) == 0xffff - |b.data| && BytesAt(s, i + 4, b.data)
      && BodyEnd(p, b) == 8 * (i + 4 + |b.data|)
  {
    hide BitsAt;
    var i := p / 8 + 1;
    assert p + |b.pad| == 8 * i;
    HalfBits(s, i);
    HalfBits(s, i + 2);
    assert 8 * (i + 2) == 8 * i + 16;
  }

  /** The byte at `i` is the low byte of `n`. */
  predicate LowByteAt(s: seq<byte>, i: nat, n: nat) {
    i < |s| && s[i] as int == n % 0x100
  }

  /**
   * A stored block whose header does end on a byte boundary: the decoder reads the length one byte
   * late.  Its check of the length against the complement only notices if the byte behind the
   * complement differs from the low byte of the length, and the length it then uses is never the
   * right one.
   */
  lemma MisreadLength(s: seq<byte>, p: nat, b: Block)
    requires b.Stored? && BodyAt(s, p, b) && p % 8 == 0 && p / 8 + 5 <= |s|
    ensures var i := StoredLengthAt(p) / 8;
      && i + 4 <= |s|
      && (Half(s, i) == 0xffff - Half(s, i + 2) <==> LowByteAt(s, p / 8 + 4, |b.data|))
      && (Half(s, i) == 0xffff - Half(s, i + 2) ==> Half(s, i) != |b.data|)
  {
    hide BodyAt, Half;
    var i := p / 8;
    StoredBytes(s, p, b);
    HalfParts(s, i);
    HalfParts(s, i + 1);
    HalfParts(s, i + 2);
    HalfParts(s, i + 3);
    OneByteLate(s[i], s[i + 1], s[i + 2], s[i + 3], s[i + 4], |b.data|);
  }

  lemma StoredBytes(s: seq<byte>, p: nat, b: Block)
    requires b.Stored? && BodyAt(s, p, b) && p % 8 == 0
    ensures var i := p / 8;
      && StoredLengthAt(p) / 8 == i + 1 && i + 4 <= |s|
      && Half(s, i) == |b.data| && Half(s, i + 2) == 0xffff - |b.data|
  {
    hide BitsAt, Half;
    var i := p / 8;
    HalfBits(s, i);
    HalfBits(s, i + 2);
    NoPadding(p, |b.pad|);
    assert 8 * (i + 2) == 8 * i + 16;
  }

  lemma NoPadding(p: nat, pad: nat)
    requires p % 8 == 0 && (p + pad) % 8 == 0 && pad < 8
    ensures pad == 0 && p == 8 * (p / 8)
  {
  }

  /** In a block with data the byte behind the complement is the first data byte. */
  lemma FirstDataByte(s: seq<byte>, p: nat, b: Block)
    requires b.Stored? && BodyAt(s, p, b) && p % 8 == 0 && b.data != []
    ensures p / 8 + 5 <= |s| && s[p / 8 + 4] == b.data[0]
  {
    hide NumAt;
    var i := p / 8;
    assert p + |b.pad| == 8 * i;
    assert s[i + 4] == s[i + 4..i + 4 + |b.data|][0];
  }

  lemma HalfParts(s: seq<byte>, i: nat)
    requires i + 2 <= |s|
    ensures Half(s, i) == s[i] as int + 0x100 * s[i + 1] as int
  {
  }

  /** The length `a, b`, its complement `c, d` and the byte `e` behind it, taken one byte too far. */
  lemma OneByteLate(a: int, b: int, c: int, d: int, e: int, length: nat)
    requires 0 <= a < 0x100 && 0 <= b < 0x100 && 0 <= c < 0x100 && 0 <= d < 0x100 && 0 <= e < 0x100
    requires a + 0x100 * b == length && c + 0x100 * d == 0xffff - length
    ensures b + 0x100 * c == 0xffff - (d + 0x100 * e) <==> e == length % 0x100
    ensures b + 0x100 * c != length
  {
    assert c == 0xff - a && d == 0xff - b;
    assert length % 0x100 == a;
    var k := 0x100 - a - b;
    assert b + 0x100 * c - length == 255 * k - 2 * a;
  }

  /** What the decoder finds where it looks for the length of a stored block. */
  lemma StoredRead(s: seq<byte>, p: nat, pinend: nat, b: Block)
    requires StoredAhead(s, p, pinend, b) && pinend < |s|
    ensures var i := p / 8 + 1;
      && i + 4 <= |s|
      && (p % 8 != 0 ==> RightlyRead(s, p, i, pinend, b))
      && (p % 8 == 0 ==> Half(s, i) == 0xffff - Half(s, i + 2) ==> WronglyRead(s, p, i, b))
  {
    hide BitsAt, Half, NumAt;
    if p % 8 == 0 {
      MisreadLength(s, p, b);
    } else {
      StoredParts(s, p, pinend, b);
    }
  }

  ghost predicate RightlyRead(s: seq<byte>, p: nat, i: nat, pinend: nat, b: Block)
    requires i + 4 <= |s| && b.Stored?
  {
    && i + 4 + |b.data| <= pinend && BytesAt(s, i + 4, b.data) && BodyEnd(p, b) == 8 * (i + 4 + |b.data|)
    && Half(s, i) == |b.data| && Half(s, i + 2) == 0xffff - |b.data|
  }

  predicate WronglyRead(s: seq<byte>, p: nat, i: nat, b: Block)
    requires i + 4 <= |s| && b.Stored?
  {
    LowByteAt(s, p / 8 + 4, |b.data|) && Half(s, i) != |b.data|
  }

  /** Copies an uncompressed block: rightly, if and only if its header does not end on a byte boundary. */
  method StoredBlock(r: Reader, out: array<byte>, pout0: nat, ghost b: Block) returns (ok: bool, pout: nat)
    requires r.Valid() && 1 <= r.bits && pout0 <= out.Length
    modifies r, out
    ensures r.Buffered() && (ok ==> r.Valid()) && old(r.Pos()) < r.Pos()
    ensures pout0 <= pout <= out.Length && out[..pout0] == old(out[..pout0])
    ensures StoredAhead(r.input, old(r.Pos()), r.pinend, b) && pout0 + |b.data| <= out.Length ==>
      (ok && out[..pout] == old(out[..pout0]) + b.data <==> old(r.Pos()) % 8 != 0)
    ensures StoredAhead(r.input, old(r.Pos()), r.pinend, b) && old(r.Pos()) % 8 != 0 ==>
      if ok then out[..pout] == old(out[..pout0]) + b.data && r.Pos() == BodyEnd(old(r.Pos()), b)
      else pout0 + |b.data| > out.Length
    ensures ok && StoredAhead(r.input, old(r.Pos()), r.pinend, b) && old(r.Pos()) % 8 == 0 ==>
      LowByteAt(r.input, old(r.Pos()) / 8 + 4, |b.data|)
  {
    hide BitsAt, BodyAt, BodyEnd, Half, Aligned, LowByteAt;
    ghost var p, o := r.Pos(), out[..pout0];
    if StoredAhead(r.input, p, r.pinend, b) {
      StoredRead(r.input, p, r.pinend, b);
    }
    pout := pout0;
    r.BackUp();
    assert r.pin == p / 8 + 1;
    if r.pinend - r.pin < 4 {
      return false, pout;
    }
    var len := Half(r.input, r.pin);
    var lenc := Half(r.input, r.pin + 2);
    r.Skip(4);
    if len != 0xffff - lenc {
      return false, pout;
    }
    if len > r.pinend - r.pin || len > out.Length - pout {
      return false, pout;
    }
    CopyIn(r.input, r.pin, len, out, pout);
    pout := pout + len;
    r.Skip(len);
    r.Align();
    ok := true;
  }

  /** memcpy from the input to the output. */
  method CopyIn(input: seq<byte>, pin: nat, len: nat, out: array<byte>, pout: nat)
    requires pin + len <= |input| && pout + len <= out.Length
    modifies out
    ensures out[..pout] == old(out[..pout]) && out[..pout + len] == old(out[..pout]) + input[pin..pin + len]
  {
    forall k | 0 <= k < len {
      out[pout + k] := input[pin + k];
    }
  }

  lemma {:induction false} TokensCodeEnd(s: seq<byte>, p: nat, lit: seq<byte>, dist: seq<byte>, ts: seq<Token>)
    requires TokensAt(s, p, lit, dist, ts)
    ensures Coded(lit, 256)
    decreases |ts|
  {
    if ts != [] {
      TokensCodeEnd(s, TokenEnd(p, lit, dist, ts[0]), lit, dist, ts[1..]);
    }
  }

  /** The blocks `bs` are ahead, each stored one where the decoder can find its length. */
  ghost predicate BlocksAhead(s: seq<byte>, p: nat, pinend: nat, bs: seq<Block>) {
    BlocksAt(s, p, bs) && OffBoundaryAt(p, bs) && BlocksEnd(p, bs) <= 8 * pinend
  }

  /**
   * How many bits before the end of a block the decoder last makes sure of 15 bits: at its
   * end-of-block code, or at the very start of a stored block.
   */
  function EndCode(b: Block): nat {
    match b
    case Stored(pad, data) => 35 + |pad| + 8 * |data|
    case Fixed(_) => SymLength(FixedLit(), 256)
    case Dynamic(_, _, _, _, _, _) => SymLength(DynamicLit(b), 256)
  }

  lemma BodyEndAfter(s: seq<byte>, p: nat, b: Block)
    requires BodyAt(s, p, b)
    ensures p < BodyEnd(p, b) && p + EndCode(b) <= BodyEnd(p, b) + 3 && (b.Stored? || p + EndCode(b) <= BodyEnd(p, b))
  {
    hide TokensAt, TokensEnd, HeaderOk, NumAt, ItemsAt, OrderAt, BytesAt, SymLength;
    match b
    case Stored(_, _) =>
    case Fixed(ts) => TokensEndAfter(s, p, FixedLit(), FixedDist(), ts);
    case Dynamic(_, _, nclen, cl, items, ts) =>
      ItemsEndAfter(s, p + 14 + 3 * nclen, cl, items);
      TokensEndAfter(s, HeaderEnd(p, b), DynamicLit(b), DynamicDist(b), ts);
  }

  /** The bit at which the decoder last makes sure of 15 bits, if the blocks end at bit `end`. */
  function LastRefill(bs: seq<Block>, end: nat): nat
    requires bs != []
  {
    Sub(end, EndCode(bs[|bs| - 1]))
  }

  lemma {:induction false} BlocksEndAfter(s: seq<byte>, p: nat, bs: seq<Block>)
    requires BlocksAt(s, p, bs)
    ensures p <= BlocksEnd(p, bs)
    ensures bs != [] ==> p + 3 < BodyEnd(p + 3, bs[0]) <= BlocksEnd(p, bs)
    ensures bs != [] ==> p + EndCode(bs[0]) <= BodyEnd(p + 3, bs[0])
    ensures bs != [] ==> p + EndCode(bs[|bs| - 1]) <= BlocksEnd(p, bs)
    ensures |bs| > 1 ==> BodyEnd(p + 3, bs[0]) + EndCode(bs[|bs| - 1]) <= BlocksEnd(p, bs)
    decreases |bs|
  {
    hide BodyAt, BodyEnd, EndCode;
    if bs != [] {
      BodyEndAfter(s, p + 3, bs[0]);
      BlocksEndAfter(s, BodyEnd(p + 3, bs[0]), bs[1..]);
    }
  }

  /** The work area the inflate code is given, and the tables of the fixed codes. */
  class Work {
    const next: array<u16>
    const tlit: array<u16>
    const tdist: array<u16>
    const lens: array<byte>
    const fixedLit: array<u16>
    const fixedDist: array<u16>

    ghost predicate Valid()
      reads fixedLit, fixedDist
    {
      && next.Length == 316 && tlit.Length == tdist.Length == 1024 && lens.Length == 316
      && fixedLit.Length == fixedDist.Length == 1024
      && next != tlit && next != tdist && tlit != tdist
      && fixedLit !in {next, tlit, tdist} && fixedDist !in {next, tlit, tdist}
      && lens as object !in {next as object, tlit, tdist, fixedLit, fixedDist}
      && Decodes(FixedLit(), fixedLit[..]) && Decodes(FixedDist(), fixedDist[..])
    }

    constructor (fixedLit: array<u16>, fixedDist: array<u16>)
      requires fixedLit.Length == fixedDist.Length == 1024
      requires Decodes(FixedLit(), fixedLit[..]) && Decodes(FixedDist(), fixedDist[..])
      ensures Valid() && fresh(Scratch()) && this.fixedLit == fixedLit && this.fixedDist == fixedDist
    {
      next, lens := new u16[316](_ => 0), new byte[316](_ => 0);
      tlit, tdist := new u16[1024](_ => 0), new u16[1024](_ => 0);
      this.fixedLit, this.fixedDist := fixedLit, fixedDist;
    }

    /** What inflating writes to; the tables of the fixed codes are only read. */
    ghost function Scratch(): set<object> {
      {next as object, tlit, tdist, lens}
    }

    /** The output buffer is none of the work areas. */
    ghost predicate Apart(out: array<byte>) {
      out as object !in Scratch() + {fixedLit as object, fixedDist}
    }
  }

  /** One block that starts at bit `p` was inflated, and the words up to byte `pin` were read for it. */
  ghost predicate BlockDone(p: nat, q: nat, pin: nat, b: Block, o: seq<byte>, o': seq<byte>) {
    && q == BodyEnd(p + 3, b) && ApplyBlock(o, b) == Some(o') && !Refused(b)
    && (b.Stored? || 8 * pin + EndCode(b) >= q + 15)
  }

  /** Why a block could not be inflated. */
  ghost predicate BlockStuck(starved: bool, p: nat, q: nat, b: Block, o: seq<byte>, limit: nat) {
    (starved && q + EndCode(b) <= BodyEnd(p + 3, b)) || TooBig(ApplyBlock(o, b), limit) || Refused(b)
  }

  lemma StoredDone(p: nat, pin: nat, b: Block, o: seq<byte>)
    requires b.Stored?
    ensures BlockDone(p, BodyEnd(p + 3, b), pin, b, o, o + b.data)
  {
  }

  lemma StuckAtStart(p: nat, b: Block, o: seq<byte>, limit: nat)
    requires p + EndCode(b) <= BodyEnd(p + 3, b)
    ensures BlockStuck(true, p, p, b, o, limit)
  {
  }

  lemma StoredStuck(starved: bool, p: nat, q: nat, b: Block, o: seq<byte>, limit: nat)
    requires b.Stored?
    ensures |o| + |b.data| > limit ==> BlockStuck(starved, p, q, b, o, limit)
  {
  }

  /** Inflates the compressed body of a block of the given type. */
  method CompressedBlock(r: Reader, kind: nat, w: Work, out: array<byte>, pout0: nat, ghost b: Block)
    returns (ok: bool, pout: nat)
    requires r.Valid() && w.Valid() && w.Apart(out) && pout0 <= out.Length && 1 <= kind <= 2
    modifies r, out, w.Scratch()
    ensures r.Valid() && w.Valid()
    ensures pout0 <= pout <= out.Length && out[..pout0] == old(out[..pout0]) && old(r.Pos()) <= r.Pos()
    ensures old(r.Pos()) >= 3 && BodyAt(r.input, old(r.Pos()), b) && BlockType(b) == kind ==>
      var p, o := old(r.Pos()) - 3, old(out[..pout0]);
      if ok then BlockDone(p, r.Pos(), r.pin, b, o, out[..pout])
      else BlockStuck(r.Starved(), p, r.Pos(), b, o, out.Length)
  {
    hide Decodes, Kraft, HeaderOk, HeaderAt, HeaderEnd, DynamicLit, DynamicDist, FixedLit, FixedDist, TokensAt, TokensEnd,
      ApplyAll, TooManyTables, SymLength;
    ghost var p, o := r.Pos(), out[..pout0];
    ghost var good := p >= 3 && BodyAt(r.input, p, b) && BlockType(b) == kind;
    pout := pout0;
    if kind == 1 {
      ok, pout := InflateBlock(r, w.fixedLit, w.fixedDist, out, pout, FixedLit(), FixedDist(), if good then b.tokens else []);
    } else {
      if good {
        TokensCodeEnd(r.input, HeaderEnd(p, b), DynamicLit(b), DynamicDist(b), b.tokens);
        TokensEndAfter(r.input, HeaderEnd(p, b), DynamicLit(b), DynamicDist(b), b.tokens);
      }
      ok := ReadTables(r, w.next, w.tlit, w.tdist, w.lens, b);
      if !ok {
        return;
      }
      assert out[..pout] == o;
      ok, pout := InflateBlock(r, w.tlit, w.tdist, out, pout,
                               if good then DynamicLit(b) else [], if good then DynamicDist(b) else [],
                                if good then b.tokens else []);
    }
  }

  /** Reads a block header and inflates the block. */
  method OneBlock(r: Reader, w: Work, out: array<byte>, pout0: nat, ghost bs: seq<Block>)
    returns (ok: bool, last: bool, pout: nat)
    requires r.Valid() && w.Valid() && w.Apart(out) && pout0 <= out.Length
    modifies r, out, w.Scratch()
    ensures r.Buffered() && (ok ==> r.Valid()) && w.Valid()
    ensures pout0 <= pout <= out.Length && out[..pout0] == old(out[..pout0])
    ensures old(r.Pos()) <= r.Pos() && (ok ==> old(r.Pos()) < r.Pos())
    ensures BlocksAhead(r.input, old(r.Pos()), r.pinend, bs) && bs != [] ==>
      var p, o := old(r.Pos()), old(out[..pout0]);
      if ok then BlockDone(p, r.Pos(), r.pin, bs[0], o, out[..pout]) && last == (|bs| == 1)
      else BlockStuck(r.Starved(), p, r.Pos(), bs[0], o, out.Length)
  {
    hide Decodes, BodyAt, BodyEnd, Refused, Expand, OffBoundaryAt, BitsAt, EndCode, BlockDone, BlockStuck, ApplyBlock,
      BlocksEnd, StoredAhead, Pow, Reader.OnWord;
    ghost var p, o := r.Pos(), out[..pout0];
    ghost var good := BlocksAhead(r.input, p, r.pinend, bs) && bs != [];
    ghost var b := if bs == [] then Stored([], []) else bs[0];
    if good {
      BlocksEndAfter(r.input, p, bs);
      FirstOffBoundary(p, bs);
    }
    pout, last := pout0, false;
    ok := r.Fetch();
    if !ok {
      if good {
        StuckAtStart(p, b, o, out.Length);
      }
      return;
    }
    PowTable();
    var v := r.Take(1);
    last := v == 1;
    var kind := r.Take(2);
    assert out[..pout] == o;
    if kind == 3 {
      return false, last, pout;
    }
    if kind == 0 {
      if good {
        StoredIsAhead(r.input, p, r.pinend, bs);
      }
      ok, pout := StoredBlock(r, out, pout, if good then b else Stored([], []));
      if good {
        StoredDone(p, r.pin, b, o);
        StoredStuck(r.Starved(), p, r.Pos(), b, o, out.Length);
      }
    } else {
      ok, pout := CompressedBlock(r, kind, w, out, pout, b);
    }
  }

  lemma FirstOffBoundary(p: nat, bs: seq<Block>)
    requires OffBoundaryAt(p, bs) && bs != []
    ensures bs[0].Stored? ==> (p + 3) % 8 != 0
    ensures OffBoundaryAt(BodyEnd(p + 3, bs[0]), bs[1..])
  {
  }

  lemma StoredIsAhead(s: seq<byte>, p: nat, pinend: nat, bs: seq<Block>)
    requires BlocksAhead(s, p, pinend, bs) && bs != [] && BlockType(bs[0]) == 0
    ensures StoredAhead(s, p + 3, pinend, bs[0]) && (p + 3) % 8 != 0
  {
    BlocksEndAfter(s, p, bs);
  }

  lemma BlocksRest(s: seq<byte>, p: nat, pinend: nat, bs: seq<Block>)
    requires BlocksAhead(s, p, pinend, bs) && bs != []
    ensures BlocksAhead(s, BodyEnd(p + 3, bs[0]), pinend, bs[1..])
    ensures BlocksEnd(p, bs) == BlocksEnd(BodyEnd(p + 3, bs[0]), bs[1..])
  {
  }

  ghost predicate AnyRefused(bs: seq<Block>) {
    exists i :: 0 <= i < |bs| && Refused(bs[i])
  }

  lemma {:induction false} ExpandGrows(o: seq<byte>, bs: seq<Block>)
    requires Expand(o, bs).Some?
    ensures |o| <= |Expand(o, bs).value|
    decreases |bs|
  {
    if bs != [] {
      match bs[0] {
        case Stored(_, _) =>
        case Fixed(ts) => ApplyAllGrows(o, ts);
        case Dynamic(_, _, _, _, _, ts) => ApplyAllGrows(o, ts);
      }
      ExpandGrows(ApplyBlock(o, bs[0]).value, bs[1..]);
    }
  }

  /** If one block does not fit, neither does the whole stream. */
  lemma LaterBlockTooBig(o: seq<byte>, bs: seq<Block>, limit: nat)
    requires bs != []
    ensures TooBig(ApplyBlock(o, bs[0]), limit) ==> TooBig(Expand(o, bs), limit)
  {
    if ApplyBlock(o, bs[0]).Some? && Expand(o, bs).Some? {
      ExpandGrows(ApplyBlock(o, bs[0]).value, bs[1..]);
    }
  }

  /** Reads blocks until one is marked last. */
  method AllBlocks(r: Reader, w: Work, out: array<byte>, pout0: nat, ghost bs: seq<Block>)
    returns (ok: bool, pout: nat)
    requires r.Valid() && w.Valid() && w.Apart(out) && pout0 <= out.Length
    modifies r, out, w.Scratch()
    ensures r.Buffered() && (ok ==> r.Valid()) && w.Valid()
    ensures pout0 <= pout <= out.Length && out[..pout0] == old(out[..pout0]) && old(r.Pos()) <= r.Pos()
    ensures BlocksAhead(r.input, old(r.Pos()), r.pinend, bs) && bs != [] ==>
      var p, o, q := old(r.Pos()), old(out[..pout0]), LastRefill(bs, BlocksEnd(old(r.Pos()), bs));
      if ok then
        && r.Pos() == BlocksEnd(p, bs) && Expand(o, bs) == Some(out[..pout]) && !AnyRefused(bs)
        && (bs[|bs| - 1].Stored? || 8 * r.pin >= q + 15)
      else (r.Starved() && r.Pos() <= q) || TooBig(Expand(o, bs), out.Length) || AnyRefused(bs)
  {
    hide Decodes, BodyAt, BodyEnd, Refused, ApplyBlock, BlocksAhead, Expand, BlocksEnd, EndCode, LastRefill,
      AnyRefused, Reader.OnWord;
    ghost var o, end := out[..pout0], BlocksEnd(r.Pos(), bs);
    ghost var good := BlocksAhead(r.input, r.Pos(), r.pinend, bs) && bs != [];
    ghost var q := if bs == [] then 0 else LastRefill(bs, end);
    ghost var result := Expand(o, bs);
    ghost var todo, i := bs, 0;
    pout := pout0;
    var last := false;
    ok := true;
    while ok && !last
      invariant r.Buffered() && (ok ==> r.Valid()) && w.Valid()
      invariant pout0 <= pout <= out.Length && out[..pout0] == o && old(r.Pos()) <= r.Pos()
      invariant good ==> 0 <= i <= |bs| && todo == bs[i..]
      invariant good && ok ==> (last <==> todo == []) && BlocksAhead(r.input, r.Pos(), r.pinend, todo)
      invariant good && ok ==> BlocksEnd(r.Pos(), todo) == end && Expand(out[..pout], todo) == result
      invariant good && ok ==> forall k :: 0 <= k < i ==> !Refused(bs[k])
      invariant good && ok && last ==> bs[|bs| - 1].Stored? || 8 * r.pin >= q + 15
      invariant good && !ok ==> (r.Starved() && r.Pos() <= q) || TooBig(result, out.Length) || AnyRefused(bs)
      decreases 8 * |r.input| - r.Pos(), ok, !last
    {
      ghost var was, p := out[..pout], r.Pos();
      if good {
        LaterBlockTooBig(was, todo, out.Length);
        BlocksRest(r.input, p, r.pinend, todo);
        ExpandStep(was, todo);
        RefillWithin(r.input, p, r.pinend, bs, i);
        OneRefused(bs, i);
        assert todo[0] == bs[i];
      }
      ok, last, pout := OneBlock(r, w, out, pout, todo);
      todo := if todo == [] then [] else todo[1..];
      i := i + 1;
    }
    NothingLeft(r.Pos(), out[..pout]);
    NoneRefused(bs);
  }

  lemma OneRefused(bs: seq<Block>, i: nat)
    requires i < |bs|
    ensures Refused(bs[i]) ==> AnyRefused(bs)
  {
  }

  lemma NoneRefused(bs: seq<Block>)
    ensures (forall k :: 0 <= k < |bs| ==> !Refused(bs[k])) ==> !AnyRefused(bs)
  {
  }

  lemma ExpandStep(o: seq<byte>, bs: seq<Block>)
    requires bs != []
    ensures ApplyBlock(o, bs[0]).Some? ==> Expand(o, bs) == Expand(ApplyBlock(o, bs[0]).value, bs[1..])
  {
  }

  lemma NothingLeft(p: nat, o: seq<byte>)
    ensures BlocksEnd(p, []) == p && Expand(o, []) == Some(o)
  {
  }

  /** A block is refilled for no later than the last one. */
  lemma RefillWithin(s: seq<byte>, p: nat, pinend: nat, bs: seq<Block>, i: nat)
    requires i < |bs| && BlocksAhead(s, p, pinend, bs[i..])
    ensures var b, q, end := bs[i], LastRefill(bs, BlocksEnd(p, bs[i..])), BodyEnd(p + 3, bs[i]);
            && end <= BlocksEnd(p, bs[i..]) && end <= q + EndCode(b)
            && (i == |bs| - 1 ==> end == q + EndCode(b))
  {
    hide BodyEnd, EndCode, BlocksAt, OffBoundaryAt, BlocksEnd;
    BlocksEndAfter(s, p, bs[i..]);
    assert bs[i..][|bs| - i - 1] == bs[|bs| - 1];
    if i == |bs| - 1 {
      LastBlockEnd(p, bs[i..]);
    }
  }

  lemma LastBlockEnd(p: nat, bs: seq<Block>)
    requires |bs| == 1
    ensures BlocksEnd(p, bs) == BodyEnd(p + 3, bs[0])
  {
    hide BodyEnd;
    assert bs[1..] == [];
  }

  /** The two-byte header of section 2.2 of RFC 1950, as far as the decoder cares about it. */
  predicate HeaderBytesOk(b0: byte, b1: byte) {
    var x: nat, y: nat := b0, b1;
    x % 16 == 8 && x / 16 <= 7 && y / 32 % 2 == 0 && (x * 256 + y) % 31 == 0
  }

  /** The fields of the header of section 2.2 of RFC 1950, without a preset dictionary. */
  predicate HeaderFields(b0: byte, b1: byte, cinfo: nat, flevel: nat, fcheck: nat) {
    && cinfo <= 7 && flevel <= 3 && fcheck <= 31
    && b0 == 8 + 16 * cinfo && b1 == 64 * flevel + fcheck && (256 * b0 + b1) % 31 == 0
  }

  lemma FieldsTaken(b0: byte, b1: byte, cinfo: nat, flevel: nat, fcheck: nat)
    requires HeaderFields(b0, b1, cinfo, flevel, fcheck)
    ensures HeaderBytesOk(b0, b1)
  {
    HeaderLow(cinfo, 8, 16);
    HeaderLow(2 * flevel, fcheck, 32);
  }

  lemma HeaderLow(q: nat, r: nat, d: nat)
    requires r < d
    ensures (r + d * q) % d == r && (r + d * q) / d == q
  {
    assert d * q == q * d;
    DivModUnique(r + d * q, q, r, d);
  }

  lemma FieldsOf(b0: byte, b1: byte) returns (cinfo: nat, flevel: nat, fcheck: nat)
    requires HeaderBytesOk(b0, b1)
    ensures HeaderFields(b0, b1, cinfo, flevel, fcheck)
  {
    cinfo, flevel, fcheck := b0 / 16, b1 / 64, b1 % 64;
  }

  /** Exactly the headers with method 8, a window of at most 32768 bytes and no dictionary are taken. */
  lemma HeaderBytesIff(b0: byte, b1: byte)
    ensures HeaderBytesOk(b0, b1) <==> exists cinfo, flevel, fcheck :: HeaderFields(b0, b1, cinfo, flevel, fcheck)
  {
    hide HeaderBytesOk, HeaderFields;
    if HeaderBytesOk(b0, b1) {
      var _, _, _ := FieldsOf(b0, b1);
    } else if exists cinfo, flevel, fcheck :: HeaderFields(b0, b1, cinfo, flevel, fcheck) {
      var cinfo, flevel, fcheck :| HeaderFields(b0, b1, cinfo, flevel, fcheck);
      FieldsTaken(b0, b1, cinfo, flevel, fcheck);
    }
  }

  /** The checks of the two header bytes. */
  method CheckHeader(b0: byte, b1: byte) returns (ok: bool)
    ensures ok <==> HeaderBytesOk(b0, b1)
  {
    if b0 % 16 != 8 || b0 / 16 > 7 || b1 / 32 % 2 != 0 {
      return false;
    }
    var val: nat := b0 as int * 256 + b1 as int;
    ok := val % 31 == 0;
  }

  /** The first `sin` bytes are a zlib stream of these blocks, followed by its 4-byte checksum. */
  ghost predicate ZlibStream(input: seq<byte>, sin: nat, bs: seq<Block>) {
    && 2 <= sin <= |input| && HeaderBytesOk(input[0], input[1]) && bs != []
    && BlocksOk(16, bs) && EncodedAt(input, 16, EncodeBlocks(bs))
    && sin == StreamLength(bs)
  }

  /** The output of the blocks fills a buffer of this size. */
  predicate FitsExactly(bs: seq<Block>, size: nat) {
    Expand([], bs).Some? && |Expand([], bs).value| == size
  }

  /** Where the last refill for a stream of these blocks takes place, the first of them at bit 16. */
  function LastRefillOf(bs: seq<Block>): nat
    requires bs != []
  {
    LastRefill(bs, 16 + |EncodeBlocks(bs)|)
  }

  /** The length of the whole stream: 2 bytes before the blocks, and 4 after them. */
  function StreamLength(bs: seq<Block>): nat {
    (16 + |EncodeBlocks(bs)| + 7) / 8 + 4
  }

  /** How many bits are left in the last byte of the blocks. */
  function Padding(bs: seq<Block>): nat {
    8 * (StreamLength(bs) - 4) - (16 + |EncodeBlocks(bs)|)
  }

  /**
   * The last refill, which takes a whole word even where less would do, stays inside the stream: if
   * the end-of-block code of a dynamic block and the padding behind it have less than 7 bits
   * together, that depends on the address of the end of the stream.
   */
  predicate RefillInside(bs: seq<Block>, align: nat)
    requires bs != []
  {
    var b := bs[|bs| - 1];
    b.Dynamic? && EndCode(b) + Padding(bs) < 7 ==> (align + StreamLength(bs)) % 4 != 3
  }

  lemma RefillInsideIff(bs: seq<Block>, align: nat)
    requires bs != []
    ensures WordEnd(align, LastRefillOf(bs)) <= StreamLength(bs) <==> RefillInside(bs, align)
  {
    hide EncodeBlocks, EndCode, WordEnd;
    var b, end := bs[|bs| - 1], 16 + |EncodeBlocks(bs)|;
    EndCodeBounds(b);
    WordEndIs(align, LastRefillOf(bs));
    if b.Stored? {
      FarRefill(end, Sub(end, EndCode(b)), align);
    } else {
      NearRefill(end, EndCode(b), align);
    }
  }

  lemma FarRefill(end: nat, q: nat, align: nat)
    requires end >= 16 && (q == 0 || q + 35 <= end)
    ensures (q + 22) / 8 + 3 <= (end + 7) / 8 + 4
  {
  }

  /** A refill `c` bits before the end of the blocks, whose last byte has `pad` more bits. */
  lemma NearRefill(end: nat, c: nat, align: nat)
    requires end >= 16 && c <= 15
    ensures var a, length := (end - c + 22) / 8, (end + 7) / 8 + 4;
            var pad := 8 * (length - 4) - end;
            && (c + pad >= 7 ==> a + 3 <= length)
            && (c + pad < 7 ==> a + 2 == length)
  {
  }

  lemma EndCodeBounds(b: Block)
    ensures b.Stored? ==> EndCode(b) >= 35
    ensures b.Fixed? ==> EndCode(b) == 7
    ensures b.Dynamic? ==> EndCode(b) <= 15
  {
  }

  /** elf_zlib_inflate: inflates the `sin` bytes of input into the whole output buffer. */
  method InflateStream(input: seq<byte>, sin: nat, align: nat, w: Work, out: array<byte>, ghost bs: seq<Block>)
    returns (ok: bool)
    requires sin + 3 <= |input| && w.Valid() && w.Apart(out)
    modifies out, w.Scratch()
    ensures w.Valid()
    ensures ok && sin > 4 ==> HeaderBytesOk(input[0], input[1])
    ensures ok && ZlibStream(input, sin, bs) && OffBoundary(16, bs) ==> Expand([], bs) == Some(out[..])
    ensures ZlibStream(input, sin, bs) && OffBoundary(16, bs) ==>
      (ok <==> FitsExactly(bs, out.Length) && !AnyRefused(bs) && RefillInside(bs, align))
  {
    hide Decodes, EncodeBlocks, Expand, BlocksOk, OffBoundary, AnyRefused, HeaderBytesOk, RefillInside, EndCode,
      Aligned, BitsAt, LastRefill, BlocksAhead;
    ghost var good := ZlibStream(input, sin, bs) && OffBoundary(16, bs);
    if good {
      StreamAhead(input, sin, bs);
    }
    var pin, pout := 0, 0;
    assert out[..0] == [];
    while sin - pin > 4
      invariant 0 <= pin <= sin + 3 && 0 <= pout <= out.Length && w.Valid()
      invariant good ==> (pin == 0 && pout == 0) || (sin - pin <= 4 && Inflated(bs, align, out[..pout]))
      invariant pin != 0 ==> HeaderBytesOk(input[0], input[1])
      decreases sin + 3 - pin
    {
      ok := CheckHeader(input[pin], input[pin + 1]);
      if !ok {
        return;
      }
      var r := new Reader(input, sin, align, pin + 2);
      r.Align();
      ghost var o := out[..pout];
      assert pout == 0 ==> o == [];
      ok, pout := AllBlocks(r, w, out, pout, bs);
      if good {
        Verdict(r, ok, bs);
      }
      if !ok {
        return;
      }
      pin := r.pin;
    }
    ok := pout == out.Length;
    if good {
      assert out[..out.Length] == out[..];
    }
  }

  /** All blocks were inflated into `o`. */
  ghost predicate Inflated(bs: seq<Block>, align: nat, o: seq<byte>)
    requires bs != []
  {
    Expand([], bs) == Some(o) && !AnyRefused(bs) && RefillInside(bs, align)
  }

  lemma StreamAhead(input: seq<byte>, sin: nat, bs: seq<Block>)
    requires ZlibStream(input, sin, bs) && OffBoundary(16, bs)
    ensures BlocksAhead(input, 16, sin, bs) && BlocksEnd(16, bs) == 16 + |EncodeBlocks(bs)| && sin > 6
  {
    BlocksEncoded(input, 16, bs);
  }

  /** What the position of the reader says about the last refill. */
  lemma Verdict(r: Reader, ok: bool, bs: seq<Block>)
    requires bs != [] && r.Buffered() && r.pinend == StreamLength(bs)
    requires ok ==> r.Valid() && r.Pos() == 16 + |EncodeBlocks(bs)|
    requires ok ==> bs[|bs| - 1].Stored? || 8 * r.pin >= LastRefillOf(bs) + 15
    ensures ok ==> RefillInside(bs, r.align)
    ensures !ok && r.Starved() && r.Pos() <= LastRefillOf(bs) ==> !RefillInside(bs, r.align)
  {
    hide EncodeBlocks, WordEnd, Aligned, BitsAt, EndCode, LastRefillOf;
    var q := LastRefillOf(bs);
    RefillInsideIff(bs, r.align);
    if !ok && r.Starved() && r.Pos() <= q {
      StarvedPastEnd(r);
      WordEndMono(r.align, r.Pos(), q);
    } else if ok && !bs[|bs| - 1].Stored? {
      WordEndLeast(r.align, q, r.pin);
    }
  }
}
