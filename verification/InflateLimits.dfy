/** Well-formed streams that the inflate code cannot expand, one for each of its limits. */
module InflateLimits {
  import opened Bits
  import opened Huffman
  import opened SecondarySpace
  import opened InflateTable
  import opened FixedTables
  import opened Deflate
  import opened Layout
  import opened Inflate
  import opened Wrappers

  /** Three literals with 9-bit codes move the header of the stored block to a byte boundary. */
  function Shifted(data: seq<byte>): seq<Block> {
    [Fixed([Literal(144), Literal(144), Literal(144)]), Stored([], data)]
  }

  /**
   * A well-formed stream whose stored block the decoder cannot copy: its check refuses the block
   * unless the first data byte is the low byte of the length, and then it copies another length.
   */
  lemma ShiftedIsMisread(input: seq<byte>, data: seq<byte>)
    requires 0 < |data| < 0x1_0000
    ensures BlocksOk(16, Shifted(data)) && !OffBoundary(16, Shifted(data))
    ensures EncodedAt(input, 16, EncodeBlocks(Shifted(data))) ==>
      && |input| >= 12 && BodyAt(input, 56, Shifted(data)[1])
      && (Half(input, 8) == 0xffff - Half(input, 10) <==> data[0] as int == |data| % 0x100)
      && (Half(input, 8) == 0xffff - Half(input, 10) ==> Half(input, 8) != |data|)
  {
    hide EncodeBody, BodyAt, BodyEnd, Half, FixedLit, EncodedAt, BlocksAt;
    var bs := Shifted(data);
    ShiftedOk(data);
    if EncodedAt(input, 16, EncodeBlocks(bs)) {
      BlocksEncoded(input, 16, bs);
      ShiftedAt(input, data);
      FirstDataByte(input, 56, bs[1]);
      MisreadLength(input, 56, bs[1]);
    }
  }

  /** Literals with 9-bit codes, and the 7-bit end-of-block code. */
  lemma {:induction false} NineBitLiterals(p: nat, ts: seq<Token>)
    requires forall i :: 0 <= i < |ts| ==> ts[i] == Literal(144)
    ensures TokensOk(FixedLit(), FixedDist(), ts)
    ensures |EncodeTokens(FixedLit(), FixedDist(), ts)| == 9 * |ts| + 7
    ensures TokensEnd(p, FixedLit(), FixedDist(), ts) == p + 9 * |ts| + 7
    decreases |ts|
  {
    hide FixedLit, FixedDist;
    assert Coded(FixedLit(), 144) && Coded(FixedLit(), 256);
    if ts != [] {
      NineBitLiterals(p + 9, ts[1..]);
    }
  }

  lemma ShiftedOk(data: seq<byte>)
    requires |data| < 0x1_0000
    ensures BlocksOk(16, Shifted(data)) && !OffBoundary(16, Shifted(data))
  {
    hide EncodeBlock, BlockOk;
    var bs := Shifted(data);
    ShiftedFirst(data);
    ShiftedLength(data);
    OnBoundary(data);
    assert bs[1..] == [Stored([], data)];
  }

  lemma ShiftedFirst(data: seq<byte>)
    ensures BlockOk(16, Shifted(data)[0])
  {
    hide TokensOk, FixedLit, FixedDist;
    NineBitLiterals(19, Shifted(data)[0].tokens);
  }

  lemma OnBoundary(data: seq<byte>)
    requires |data| < 0x1_0000
    ensures BlocksOk(53, [Stored([], data)]) && !OffBoundary(53, [Stored([], data)])
  {
    hide EncodeBlock;
    assert [Stored([], data)][1..] == [];
  }

  lemma ShiftedLength(data: seq<byte>)
    ensures |EncodeBlock(Shifted(data)[0], false)| == 37
  {
    hide EncodeTokens, TokensOk, FixedLit, FixedDist, TokensEnd;
    NineBitLiterals(19, Shifted(data)[0].tokens);
  }

  lemma ShiftedAt(s: seq<byte>, data: seq<byte>)
    requires BlocksAt(s, 16, Shifted(data))
    ensures BodyAt(s, 56, Shifted(data)[1])
  {
    hide TokensAt, TokensEnd, FixedLit, FixedDist, BodyAt;
    var bs := Shifted(data);
    NineBitLiterals(19, bs[0].tokens);
    assert BodyEnd(19, bs[0]) == 53;
    assert bs[1..] == [bs[1]];
  }

  /** Code lengths sent one by one. */
  function PlainItems(lens: seq<byte>): (its: seq<LengthItem>)
    ensures |its| == |lens| && forall i :: 0 <= i < |its| ==> its[i] == Plain(lens[i])
  {
    seq(|lens|, i requires 0 <= i < |lens| => Plain(lens[i]))
  }

  lemma {:induction false} PlainApply(had: seq<byte>, lens: seq<byte>, its: seq<LengthItem>)
    requires |its| == |lens| && forall i :: 0 <= i < |its| ==> its[i] == Plain(lens[i])
    ensures ApplyItems(had, its) == Some(had + lens)
    decreases |lens|
  {
    if lens == [] {
      assert had + lens == had;
    } else {
      PlainApply(had + [lens[0]], lens[1..], its[1..]);
      assert had + [lens[0]] + lens[1..] == had + lens;
    }
  }

  /** A dynamic block with the given codes. */
  function DynamicOf(lit: seq<byte>, dist: seq<byte>, cl: seq<byte>, ts: seq<Token>): Block {
    Dynamic(|lit|, |dist|, 19, cl, PlainItems(lit + dist), ts)
  }

  lemma DynamicOfOk(lit: seq<byte>, dist: seq<byte>, cl: seq<byte>, ts: seq<Token>)
    requires 257 <= |lit| <= 286 && 1 <= |dist| <= 32 && Kraft(lit) && Kraft(dist)
    requires |cl| == 19 && Kraft(cl) && LengthsBelow(cl, 8)
    requires forall i :: 0 <= i < |lit + dist| ==> (lit + dist)[i] < 16 && Coded(cl, (lit + dist)[i])
    ensures var b := DynamicOf(lit, dist, cl, ts); HeaderOk(b) && DynamicLit(b) == lit && DynamicDist(b) == dist
  {
    hide Kraft, ApplyItems, PlainItems;
    var b, lens := DynamicOf(lit, dist, cl, ts), lit + dist;
    PlainApply([], lens, b.items);
    assert [] + lens == lens;
    assert lens[..|lit|] == lit && lens[|lit|..] == dist;
  }

  lemma {:induction false} KraftZeros(codes: seq<byte>, m: nat, n: nat)
    requires m <= n <= |codes| && forall s :: m <= s < n ==> codes[s] == 0
    ensures KraftSum(codes, 15, n) == KraftSum(codes, 15, m)
    decreases n
  {
    if m < n {
      KraftZeros(codes, m, n - 1);
    }
  }

  /** A code length code that has only 0 and 1, with one bit each. */
  function ZeroOne(): (cl: seq<byte>)
    ensures |cl| == 19 && forall i :: 0 <= i < 19 ==> cl[i] == if i <= 1 then 1 else 0
  {
    seq(19, i => if i <= 1 then 1 else 0)
  }

  /** A literal code for the byte 0 and the end of the block, with one bit each. */
  function TwoSymbols(): (lit: seq<byte>)
    ensures |lit| == 257 && forall s :: 0 <= s < 257 ==> lit[s] == if s == 0 || s == 256 then 1 else 0
  {
    seq(257, s => if s == 0 || s == 256 then 1 else 0)
  }

  lemma SmallCodes()
    ensures Kraft(ZeroOne()) && Complete(TwoSymbols()) && Kraft([1]) && Kraft([9])
  {
    hide KraftSum, ZeroOne, TwoSymbols, Room;
    PowTable();
    var cl, lit := ZeroOne(), TwoSymbols();
    KraftNone(cl);
    KraftRun(cl, 0, 2, 1);
    KraftZeros(cl, 2, 19);
    RoomIsProduct(2, 0x4000);
    KraftNone(lit);
    KraftRun(lit, 0, 1, 1);
    KraftZeros(lit, 1, 256);
    KraftRun(lit, 256, 257, 1);
    RoomIsProduct(1, 0x4000);
    KraftNone([1]);
    KraftRun([1], 0, 1, 1);
    KraftNone([9]);
    KraftRun([9], 0, 1, 9);
    RoomIsProduct(1, 64);
  }

  /** One zero byte, in a dynamic block whose end-of-block code has one bit. */
  function NarrowEnd(): Block {
    DynamicOf(TwoSymbols(), [1], ZeroOne(), [Literal(0)])
  }

  lemma {:induction false} OneBitItems(cl: seq<byte>, its: seq<LengthItem>)
    requires forall i :: 0 <= i < |its| ==> its[i].Plain? && Coded(cl, its[i].v) && cl[its[i].v] == 1
    ensures |EncodeItems(cl, its)| == |its|
    decreases |its|
  {
    if its != [] {
      OneBitItems(cl, its[1..]);
    }
  }

  lemma NarrowLength()
    ensures |EncodeBlock(NarrowEnd(), true)| == 334
  {
    hide ZeroOne, TwoSymbols, PlainItems, EncodeOrder, EncodeItems, NumBits, EncodeSym, ApplyItems, Kraft, Complete;
    var b := NarrowEnd();
    SmallCodes();
    NarrowOk();
    OneBitItems(b.cl, b.items);
    var lit := TwoSymbols();
    assert Coded(lit, 0) && Coded(lit, 256);
    assert |EncodeTokens(lit, [1], b.tokens[1..])| == 1;
    assert |EncodeTokens(lit, [1], b.tokens)| == 2;
    assert |EncodeHeader(b)| == 14 + 57 + 258;
  }

  lemma NarrowOk()
    ensures HeaderOk(NarrowEnd()) && DynamicLit(NarrowEnd()) == TwoSymbols() && DynamicDist(NarrowEnd()) == [1]
  {
    hide ZeroOne, TwoSymbols, KraftSum;
    SmallCodes();
    DynamicOfOk(TwoSymbols(), [1], ZeroOne(), [Literal(0)]);
  }

  lemma OneBlockStream(b: Block, o: seq<byte>)
    requires BlockOk(16, b) && !b.Stored? && ApplyBlock([], b) == Some(o)
    ensures BlocksOk(16, [b]) && OffBoundary(16, [b]) && Expand([], [b]) == Some(o)
    ensures EncodeBlocks([b]) == EncodeBlock(b, true) && (AnyRefused([b]) <==> Refused(b))
  {
    hide BlockOk, EncodeBlock, ApplyBlock, Refused;
    assert [b][1..] == [];
    assert EncodeBlock(b, true) + [] == EncodeBlock(b, true);
    assert [b][0] == b;
  }

  lemma NarrowParts(b: Block)
    requires b == NarrowEnd()
    ensures b.Dynamic? && BlockOk(16, b) && ApplyBlock([], b) == Some([0]) && EndCode(b) == 1 && !Refused(b)
  {
    hide HeaderOk, TwoSymbols, PlainItems, ApplyItems, ZeroOne, Complete, TooManyTables, BlockOk, ApplyBlock;
    NarrowOk();
    SmallCodes();
    OneLiteral(b);
    assert Coded(TwoSymbols(), 256);
    if Refused(b) {
      RefusedOnly(b);
    }
  }

  /** At one address in four the decoder asks for bytes behind this stream. */
  lemma NarrowEndFails()
    ensures var bs := [NarrowEnd()];
            && BlocksOk(16, bs) && OffBoundary(16, bs) && FitsExactly(bs, 1) && !AnyRefused(bs)
            && forall align: nat :: RefillInside(bs, align) <==> align % 4 != 3
  {
    hide NarrowEnd, BlockOk, BlocksOk, OffBoundary, Expand, EncodeBlocks, EncodeBlock, AnyRefused, ApplyBlock, EndCode;
    var b := NarrowEnd();
    NarrowLength();
    NarrowParts(b);
    OneBlockStream(b, [0]);
    NarrowRefill([b]);
  }

  lemma NarrowRefill(bs: seq<Block>)
    requires |bs| == 1 && bs[0].Dynamic? && EndCode(bs[0]) == 1 && |EncodeBlocks(bs)| == 334
    ensures forall align: nat :: RefillInside(bs, align) <==> align % 4 != 3
  {
    hide EncodeBlocks, EndCode;
    assert StreamLength(bs) == 48 && Padding(bs) == 2;
  }

  /** A code length code for 0 and the long lengths, with three bits each. */
  function LongLengths(): (cl: seq<byte>)
    ensures |cl| == 19 && forall i :: 0 <= i < 19 ==> cl[i] == if i == 0 || 9 <= i <= 15 then 3 else 0
  {
    seq(19, i => if i == 0 || 9 <= i <= 15 then 3 else 0)
  }

  lemma LongLengthsIsCode()
    ensures Kraft(LongLengths())
  {
    hide KraftSum, LongLengths, Room;
    PowValues();
    var cl := LongLengths();
    KraftNone(cl);
    KraftRun(cl, 0, 1, 3);
    KraftZeros(cl, 1, 9);
    KraftRun(cl, 9, 16, 3);
    KraftZeros(cl, 16, 19);
    RoomIsProduct(1, Pow(12));
    RoomIsProduct(7, Pow(12));
    assert Pow(12) == 4 * Pow(10);
  }

  /** An empty block whose literal code needs more secondary tables than there is room for. */
  lemma CrowdedFails()
    ensures var bs := [DynamicOf(Crowded(), [9], LongLengths(), [])];
            BlocksOk(16, bs) && OffBoundary(16, bs) && FitsExactly(bs, 0) && AnyRefused(bs)
  {
    hide Kraft, SecondaryFits, Crowded, LongLengths, PlainItems, ApplyItems, HeaderOk, EncodeBlock, AnyRefused, BlocksOk,
      OffBoundary, Expand;
    var b := DynamicOf(Crowded(), [9], LongLengths(), []);
    var bs := [b];
    SmallCodes();
    LongLengthsIsCode();
    CrowdedIsRefused();
    DynamicOfOk(Crowded(), [9], LongLengths(), []);
    assert Coded(Crowded(), 256);
    assert BlockOk(16, b) && ApplyBlock([], b) == Some([]) && Refused(b);
    OneBlockStream(b, []);
  }

  /** One distance code, and 30 or 31 lengths of zero behind it. */
  function ManyDistances(n: nat): (dist: seq<byte>)
    ensures |dist| == n && forall s :: 0 <= s < n ==> dist[s] == if s == 0 then 1 else 0
  {
    seq(n, s => if s == 0 then 1 else 0)
  }

  /** One zero byte again, in a block whose header has room for the two distance codes that are never used. */
  lemma ManyDistancesFail(n: nat)
    requires 31 <= n <= 32
    ensures var b := DynamicOf(TwoSymbols(), ManyDistances(n), ZeroOne(), [Literal(0)]);
            && BlocksOk(16, [b]) && OffBoundary(16, [b]) && FitsExactly([b], 1)
            && AnyRefused([b]) && !TooManyTables(b)
  {
    hide HeaderOk, TwoSymbols, ManyDistances, PlainItems, ApplyItems, ZeroOne, SecondaryFits, KraftSum,
      AnyRefused, BlocksOk, OffBoundary, Expand, EncodeBlock, BlockOk, ApplyBlock;
    var dist := ManyDistances(n);
    var b := DynamicOf(TwoSymbols(), dist, ZeroOne(), [Literal(0)]);
    SmallCodes();
    ManyDistancesIsCode(n);
    DynamicOfOk(TwoSymbols(), dist, ZeroOne(), [Literal(0)]);
    CompleteFits(TwoSymbols());
    DistancesFit(dist);
    OneLiteral(b);
    OneBlockStream(b, [0]);
  }

  lemma ManyDistancesIsCode(n: nat)
    requires n > 0
    ensures Kraft(ManyDistances(n))
  {
    hide KraftSum, ManyDistances, Room;
    var dist := ManyDistances(n);
    KraftNone(dist);
    KraftRun(dist, 0, 1, 1);
    KraftZeros(dist, 1, n);
    PowTable();
    RoomIsProduct(1, 0x4000);
  }

  lemma OneLiteral(b: Block)
    requires b.Dynamic? && b.tokens == [Literal(0)] && HeaderOk(b) && DynamicLit(b) == TwoSymbols()
    ensures BlockOk(16, b) && ApplyBlock([], b) == Some([0])
  {
    hide HeaderOk, TwoSymbols;
    assert b.tokens[1..] == [];
    assert Coded(TwoSymbols(), 0) && Coded(TwoSymbols(), 256);
    var none: seq<byte> := [];
    assert none + [0] == [0];
    assert ApplyAll(none + [0], b.tokens[1..]) == Some([0]);
  }
}
