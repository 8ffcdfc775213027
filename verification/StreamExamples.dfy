/** Whole zlib streams, given byte by byte, and the blocks and the output they stand for. */
module StreamExamples {
  import opened Bits
  import opened Huffman
  import opened SecondarySpace
  import opened FixedTables
  import opened Deflate
  import opened Layout
  import opened Inflate
  import opened InflateLimits
  import opened Wrappers
  import Adler

  /** The example of section 3.2.2: the lengths of the symbols A to H, and their codes. */
  lemma LettersAToH()
    ensures var codes := [3, 3, 3, 3, 3, 2, 4, 4];
            && CodeBits(Code(codes, 0), 3) == [false, true, false] && CodeBits(Code(codes, 1), 3) == [false, true, true]
            && CodeBits(Code(codes, 2), 3) == [true, false, false] && CodeBits(Code(codes, 3), 3) == [true, false, true]
            && CodeBits(Code(codes, 4), 3) == [true, true, false] && CodeBits(Code(codes, 5), 2) == [false, false]
            && CodeBits(Code(codes, 6), 4) == [true, true, true, false]
            && CodeBits(Code(codes, 7), 4) == [true, true, true, true]
  {
    hide CodeBits;
    var codes: seq<byte> := [3, 3, 3, 3, 3, 2, 4, 4];
    LetterCodes(codes);
    ThreeBits(2);
    ThreeBits(3);
    ThreeBits(4);
    ThreeBits(5);
    ThreeBits(6);
    TwoBits(0);
    FourBits(14);
    FourBits(15);
  }

  lemma TwoBits(c: nat)
    ensures CodeBits(c, 2) == [c / 2 % 2 == 1, c % 2 == 1]
  {
    assert CodeBits(c / 2, 1) == [c / 2 % 2 == 1];
  }

  lemma ThreeBits(c: nat)
    ensures CodeBits(c, 3) == [c / 2 / 2 % 2 == 1, c / 2 % 2 == 1, c % 2 == 1]
  {
    TwoBits(c / 2);
  }

  lemma FourBits(c: nat)
    ensures CodeBits(c, 4) == [c / 2 / 2 / 2 % 2 == 1, c / 2 / 2 % 2 == 1, c / 2 % 2 == 1, c % 2 == 1]
  {
    ThreeBits(c / 2);
  }

  lemma LetterCodes(codes: seq<byte>)
    requires codes == [3, 3, 3, 3, 3, 2, 4, 4]
    ensures Code(codes, 0) == 2 && Code(codes, 1) == 3 && Code(codes, 2) == 4 && Code(codes, 3) == 5
    ensures Code(codes, 4) == 6 && Code(codes, 5) == 0 && Code(codes, 6) == 14 && Code(codes, 7) == 15
  {
    hide CountUpTo;
    forall j: nat
      ensures CountUpTo(codes, j, 0) == 0
      ensures CountUpTo(codes, j, 1) == if j == 3 then 1 else 0
      ensures CountUpTo(codes, j, 2) == if j == 3 then 2 else 0
      ensures CountUpTo(codes, j, 3) == if j == 3 then 3 else 0
      ensures CountUpTo(codes, j, 4) == if j == 3 then 4 else 0
      ensures CountUpTo(codes, j, 5) == if j == 3 then 5 else 0
      ensures CountUpTo(codes, j, 6) == if j == 3 then 5 else if j == 2 then 1 else 0
      ensures CountUpTo(codes, j, 7) == if j == 3 then 5 else if j == 2 then 1 else if j == 4 then 1 else 0
      ensures CountUpTo(codes, j, 8) == if j == 3 then 5 else if j == 2 then 1 else if j == 4 then 2 else 0
    {
      CountNone(codes, j);
      CountRun(codes, j, 0, 1, 3);
      CountRun(codes, j, 0, 2, 3);
      CountRun(codes, j, 0, 3, 3);
      CountRun(codes, j, 0, 4, 3);
      CountRun(codes, j, 0, 5, 3);
      CountRun(codes, j, 5, 6, 2);
      CountRun(codes, j, 6, 7, 4);
      CountRun(codes, j, 6, 8, 4);
    }
    NextIs(codes, 1, 0, 0);
    NextIs(codes, 2, 0, 0);
    NextIs(codes, 3, 0, 1);
    NextIs(codes, 4, 2, 5);
  }

  lemma TwoBytes(s: seq<byte>, k: nat)
    requires k + 1 < |s|
    ensures BitsAt(s, 8 * k, 16) == s[k] as int + 256 * s[k + 1] as int
  {
    hide BitsAt;
    ByteBits(s, k);
    ByteBits(s, k + 1);
    BitsAtSplit(s, 8 * k, 8, 16);
    PowTable();
  }

  /** `n` bits from bit `o` of byte `k` on, read off that byte and the next one. */
  lemma Seen(s: seq<byte>, k: nat, o: nat, n: nat, v: nat)
    requires k + 1 < |s| && o < 8 && o + n <= 16 && (s[k] as int + 256 * s[k + 1] as int) / Pow(o) % Pow(n) == v
    ensures NumAt(s, 8 * k + o, v, n)
  {
    hide BitsAt, Pow;
    TwoBytes(s, k);
    BitsAtSplit(s, 8 * k, o, 16);
    BitsAtSplit(s, 8 * k + o, n, 16 - o);
  }

  /** A code seen bit by bit. */
  lemma SymSeen(s: seq<byte>, k: nat, o: nat, codes: seq<byte>, sym: nat, n: nat, c: nat, v: nat)
    requires sym < |codes| && codes[sym] == n && 0 < n < 16 && Code(codes, sym) == c && Rev(n, c) == v
    requires k + 1 < |s| && o < 8 && o + n <= 16 && (s[k] as int + 256 * s[k + 1] as int) / Pow(o) % Pow(n) == v
    ensures SymAt(s, 8 * k + o, codes, sym) && SymEnd(8 * k + o, codes, sym) == 8 * k + o + n
  {
    hide BitsAt, Pow, Rev, Code;
    Seen(s, k, o, n, v);
  }

  lemma OneBlockAt(s: seq<byte>, b: Block, end: nat)
    requires NumAt(s, 16, 1, 1) && NumAt(s, 17, BlockType(b), 2) && BodyAt(s, 19, b) && PadAt(s, 19, b)
    requires BodyEnd(19, b) == end
    ensures BlocksAt(s, 16, [b]) && PadsAt(s, 16, [b]) && BlocksEnd(16, [b]) == end
  {
    hide BodyAt, PadAt, BodyEnd, NumAt;
    assert [b][1..] == [];
  }

  /** A stream of a single block, from where its parts stand. */
  lemma OneBlockThere(s: seq<byte>, b: Block, end: nat)
    requires |s| > 2 && s[0] == 0x78 && s[1] == 0x9c && |s| == (end + 7) / 8 + 4
    requires NumAt(s, 16, 1, 1) && NumAt(s, 17, BlockType(b), 2) && BodyAt(s, 19, b) && PadAt(s, 19, b)
    requires BodyEnd(19, b) == end
    ensures ZlibStream(s, |s|, [b]) && |EncodeBlocks([b])| == end - 16
  {
    hide BodyAt, PadAt, BodyEnd, NumAt, EncodeBlocks, BlocksOk, EncodedAt, BlocksAt, PadsAt, BlocksEnd, OffBoundary,
      OffBoundaryAt, BlockType;
    OneBlockAt(s, b, end);
    BlocksThere(s, 16, [b]);
    BlocksEncoded(s, 16, [b]);
  }

  /** The output of a stream of a single block that is not refused. */
  lemma OneBlockExpands(b: Block, o: seq<byte>)
    requires ApplyBlock([], b) == Some(o)
    ensures Expand([], [b]) == Some(o) && (AnyRefused([b]) <==> Refused(b))
    ensures OffBoundary(16, [b])
  {
    hide ApplyBlock, Refused;
    assert [b][1..] == [];
    assert [b][0] == b;
  }

  /** The stream of an empty output: a header, the end-of-block code of a fixed block, and the checksum 1. */
  lemma EmptyStream()
    ensures var s, bs := [0x78, 0x9c, 3, 0, 0, 0, 0, 1], [Fixed([])];
            && ZlibStream(s, 8, bs) && OffBoundary(16, bs) && Expand([], bs) == Some([]) && !AnyRefused(bs)
            && (forall align: nat :: RefillInside(bs, align)) && s[4..] == Adler.Trailer([])
  {
    hide FixedLit, FixedDist, EncodeBlocks, NumAt, ZlibStream, Code;
    var s: seq<byte> := [0x78, 0x9c, 3, 0, 0, 0, 0, 1];
    FixedCodes(256);
    Seen(s, 2, 0, 1, 1);
    Seen(s, 2, 1, 2, 1);
    SymSeen(s, 2, 3, FixedLit(), 256, 7, 0, 0);
    OneBlockThere(s, Fixed([]), 26);
    OneBlockExpands(Fixed([]), []);
  }

  function LiteralBytes(): seq<byte> {
    [0x78, 0x9c, 0x4b, 4, 0, 0, 0x62, 0, 0x62]
  }

  lemma LiteralSeen(s: seq<byte>)
    requires s == LiteralBytes()
    ensures NumAt(s, 16, 1, 1) && NumAt(s, 17, 1, 2)
    ensures SymAt(s, 19, FixedLit(), 0x61) && SymEnd(19, FixedLit(), 0x61) == 27
    ensures SymAt(s, 27, FixedLit(), 256) && SymEnd(27, FixedLit(), 256) == 34
  {
    hide FixedLit, FixedDist, NumAt, Code, SymAt, SymEnd;
    FixedCodes(0x61);
    FixedCodes(256);
    Seen(s, 2, 0, 1, 1);
    Seen(s, 2, 1, 2, 1);
    SymSeen(s, 2, 3, FixedLit(), 0x61, 8, 0x91, 0x89);
    SymSeen(s, 3, 3, FixedLit(), 256, 7, 0, 0);
  }

  lemma LiteralAt(s: seq<byte>)
    requires s == LiteralBytes()
    ensures TokensAt(s, 19, FixedLit(), FixedDist(), [Literal(0x61)])
    ensures TokensEnd(19, FixedLit(), FixedDist(), [Literal(0x61)]) == 34
  {
    hide FixedLit, FixedDist, NumAt, Code, TokenOk, SymAt, SymEnd, LiteralBytes, TokensAt, TokensEnd;
    var ts := [Literal(0x61)];
    LiteralSeen(s);
    LiteralToken(0x61);
    EndSeen(s, 27, FixedLit(), FixedDist());
    assert ts[1..] == [] && ts[0..] == ts;
    TokenSeen(s, 19, FixedLit(), FixedDist(), ts, 0);
  }

  /** The stream of the byte 0x61 in a fixed block. */
  lemma LiteralStream()
    ensures var s, bs := LiteralBytes(), [Fixed([Literal(0x61)])];
            && ZlibStream(s, 9, bs) && OffBoundary(16, bs) && Expand([], bs) == Some([0x61]) && !AnyRefused(bs)
            && (forall align: nat :: RefillInside(bs, align)) && s[5..] == Adler.Trailer([0x61])
  {
    hide FixedLit, FixedDist, EncodeBlocks, NumAt, ZlibStream, Code, Adler.Trailer, TokenOk, Expand, AnyRefused,
      OffBoundary, ApplyAll, TokensAt, TokensEnd;
    var s, ts := LiteralBytes(), [Literal(0x61)];
    LiteralSeen(s);
    LiteralAt(s);
    LiteralToken(0x61);
    OneBlockThere(s, Fixed(ts), 34);
    OneBlockExpands(Fixed(ts), [0x61]);
    OneByteTrailer();
  }

  lemma LiteralToken(b: byte)
    ensures TokenOk(FixedLit(), FixedDist(), Literal(b)) && ApplyAll([], [Literal(b)]) == Some([b])
  {
    var none: seq<byte> := [];
    assert none + [b] == [b];
    assert [Literal(b)][1..] == [];
  }

  lemma OneByteTrailer()
    ensures Adler.Trailer([0x61]) == [0, 0x62, 0, 0x62]
  {
    assert Adler.ByteSum([0x61], 1) == 0x61;
    assert Adler.WeightedSum([0x61], 1, 1) == 0x61;
  }

  function StoredBytes(): seq<byte> {
    [0x78, 0x9c, 1, 1, 0, 0xfe, 0xff, 0x61, 0, 0x62, 0, 0x62]
  }

  lemma StoredSeen(s: seq<byte>)
    requires s == StoredBytes()
    ensures NumAt(s, 16, 1, 1) && NumAt(s, 17, 0, 2) && NumAt(s, 19, 0, 5) && NumAt(s, 24, 1, 16)
    ensures NumAt(s, 40, 0xfffe, 16)
  {
    hide NumAt;
    Seen(s, 2, 0, 1, 1);
    Seen(s, 2, 1, 2, 0);
    Seen(s, 2, 3, 5, 0);
    Seen(s, 3, 0, 16, 1);
    Seen(s, 5, 0, 16, 0xfffe);
  }

  /** The stream of the byte 0x61 in a stored block: its length, the complement of its length, and itself. */
  lemma StoredStream()
    ensures var s, bs := StoredBytes(), [Stored([false, false, false, false, false], [0x61])];
            && ZlibStream(s, 12, bs) && OffBoundary(16, bs) && Expand([], bs) == Some([0x61]) && !AnyRefused(bs)
            && (forall align: nat :: RefillInside(bs, align)) && s[8..] == Adler.Trailer([0x61])
  {
    hide EncodeBlocks, NumAt, ZlibStream, Adler.Trailer, EncodedAt, Expand, AnyRefused, OffBoundary;
    var s, b := StoredBytes(), Stored([false, false, false, false, false], [0x61]);
    StoredSeen(s);
    NumThere(s, 19, 0, 5);
    NoPadding();
    OneBlockThere(s, b, 64);
    var none: seq<byte> := [];
    assert none + [0x61] == [0x61];
    OneBlockExpands(b, [0x61]);
    OneByteTrailer();
  }

  lemma NoPadding()
    ensures NumBits(0, 5) == [false, false, false, false, false]
  {
    assert NumBits(0, 2) == [false, false];
    assert NumBits(0, 4) == [false, false, false, false];
  }

  /** Literal codes of two bits each for the bytes 0x61 and 0x62, the end of the block and the length 3. */
  function FourSymbols(): (lit: seq<byte>)
    ensures |lit| == 258 && forall s :: 0 <= s < 258 ==> lit[s] == if s == 97 || s == 98 || 256 <= s then 2 else 0
  {
    seq(258, s => if s == 97 || s == 98 || 256 <= s then 2 else 0)
  }

  /** A code length code for 2, 15 and the three repetitions. */
  function Repetitions(): (cl: seq<byte>)
    ensures |cl| == 19
    ensures forall i :: 0 <= i < 19 ==> cl[i] == if i == 2 || 17 <= i then 2 else if 15 <= i then 3 else 0
  {
    seq(19, i => if i == 2 || 17 <= i then 2 else if 15 <= i then 3 else 0)
  }

  /** All three kinds of repetition; the last one goes from the literal codes into the distance codes. */
  function RepeatedItems(): seq<LengthItem> {
    [Zeros(97), Plain(2), Plain(2), Zeros(138), Zeros(10), Zeros(9), Plain(2), Repeat(5)]
  }

  /** The bytes 0x61 and 0x62, three bytes from two places before, and three from one place before. */
  function CopiedTokens(): seq<Token> {
    [Literal(0x61), Literal(0x62), Match(257, 0, 1, 0), Match(257, 0, 0, 0)]
  }

  function Repeated(): Block {
    Dynamic(258, 4, 19, Repetitions(), RepeatedItems(), CopiedTokens())
  }

  lemma RepeatedLengths()
    ensures ApplyItems([], RepeatedItems()) == Some(FourSymbols() + [2, 2, 2, 2])
  {
    hide Times, FourSymbols, ApplyItems;
    var l1, l2, l3: seq<byte> := Times(0, 97), Times(0, 97) + [2], Times(0, 97) + [2] + [2];
    var l4 := l3 + Times(0, 138);
    var l5 := l4 + Times(0, 10);
    var l6 := l5 + Times(0, 9);
    var l7 := l6 + [2];
    var l8 := l7 + Times(2, 5);
    var its := RepeatedItems();
    NoItems(l8);
    assert its[8..] == [];
    ItemThen(l7, its, 7, l8, l8);
    ItemThen(l6, its, 6, l7, l8);
    ItemThen(l5, its, 5, l6, l8);
    ItemThen(l4, its, 4, l5, l8);
    ItemThen(l3, its, 3, l4, l8);
    ItemThen(l2, its, 2, l3, l8);
    ItemThen(l1, its, 1, l2, l8);
    var none: seq<byte> := [];
    assert none + l1 == l1;
    ItemThen(none, its, 0, l1, l8);
    assert its[0..] == its;
    assert l8 == FourSymbols() + [2, 2, 2, 2];
  }

  lemma NoItems(lens: seq<byte>)
    ensures ApplyItems(lens, []) == Some(lens)
  {
  }

  lemma ItemThen(lens: seq<byte>, its: seq<LengthItem>, k: nat, lens': seq<byte>, all: seq<byte>)
    requires k < |its| && ApplyItem(lens, its[k]) == Some(lens') && ApplyItems(lens', its[k + 1..]) == Some(all)
    ensures ApplyItems(lens, its[k..]) == Some(all)
  {
    assert its[k..][1..] == its[k + 1..];
  }

  lemma RepeatedCodes()
    ensures Kraft(Repetitions()) && Complete(FourSymbols()) && Kraft([2, 2, 2, 2])
  {
    hide KraftSum, Repetitions, FourSymbols, Room;
    PowValues();
    assert Pow(12) == 4 * Pow(10) && Pow(13) == 8 * Pow(10);
    var cl, lit, dist := Repetitions(), FourSymbols(), [2, 2, 2, 2];
    RoomIsProduct(1, 0x2000);
    RoomIsProduct(2, 0x2000);
    RoomIsProduct(2, 0x1000);
    RoomIsProduct(4, 0x2000);
    KraftNone(cl);
    KraftZeros(cl, 0, 2);
    KraftRun(cl, 2, 3, 2);
    KraftZeros(cl, 3, 15);
    KraftRun(cl, 15, 17, 3);
    KraftRun(cl, 17, 19, 2);
    KraftNone(lit);
    KraftZeros(lit, 0, 97);
    KraftRun(lit, 97, 99, 2);
    KraftZeros(lit, 99, 256);
    KraftRun(lit, 256, 258, 2);
    KraftNone(dist);
    KraftRun(dist, 0, 4, 2);
  }

  lemma RepeatedOk()
    ensures HeaderOk(Repeated()) && DynamicLit(Repeated()) == FourSymbols() && DynamicDist(Repeated()) == [2, 2, 2, 2]
  {
    hide KraftSum, Complete, Repetitions, FourSymbols, ApplyItems;
    RepeatedCodes();
    RepeatedLengths();
    CompleteIsCode();
    var lens := FourSymbols() + [2, 2, 2, 2];
    assert lens[..258] == FourSymbols() && lens[258..] == [2, 2, 2, 2];
  }

  lemma CompleteIsCode()
    requires Complete(FourSymbols())
    ensures Kraft(FourSymbols())
  {
    hide KraftSum;
  }

  lemma RepetitionCounts(j: nat)
    ensures CountUpTo(Repetitions(), j, 2) == (if j == 0 then 2 else 0)
    ensures CountUpTo(Repetitions(), j, 15) == (if j == 0 then 14 else if j == 2 then 1 else 0)
    ensures CountUpTo(Repetitions(), j, 16) == (if j == 0 then 14 else if j == 2 || j == 3 then 1 else 0)
    ensures CountUpTo(Repetitions(), j, 17) == (if j == 0 then 14 else if j == 2 then 1 else if j == 3 then 2 else 0)
    ensures CountUpTo(Repetitions(), j, 18) == (if j == 0 then 14 else if j == 2 || j == 3 then 2 else 0)
    ensures CountUpTo(Repetitions(), j, 19) == (if j == 0 then 14 else if j == 2 then 3 else if j == 3 then 2 else 0)
  {
    hide CountUpTo, Repetitions;
    var cl := Repetitions();
    CountNone(cl, j);
    CountRun(cl, j, 0, 2, 0);
    CountRun(cl, j, 2, 3, 2);
    CountRun(cl, j, 3, 15, 0);
    CountRun(cl, j, 15, 16, 3);
    CountRun(cl, j, 15, 17, 3);
    CountRun(cl, j, 17, 18, 2);
    CountRun(cl, j, 17, 19, 2);
  }

  lemma RepetitionCodes()
    ensures var cl := Repetitions();
      Code(cl, 2) == 0 && Code(cl, 16) == 7 && Code(cl, 17) == 1 && Code(cl, 18) == 2
  {
    hide CountUpTo, Repetitions;
    var cl := Repetitions();
    RepetitionCounts(1);
    RepetitionCounts(2);
    RepetitionCounts(3);
    NextIs(cl, 1, 0, 0);
    NextIs(cl, 2, 0, 0);
    NextIs(cl, 3, 0, 3);
  }

  lemma FourCodes()
    ensures var lit := FourSymbols();
      Code(lit, 97) == 0 && Code(lit, 98) == 1 && Code(lit, 256) == 2 && Code(lit, 257) == 3
    ensures Code([2, 2, 2, 2], 0) == 0 && Code([2, 2, 2, 2], 1) == 1
  {
    hide CountUpTo, FourSymbols;
    var lit, dist := FourSymbols(), [2, 2, 2, 2];
    forall j: nat | j == 1 || j == 2
      ensures CountUpTo(lit, j, 97) == 0 && CountUpTo(lit, j, 98) == j - 1 && CountUpTo(lit, j, 256) == 2 * (j - 1)
      ensures CountUpTo(lit, j, 257) == 3 * (j - 1) && CountUpTo(lit, j, 258) == 4 * (j - 1)
      ensures CountUpTo(dist, j, 0) == 0 && CountUpTo(dist, j, 1) == j - 1 && CountUpTo(dist, j, 4) == 4 * (j - 1)
    {
      CountNone(lit, j);
      CountRun(lit, j, 0, 97, 0);
      CountRun(lit, j, 97, 98, 2);
      CountRun(lit, j, 97, 99, 2);
      CountRun(lit, j, 99, 256, 0);
      CountRun(lit, j, 256, 257, 2);
      CountRun(lit, j, 256, 258, 2);
      CountNone(dist, j);
      CountRun(dist, j, 0, 1, 2);
      CountRun(dist, j, 0, 4, 2);
    }
    NextIs(lit, 1, 0, 0);
    NextIs(lit, 2, 0, 0);
    NextIs(dist, 1, 0, 0);
    NextIs(dist, 2, 0, 0);
  }

  /** The bytes of the stream. */
  function RepeatedBytes(): seq<byte> {
    [0x78, 0x9c, 0x0d, 0xe3, 0x27, 0x01, 0, 0, 0, 0x80, 0x80,
     0x65, 0x85, 0xfe, 0x5e, 0x73, 0x71, 0x27, 0x0d, 0xb8, 0x03, 0x0b]
  }

  lemma FirstSeven(s: seq<byte>)
    requires s == RepeatedBytes()
    ensures NumAt(s, 33, 3, 3) && NumAt(s, 36, 2, 3) && NumAt(s, 39, 2, 3)
    ensures NumAt(s, 42, 0, 3) && NumAt(s, 45, 0, 3) && NumAt(s, 48, 0, 3)
    ensures NumAt(s, 51, 0, 3)
  {
    hide NumAt;
    Seen(s, 4, 1, 3, 3);
    Seen(s, 4, 4, 3, 2);
    Seen(s, 4, 7, 3, 2);
    Seen(s, 5, 2, 3, 0);
    Seen(s, 5, 5, 3, 0);
    Seen(s, 6, 0, 3, 0);
    Seen(s, 6, 3, 3, 0);
  }

  lemma NextSix(s: seq<byte>)
    requires s == RepeatedBytes()
    ensures NumAt(s, 54, 0, 3) && NumAt(s, 57, 0, 3) && NumAt(s, 60, 0, 3)
    ensures NumAt(s, 63, 0, 3) && NumAt(s, 66, 0, 3) && NumAt(s, 69, 0, 3)
  {
    hide NumAt;
    Seen(s, 6, 6, 3, 0);
    Seen(s, 7, 1, 3, 0);
    Seen(s, 7, 4, 3, 0);
    Seen(s, 7, 7, 3, 0);
    Seen(s, 8, 2, 3, 0);
    Seen(s, 8, 5, 3, 0);
  }

  lemma LastSix(s: seq<byte>)
    requires s == RepeatedBytes()
    ensures NumAt(s, 72, 0, 3) && NumAt(s, 75, 0, 3) && NumAt(s, 78, 2, 3)
    ensures NumAt(s, 81, 0, 3) && NumAt(s, 84, 0, 3) && NumAt(s, 87, 3, 3)
  {
    hide NumAt;
    Seen(s, 9, 0, 3, 0);
    Seen(s, 9, 3, 3, 0);
    Seen(s, 9, 6, 3, 2);
    Seen(s, 10, 1, 3, 0);
    Seen(s, 10, 4, 3, 0);
    Seen(s, 10, 7, 3, 3);
  }

  /** The lengths of 16, 17, 18, 0, 8, 7, 9, 6, 10, 5, 11, 4, 12, 3, 13, 2, 14, 1 and 15, in this order. */
  lemma OrderSeen(s: seq<byte>)
    requires s == RepeatedBytes()
    ensures OrderAt(s, 33, Repetitions(), 19)
  {
    hide NumAt, Repetitions, OrderAt, Sent, RepeatedBytes;
    var cl := Repetitions();
    RepetitionsSent();
    FirstSeven(s);
    NextSix(s);
    LastSix(s);
    forall i: nat | i < 19
      ensures NumAt(s, 33 + 3 * i, Sent(cl, i), 3)
    {
    }
    OrderFrom(s, 33, cl, 19);
  }

  lemma RepetitionsSent()
    ensures var lengths: seq<int> := [3, 2, 2, 0, 0, 0, 0, 0, 0, 0, 0, 0, 0, 0, 0, 2, 0, 0, 3];
            forall i: nat :: i < 19 ==> Sent(Repetitions(), i) as int == lengths[i]
  {
  }

  lemma {:induction false} OrderFrom(s: seq<byte>, p: nat, cl: seq<byte>, n: nat)
    requires forall i: nat :: i < n ==> NumAt(s, p + 3 * i, Sent(cl, i), 3)
    ensures OrderAt(s, p, cl, n)
  {
    if n > 0 {
      OrderFrom(s, p, cl, n - 1);
    }
  }

  /** The item `k` at bit `p`: the `n` bits of its symbol, and its extra bits behind them. */
  lemma ItemSeen(s: seq<byte>, p: nat, k: nat, n: nat, c: nat, v: nat)
    requires k < |RepeatedItems()| && ItemOk(Repetitions(), RepeatedItems()[k])
    requires var sym := ItemSymbol(RepeatedItems()[k]);
             Repetitions()[sym] == n && Code(Repetitions(), sym) == c && Rev(n, c) == v
    requires var it := RepeatedItems()[k]; NumAt(s, p, v, n) && NumAt(s, p + n, ItemMore(it), ItemExtra(it))
    requires ItemsAt(s, p + n + ItemExtra(RepeatedItems()[k]), Repetitions(), RepeatedItems()[k + 1..])
    ensures ItemsAt(s, p, Repetitions(), RepeatedItems()[k..])
    ensures ItemsEnd(p, Repetitions(), RepeatedItems()[k..])
         == ItemsEnd(p + n + ItemExtra(RepeatedItems()[k]), Repetitions(), RepeatedItems()[k + 1..])
  {
    hide NumAt, Repetitions, Code, Rev, RepeatedItems;
    assert RepeatedItems()[k..][1..] == RepeatedItems()[k + 1..];
  }

  lemma LastItemsSeen(s: seq<byte>)
    requires s == RepeatedBytes()
    ensures ItemsAt(s, 112, Repetitions(), RepeatedItems()[4..])
    ensures ItemsEnd(112, Repetitions(), RepeatedItems()[4..]) == 129
  {
    hide NumAt, Repetitions, Code, ItemsAt, ItemsEnd;
    RepetitionCodes();
    Seen(s, 14, 0, 2, 2);
    Seen(s, 14, 2, 3, 7);
    Seen(s, 14, 5, 2, 2);
    Seen(s, 14, 7, 3, 6);
    Seen(s, 15, 2, 2, 0);
    Seen(s, 15, 4, 3, 7);
    Seen(s, 15, 7, 2, 2);
    NoBitsSeen(s, 124);
    NothingSeen(s, 129, Repetitions());
    assert RepeatedItems()[8..] == [];
    ItemSeen(s, 124, 7, 3, 7, 7);
    ItemSeen(s, 122, 6, 2, 0, 0);
    ItemSeen(s, 117, 5, 2, 1, 2);
    ItemSeen(s, 112, 4, 2, 1, 2);
  }

  lemma ItemsSeen(s: seq<byte>)
    requires s == RepeatedBytes()
    ensures ItemsAt(s, 90, Repetitions(), RepeatedItems()) && ItemsEnd(90, Repetitions(), RepeatedItems()) == 129
  {
    hide NumAt, Repetitions, Code, ItemsAt, ItemsEnd;
    LastItemsSeen(s);
    RepetitionCodes();
    Seen(s, 11, 2, 2, 1);
    Seen(s, 11, 4, 7, 86);
    Seen(s, 12, 3, 2, 0);
    Seen(s, 12, 5, 2, 0);
    Seen(s, 12, 7, 2, 1);
    Seen(s, 13, 1, 7, 127);
    NoBitsSeen(s, 101);
    NoBitsSeen(s, 103);
    ItemSeen(s, 103, 3, 2, 2, 1);
    ItemSeen(s, 101, 2, 2, 0, 0);
    ItemSeen(s, 99, 1, 2, 0, 0);
    ItemSeen(s, 90, 0, 2, 2, 1);
    assert RepeatedItems()[0..] == RepeatedItems();
  }

  lemma NothingSeen(s: seq<byte>, p: nat, cl: seq<byte>)
    ensures ItemsAt(s, p, cl, []) && ItemsEnd(p, cl, []) == p
  {
  }

  lemma CopiedSeen(s: seq<byte>)
    requires s == RepeatedBytes()
    ensures TokensAt(s, 129, FourSymbols(), [2, 2, 2, 2], CopiedTokens())
    ensures TokensEnd(129, FourSymbols(), [2, 2, 2, 2], CopiedTokens()) == 143
  {
    hide NumAt, FourSymbols, Code, TokensAt, TokensEnd;
    var lit: seq<byte>, dist: seq<byte>, ts := FourSymbols(), [2, 2, 2, 2], CopiedTokens();
    FourCodes();
    SymSeen(s, 16, 1, lit, 97, 2, 0, 0);
    SymSeen(s, 16, 3, lit, 98, 2, 1, 2);
    SymSeen(s, 16, 5, lit, 257, 2, 3, 3);
    SymSeen(s, 16, 7, dist, 1, 2, 1, 2);
    SymSeen(s, 17, 1, lit, 257, 2, 3, 3);
    SymSeen(s, 17, 3, dist, 0, 2, 0, 0);
    SymSeen(s, 17, 5, lit, 256, 2, 2, 1);
    NoBitsSeen(s, 135);
    NoBitsSeen(s, 137);
    NoBitsSeen(s, 139);
    NoBitsSeen(s, 141);
    EndSeen(s, 141, lit, dist);
    assert ts[4..] == [];
    TokenSeen(s, 137, lit, dist, ts, 3);
    TokenSeen(s, 133, lit, dist, ts, 2);
    TokenSeen(s, 131, lit, dist, ts, 1);
    TokenSeen(s, 129, lit, dist, ts, 0);
    assert ts[0..] == ts;
  }

  lemma NoBitsSeen(s: seq<byte>, p: nat)
    requires p <= 8 * |s|
    ensures NumAt(s, p, 0, 0)
  {
  }

  lemma EndSeen(s: seq<byte>, p: nat, lit: seq<byte>, dist: seq<byte>)
    requires SymAt(s, p, lit, 256)
    ensures TokensAt(s, p, lit, dist, []) && TokensEnd(p, lit, dist, []) == SymEnd(p, lit, 256)
  {
  }

  lemma TokenSeen(s: seq<byte>, p: nat, lit: seq<byte>, dist: seq<byte>, ts: seq<Token>, k: nat)
    requires k < |ts| && TokenAt(s, p, lit, dist, ts[k])
    requires TokensAt(s, TokenEnd(p, lit, dist, ts[k]), lit, dist, ts[k + 1..])
    ensures TokensAt(s, p, lit, dist, ts[k..])
    ensures TokensEnd(p, lit, dist, ts[k..]) == TokensEnd(TokenEnd(p, lit, dist, ts[k]), lit, dist, ts[k + 1..])
  {
    assert ts[k..][1..] == ts[k + 1..];
  }

  lemma TokenThen(o: seq<byte>, ts: seq<Token>, k: nat, o': seq<byte>, all: seq<byte>)
    requires k < |ts| && Apply(o, ts[k]) == Some(o') && ApplyAll(o', ts[k + 1..]) == Some(all)
    ensures ApplyAll(o, ts[k..]) == Some(all)
  {
    assert ts[k..][1..] == ts[k + 1..];
  }

  /** Three bytes from `dist` places before. */
  lemma ThreeCopied(o: seq<byte>, dist: nat, x: byte, y: byte, z: byte)
    requires 1 <= dist <= |o| && x == o[|o| - dist]
    requires y == (o + [x])[|o| + 1 - dist] && z == (o + [x] + [y])[|o| + 2 - dist]
    ensures CopyBytes(o, 3, dist) == o + [x] + [y] + [z]
  {
    hide CopyBytes;
    OneCopied(o, 3, dist);
    OneCopied(o + [x], 2, dist);
    OneCopied(o + [x] + [y], 1, dist);
    NoneCopied(o + [x] + [y] + [z], dist);
  }

  lemma OneCopied(o: seq<byte>, len: nat, dist: nat)
    requires 1 <= dist <= |o| && len > 0
    ensures CopyBytes(o, len, dist) == CopyBytes(o + [o[|o| - dist]], len - 1, dist)
  {
  }

  lemma NoneCopied(o: seq<byte>, dist: nat)
    requires 1 <= dist <= |o|
    ensures CopyBytes(o, 0, dist) == o
  {
  }

  function CopiedBytes(): seq<byte> {
    [0x61, 0x62, 0x61, 0x62, 0x61, 0x61, 0x61, 0x61]
  }

  lemma CopiedOutput()
    ensures ApplyAll([], CopiedTokens()) == Some(CopiedBytes())
  {
    hide CopyBytes, ApplyAll;
    var ts, none: seq<byte>, all := CopiedTokens(), [], CopiedBytes();
    var o2, o5: seq<byte> := [0x61, 0x62], [0x61, 0x62, 0x61, 0x62, 0x61];
    assert ts[4..] == [] && ts[0..] == ts;
    NoTokens(all);
    ThreeCopied(o5, 1, 0x61, 0x61, 0x61);
    assert o5 + [0x61] + [0x61] + [0x61] == all;
    TokenThen(o5, ts, 3, all, all);
    ThreeCopied(o2, 2, 0x61, 0x62, 0x61);
    assert o2 + [0x61] + [0x62] + [0x61] == o5 && [0x61] + [0x62] == o2;
    TokenThen(o2, ts, 2, o5, all);
    TokenThen([0x61], ts, 1, o2, all);
    assert none + [0x61] == [0x61];
    TokenThen(none, ts, 0, [0x61], all);
  }

  lemma NoTokens(o: seq<byte>)
    ensures ApplyAll(o, []) == Some(o)
  {
  }

  lemma CopiedTrailer()
    ensures Adler.Trailer(CopiedBytes()) == [0x0d, 0xb8, 0x03, 0x0b]
  {
    var d := CopiedBytes();
    assert Adler.ByteSum(d, 2) == 195 && Adler.WeightedSum(d, 8, 2) == 8 * 97 + 7 * 98;
    assert Adler.ByteSum(d, 4) == 390 && Adler.WeightedSum(d, 8, 4) == 2534;
    assert Adler.ByteSum(d, 6) == 584 && Adler.WeightedSum(d, 8, 6) == 3213;
    assert Adler.ByteSum(d, 8) == 778 && Adler.WeightedSum(d, 8, 8) == 3504;
  }

  lemma RepeatedHeader(s: seq<byte>)
    requires s == RepeatedBytes()
    ensures HeaderAt(s, 19, Repeated()) && HeaderEnd(19, Repeated()) == 129
  {
    hide NumAt, Repetitions, OrderAt, ItemsAt, ItemsEnd;
    Seen(s, 2, 3, 5, 1);
    Seen(s, 3, 0, 5, 3);
    Seen(s, 3, 5, 4, 15);
    OrderSeen(s);
    ItemsSeen(s);
  }

  lemma RepeatedBody(s: seq<byte>)
    requires s == RepeatedBytes()
    ensures BodyAt(s, 19, Repeated()) && BodyEnd(19, Repeated()) == 143
  {
    hide HeaderAt, HeaderEnd, HeaderOk, DynamicLit, DynamicDist, TokensAt, TokensEnd, NumAt, FourSymbols, RepeatedBytes;
    RepeatedHeader(s);
    RepeatedOk();
    CopiedSeen(s);
  }

  lemma RepeatedTaken(b: Block)
    requires b == Repeated()
    ensures !Refused(b) && EndCode(b) == 2
  {
    hide SecondaryFits, Complete, Kraft, HeaderOk, DynamicLit, DynamicDist, FourSymbols;
    RepeatedCodes();
    RepeatedOk();
    CompleteFits(FourSymbols());
    DistancesFit([2, 2, 2, 2]);
  }

  /**
   * A stream of one dynamic block that sends all 19 lengths of the code length code, every kind of
   * code length item and matches of two distances. At one address in four its last refill asks for
   * bytes behind the stream.
   */
  lemma RepeatedStream()
    ensures var s, bs := RepeatedBytes(), [Repeated()];
            && ZlibStream(s, 22, bs) && OffBoundary(16, bs) && Expand([], bs) == Some(CopiedBytes()) && !AnyRefused(bs)
            && (forall align: nat :: RefillInside(bs, align) <==> align % 4 != 1) && s[18..] == Adler.Trailer(CopiedBytes())
  {
    hide NumAt, BodyAt, BodyEnd, EncodeBlocks, ZlibStream, Refused, EndCode, ApplyAll, Adler.Trailer, Expand,
      OffBoundary, AnyRefused;
    var s, b := RepeatedBytes(), Repeated();
    Seen(s, 2, 0, 1, 1);
    Seen(s, 2, 1, 2, 2);
    RepeatedBody(s);
    RepeatedTaken(b);
    CopiedOutput();
    CopiedTrailer();
    OneBlockThere(s, b, 143);
    OneBlockExpands(b, CopiedBytes());
  }

  /** The code length code of symbol 0 alone. */
  function OnlyZero(): (cl: seq<byte>)
    ensures |cl| == 19 && forall i :: 0 <= i < 19 ==> cl[i] == if i == 0 then 1 else 0
  {
    seq(19, i => if i == 0 then 1 else 0)
  }

  lemma OnlyZeroIsCode(nclen: nat)
    requires 4 <= nclen <= 19
    ensures OrderOk(OnlyZero(), nclen)
  {
    hide KraftSum, Room;
    var cl := OnlyZero();
    PowTable();
    KraftNone(cl);
    KraftRun(cl, 0, 1, 1);
    KraftZeros(cl, 1, 19);
    RoomIsProduct(1, 0x4000);
  }

  lemma NoCodes(n: nat) returns (zeros: seq<byte>)
    ensures |zeros| == n && Kraft(zeros) && forall s :: 0 <= s < n ==> zeros[s] == 0
  {
    hide KraftSum;
    zeros := seq(n, _ => 0);
    KraftNone(zeros);
    KraftZeros(zeros, 0, n);
  }

  /** Every announced number of literal/length, distance and code length codes occurs in a header. */
  lemma HeadersOccur(hlit: nat, hdist: nat, hclen: nat) returns (b: Block)
    requires hlit < 30 && hdist < 32 && hclen < 16
    ensures HeaderOk(b) && b.nlit == 257 + hlit && b.ndist == 1 + hdist && b.nclen == 4 + hclen
  {
    hide Kraft, ApplyItems, OrderOk, OnlyZero, PlainItems;
    var lit := NoCodes(257 + hlit);
    var dist := NoCodes(1 + hdist);
    var lens := lit + dist;
    var none: seq<byte> := [];
    assert none + lens == lens && lens[..|lit|] == lit && lens[|lit|..] == dist;
    OnlyZeroIsCode(4 + hclen);
    PlainApply(none, lens, PlainItems(lens));
    b := Dynamic(257 + hlit, 1 + hdist, 4 + hclen, OnlyZero(), PlainItems(lens), []);
  }
}
