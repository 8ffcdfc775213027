/** The DEFLATE format of RFC 1951, as an encoder and the meaning of what it encodes. */
module Deflate {
  import opened Bits
  import opened Huffman
  import opened Wrappers

  /** Bit `i` of `e` is the one found `i` bits after bit `p` of the input. */
  ghost predicate SameBit(s: seq<byte>, p: nat, e: seq<bool>, i: nat)
    requires i < |e| && p + |e| <= 8 * |s|
  {
    e[i] <==> Bit(s, p + i) == 1
  }

  /** The input holds exactly the bits `e` from bit `p` on. */
  ghost predicate EncodedAt(s: seq<byte>, p: nat, e: seq<bool>) {
    p + |e| <= 8 * |s| && forall i {:trigger SameBit(s, p, e, i)} :: 0 <= i < |e| ==> SameBit(s, p, e, i)
  }

  lemma EncodedSplit(s: seq<byte>, p: nat, a: seq<bool>, b: seq<bool>) returns (q: nat)
    requires EncodedAt(s, p, a + b)
    ensures q == p + |a| && EncodedAt(s, p, a) && EncodedAt(s, q, b)
  {
    q := p + |a|;
    forall i | 0 <= i < |a|
      ensures SameBit(s, p, a, i)
    {
      assert SameBit(s, p, a + b, i);
    }
    forall i | 0 <= i < |b|
      ensures SameBit(s, q, b, i)
    {
      assert SameBit(s, p, a + b, |a| + i);
    }
  }

  /** A number of `n` bits, least significant bit first (section 3.1.1). */
  function NumBits(v: nat, n: nat): (e: seq<bool>)
    ensures |e| == n
    decreases n
  {
    if n == 0 then [] else [v % 2 == 1] + NumBits(v / 2, n - 1)
  }

  /** A Huffman code of `n` bits, most significant bit first (section 3.1.1). */
  function CodeBits(c: nat, n: nat): (e: seq<bool>)
    ensures |e| == n
  {
    if n == 0 then [] else CodeBits(c / 2, n - 1) + [c % 2 == 1]
  }

  lemma {:induction false} NumBitsRead(s: seq<byte>, p: nat, v: nat, n: nat)
    requires EncodedAt(s, p, NumBits(v, n))
    ensures BitsAt(s, p, n) == v % Pow(n)
    decreases n
  {
    hide EncodedAt, BitsAt;
    EncodedFits(s, p, NumBits(v, n));
    if n > 0 {
      var q := EncodedSplit(s, p, [v % 2 == 1], NumBits(v / 2, n - 1));
      NumBitsRead(s, q, v / 2, n - 1);
      OneBitRead(s, p, v % 2 == 1);
      BitsAtSplit(s, p, 1, n);
      HalfMod(v, Pow(n - 1));
    } else {
      NoBitsRead(s, p);
    }
  }

  lemma EncodedFits(s: seq<byte>, p: nat, e: seq<bool>)
    requires EncodedAt(s, p, e)
    ensures p + |e| <= 8 * |s|
  {
  }

  lemma OneBitRead(s: seq<byte>, p: nat, b: bool)
    requires EncodedAt(s, p, [b])
    ensures p + 1 <= 8 * |s| && BitsAt(s, p, 1) == (if b then 1 else 0) && Pow(1) == 2
  {
    assert SameBit(s, p, [b], 0);
    assert BitsAt(s, p, 0) == 0;
  }

  lemma NoBitsRead(s: seq<byte>, p: nat)
    requires p <= 8 * |s|
    ensures BitsAt(s, p, 0) == 0
  {
  }

  lemma {:induction false} CodeBitsRead(s: seq<byte>, p: nat, c: nat, n: nat)
    requires EncodedAt(s, p, CodeBits(c, n))
    ensures BitsAt(s, p, n) == Rev(n, c)
  {
    if n > 0 {
      var q := EncodedSplit(s, p, CodeBits(c / 2, n - 1), [c % 2 == 1]);
      CodeBitsRead(s, p, c / 2, n - 1);
      assert SameBit(s, q, [c % 2 == 1], 0);
    }
  }

  /** The length and distance alphabets of section 3.2.5; symbols outside them mean nothing. */
  function LengthBase(lsym: nat): nat {
    match lsym
    case 257 => 3 case 258 => 4 case 259 => 5 case 260 => 6 case 261 => 7 case 262 => 8 case 263 => 9
    case 264 => 10 case 265 => 11 case 266 => 13 case 267 => 15 case 268 => 17 case 269 => 19 case 270 => 23
    case 271 => 27 case 272 => 31 case 273 => 35 case 274 => 43 case 275 => 51 case 276 => 59 case 277 => 67
    case 278 => 83 case 279 => 99 case 280 => 115 case 281 => 131 case 282 => 163 case 283 => 195 case 284 => 227
    case 285 => 258
    case _ => 0
  }

  function LengthExtra(lsym: nat): nat {
    if lsym < 265 then 0
    else if lsym < 269 then 1
    else if lsym < 273 then 2
    else if lsym < 277 then 3
    else if lsym < 281 then 4
    else if lsym < 285 then 5
    else 0
  }

  function DistanceBase(dsym: nat): nat {
    match dsym
    case 0 => 1 case 1 => 2 case 2 => 3 case 3 => 4 case 4 => 5 case 5 => 7
    case 6 => 9 case 7 => 13 case 8 => 17 case 9 => 25 case 10 => 33 case 11 => 49
    case 12 => 65 case 13 => 97 case 14 => 129 case 15 => 193 case 16 => 257 case 17 => 385
    case 18 => 513 case 19 => 769 case 20 => 1025 case 21 => 1537 case 22 => 2049 case 23 => 3073
    case 24 => 4097 case 25 => 6145 case 26 => 8193 case 27 => 12289 case 28 => 16385 case 29 => 24577
    case _ => 0
  }

  function DistanceExtra(dsym: nat): nat {
    if dsym < 4 then 0 else if dsym < 30 then dsym / 2 - 1 else 0
  }

  /** A literal byte, or a match given by its two symbols and their extra bits. */
  datatype Token =
    | Literal(b: byte)
    | Match(lsym: nat, lextra: nat, dsym: nat, dextra: nat)

  predicate Coded(codes: seq<byte>, s: nat) {
    s < |codes| && 0 < codes[s] < 16
  }

  /** The token exists in the format and the two codes can express it. */
  predicate TokenOk(lit: seq<byte>, dist: seq<byte>, t: Token) {
    match t
    case Literal(b) => Coded(lit, b)
    case Match(lsym, lextra, dsym, dextra) =>
      && 257 <= lsym <= 285 && dsym < 30 && Coded(lit, lsym) && Coded(dist, dsym)
      && lextra < Pow(LengthExtra(lsym)) && (lsym == 284 ==> lextra < 31) && dextra < Pow(DistanceExtra(dsym))
  }

  /** Appends `len` bytes, each a copy of the byte `dist` places before it. */
  function CopyBytes(o: seq<byte>, len: nat, dist: nat): seq<byte>
    requires 1 <= dist <= |o|
    decreases len
  {
    if len == 0 then o else CopyBytes(o + [o[|o| - dist]], len - 1, dist)
  }

  function CopyOf(o: seq<byte>, len: nat, dist: nat): Option<seq<byte>> {
    if 1 <= dist <= |o| then Some(CopyBytes(o, len, dist)) else None
  }

  /** What a token adds to the output; a distance may not reach before the start of the output. */
  function Apply(o: seq<byte>, t: Token): Option<seq<byte>> {
    match t
    case Literal(b) => Some(o + [b])
    case Match(lsym, lextra, dsym, dextra) =>
      CopyOf(o, LengthBase(lsym) + lextra, DistanceBase(dsym) + dextra)
  }

  function ApplyAll(o: seq<byte>, ts: seq<Token>): Option<seq<byte>>
    decreases |ts|
  {
    if ts == [] then Some(o)
    else
      var o' := Apply(o, ts[0]);
      if o'.None? then None else ApplyAll(o'.value, ts[1..])
  }

  predicate TokensOk(lit: seq<byte>, dist: seq<byte>, ts: seq<Token>) {
    Coded(lit, 256) && forall i :: 0 <= i < |ts| ==> TokenOk(lit, dist, ts[i])
  }

  /** The code of a symbol; an unused symbol has none, and no well-formed block sends it. */
  function EncodeSym(codes: seq<byte>, s: nat): (e: seq<bool>)
    ensures |e| > 0 && (Coded(codes, s) ==> |e| == codes[s])
  {
    if Coded(codes, s) then CodeBits(Code(codes, s), codes[s]) else [false]
  }

  /** A length's extra bits, the distance symbol and its extra bits. */
  function EncodeTail(lextra: nat, n: nat, dist: seq<byte>, dsym: nat, dextra: nat, m: nat): seq<bool> {
    NumBits(lextra, n) + (EncodeSym(dist, dsym) + NumBits(dextra, m))
  }

  function EncodeToken(lit: seq<byte>, dist: seq<byte>, t: Token): (e: seq<bool>)
    ensures |e| > 0
  {
    match t
    case Literal(b) => EncodeSym(lit, b)
    case Match(lsym, lextra, dsym, dextra) =>
      EncodeSym(lit, lsym) + EncodeTail(lextra, LengthExtra(lsym), dist, dsym, dextra, DistanceExtra(dsym))
  }

  /** The tokens of a block, followed by the end-of-block symbol 256 (section 3.2.3). */
  function EncodeTokens(lit: seq<byte>, dist: seq<byte>, ts: seq<Token>): (e: seq<bool>)
    ensures |e| > 0
    decreases |ts|
  {
    if ts == [] then EncodeSym(lit, 256)
    else EncodeToken(lit, dist, ts[0]) + EncodeTokens(lit, dist, ts[1..])
  }

  /** One step of the run-length coding of code lengths (section 3.2.7). */
  datatype LengthItem =
    | Plain(v: byte)
    | Repeat(n: nat)
    | Zeros(n: nat)

  /** The code length symbol of an item, its extra bits and how many they are. */
  function ItemSymbol(it: LengthItem): nat {
    match it
    case Plain(v) => v
    case Repeat(_) => 16
    case Zeros(n) => if n <= 10 then 17 else 18
  }

  function ItemMore(it: LengthItem): nat {
    match it
    case Plain(_) => 0
    case Repeat(n) => Sub(n, 3)
    case Zeros(n) => if n <= 10 then Sub(n, 3) else n - 11
  }

  function ItemExtra(it: LengthItem): nat {
    match it
    case Plain(_) => 0
    case Repeat(_) => 2
    case Zeros(n) => if n <= 10 then 3 else 7
  }

  predicate ItemOk(cl: seq<byte>, it: LengthItem) {
    Coded(cl, ItemSymbol(it)) &&
    match it
    case Plain(v) => v < 16
    case Repeat(n) => 3 <= n <= 6
    case Zeros(n) => 3 <= n <= 138
  }

  function Sub(a: nat, b: nat): nat {
    if b <= a then a - b else 0
  }

  function EncodeItem(cl: seq<byte>, it: LengthItem): (e: seq<bool>)
    ensures |e| > 0
  {
    EncodeSym(cl, ItemSymbol(it)) + NumBits(ItemMore(it), ItemExtra(it))
  }

  predicate ItemsOk(cl: seq<byte>, its: seq<LengthItem>) {
    forall i :: 0 <= i < |its| ==> ItemOk(cl, its[i])
  }

  function EncodeItems(cl: seq<byte>, its: seq<LengthItem>): seq<bool>
    decreases |its|
  {
    if its == [] then [] else EncodeItem(cl, its[0]) + EncodeItems(cl, its[1..])
  }

  function Times(v: byte, n: nat): (r: seq<byte>)
    ensures |r| == n && forall i :: 0 <= i < n ==> r[i] == v
  {
    if n == 0 then [] else Times(v, n - 1) + [v]
  }

  function ApplyItem(lens: seq<byte>, it: LengthItem): Option<seq<byte>> {
    match it
    case Plain(v) => Some(lens + [v])
    case Repeat(n) => if lens == [] then None else Some(lens + Times(lens[|lens| - 1], n))
    case Zeros(n) => Some(lens + Times(0, n))
  }

  /** The code lengths that a run-length coded list stands for. */
  function ApplyItems(lens: seq<byte>, its: seq<LengthItem>): Option<seq<byte>>
    decreases |its|
  {
    if its == [] then Some(lens)
    else
      var lens' := ApplyItem(lens, its[0]);
      if lens'.None? then None else ApplyItems(lens'.value, its[1..])
  }

  /** The order in which the lengths of the code length code are sent (section 3.2.7). */
  function Order(i: nat): nat {
    match i
    case 0 => 16 case 1 => 17 case 2 => 18 case 3 => 0 case 4 => 8 case 5 => 7 case 6 => 9
    case 7 => 6 case 8 => 10 case 9 => 5 case 10 => 11 case 11 => 4 case 12 => 12 case 13 => 3
    case 14 => 13 case 15 => 2 case 16 => 14 case 17 => 1 case 18 => 15
    case _ => 19
  }

  /** The `i`-th length sent. */
  function Sent(cl: seq<byte>, i: nat): byte {
    if Order(i) < |cl| then cl[Order(i)] else 0
  }

  function EncodeOrder(cl: seq<byte>, n: nat): (e: seq<bool>)
    ensures |e| == 3 * n
  {
    if n == 0 then [] else EncodeOrder(cl, n - 1) + NumBits(Sent(cl, n - 1), 3)
  }

  datatype Block =
    | Stored(pad: seq<bool>, data: seq<byte>)
    | Fixed(tokens: seq<Token>)
    | Dynamic(nlit: nat, ndist: nat, nclen: nat, cl: seq<byte>, items: seq<LengthItem>, tokens: seq<Token>)

  /** The fixed code lengths of section 3.2.6. */
  function FixedLit(): (r: seq<byte>)
    ensures |r| == 288 && forall i :: 0 <= i < 288 ==> r[i] == FixedLength(i)
  {
    seq(288, i requires 0 <= i < 288 => FixedLength(i))
  }

  function FixedLength(i: nat): byte {
    if i <= 143 then 8 else if i <= 255 then 9 else if i <= 279 then 7 else 8
  }

  function FixedDist(): (r: seq<byte>)
    ensures |r| == 32 && forall i :: 0 <= i < 32 ==> r[i] == 5
  {
    Times(5, 32)
  }

  /** The code length code: its lengths fit in 3 bits, and those not sent are zero. */
  predicate OrderOk(cl: seq<byte>, nclen: nat) {
    && |cl| == 19 && 4 <= nclen <= 19 && Kraft(cl)
    && (forall i :: 0 <= i < 19 ==> cl[i] < 8)
    && (forall i :: nclen <= i < 19 ==> Sent(cl, i) == 0)
  }

  /** The header of a dynamic block describes two prefix codes. */
  predicate HeaderOk(b: Block) {
    && b.Dynamic? && 257 <= b.nlit <= 286 && 1 <= b.ndist <= 32 && OrderOk(b.cl, b.nclen) && ItemsOk(b.cl, b.items)
    && var lens := ApplyItems([], b.items);
      && lens.Some? && |lens.value| == b.nlit + b.ndist
      && Kraft(DynamicLit(b)) && Kraft(DynamicDist(b))
  }

  function DynamicLit(b: Block): seq<byte>
    requires b.Dynamic?
  {
    var lens := ApplyItems([], b.items);
    if lens.Some? && b.nlit <= |lens.value| then lens.value[..b.nlit] else []
  }

  function DynamicDist(b: Block): seq<byte>
    requires b.Dynamic?
  {
    var lens := ApplyItems([], b.items);
    if lens.Some? && b.nlit <= |lens.value| then lens.value[b.nlit..] else []
  }

  predicate BlockOk(p: nat, b: Block) {
    match b
    case Stored(pad, data) => |pad| < 8 && (p + 3 + |pad|) % 8 == 0 && |data| < 0x1_0000
    case Fixed(ts) => TokensOk(FixedLit(), FixedDist(), ts)
    case Dynamic(_, _, _, _, _, ts) => HeaderOk(b) && TokensOk(DynamicLit(b), DynamicDist(b), ts)
  }

  function EncodeBytes(data: seq<byte>): (e: seq<bool>)
    ensures |e| == 8 * |data|
  {
    if data == [] then [] else EncodeBytes(data[..|data| - 1]) + NumBits(data[|data| - 1], 8)
  }

  function EncodeHeader(b: Block): seq<bool>
    requires b.Dynamic?
  {
    NumBits(Sub(b.nlit, 257), 5) + (NumBits(Sub(b.ndist, 1), 5) + (NumBits(Sub(b.nclen, 4), 4) +
    (EncodeOrder(b.cl, b.nclen) + EncodeItems(b.cl, b.items))))
  }

  function EncodeBody(b: Block): seq<bool> {
    match b
    case Stored(pad, data) =>
      pad + (NumBits(|data|, 16) + (NumBits(Sub(0xffff, |data|), 16) + EncodeBytes(data)))
    case Fixed(ts) => EncodeTokens(FixedLit(), FixedDist(), ts)
    case Dynamic(_, _, _, _, _, ts) => EncodeHeader(b) + EncodeTokens(DynamicLit(b), DynamicDist(b), ts)
  }

  function BlockType(b: Block): nat {
    match b
    case Stored(_, _) => 0
    case Fixed(_) => 1
    case Dynamic(_, _, _, _, _, _) => 2
  }

  /** A block (section 3.2.3). */
  function EncodeBlock(b: Block, last: bool): (e: seq<bool>)
    ensures |e| >= 3
  {
    NumBits(if last then 1 else 0, 1) + (NumBits(BlockType(b), 2) + EncodeBody(b))
  }

  function EncodeBlocks(bs: seq<Block>): seq<bool>
    decreases |bs|
  {
    if bs == [] then [] else EncodeBlock(bs[0], |bs| == 1) + EncodeBlocks(bs[1..])
  }

  /** Every block is well formed at the bit where it starts, the first one at bit `p`. */
  predicate BlocksOk(p: nat, bs: seq<Block>)
    decreases |bs|
  {
    bs == [] || (BlockOk(p, bs[0]) && BlocksOk(p + |EncodeBlock(bs[0], |bs| == 1)|, bs[1..]))
  }

  /** No stored block's 3-bit header ends on a byte boundary. */
  predicate OffBoundary(p: nat, bs: seq<Block>)
    decreases |bs|
  {
    bs == [] ||
    ((bs[0].Stored? ==> (p + 3) % 8 != 0) && OffBoundary(p + |EncodeBlock(bs[0], |bs| == 1)|, bs[1..]))
  }

  function ApplyBlock(o: seq<byte>, b: Block): Option<seq<byte>> {
    match b
    case Stored(_, data) => Some(o + data)
    case Fixed(ts) => ApplyAll(o, ts)
    case Dynamic(_, _, _, _, _, ts) => ApplyAll(o, ts)
  }

  /** The output of a sequence of blocks after the output `o`; none if a distance reaches too far back. */
  function Expand(o: seq<byte>, bs: seq<Block>): Option<seq<byte>>
    decreases |bs|
  {
    if bs == [] then Some(o)
    else
      var o' := ApplyBlock(o, bs[0]);
      if o'.None? then None else Expand(o'.value, bs[1..])
  }
}
