/** Where the parts of an encoded DEFLATE stream lie in the input, bit position by bit position. */
module Layout {
  import opened Bits
  import opened Huffman
  import opened Deflate

  /** The `n` bits from bit `p` are the number `v`. */
  ghost predicate NumAt(s: seq<byte>, p: nat, v: nat, n: nat) {
    p + n <= 8 * |s| && BitsAt(s, p, n) == v
  }

  /** The code of `sym` stands at bit `p`. */
  ghost predicate SymAt(s: seq<byte>, p: nat, codes: seq<byte>, sym: nat) {
    Coded(codes, sym) && NumAt(s, p, Rev(codes[sym], Code(codes, sym)), codes[sym])
  }

  /** The number of bits in the code of `sym`. */
  function SymLength(codes: seq<byte>, sym: nat): (n: nat)
    ensures Coded(codes, sym) ==> 1 <= n <= 15
  {
    if Coded(codes, sym) then codes[sym] else 0
  }

  /** Where the code of `sym` ends if it starts at bit `p`. */
  function SymEnd(p: nat, codes: seq<byte>, sym: nat): (q: nat)
    ensures Coded(codes, sym) ==> q > p
  {
    p + SymLength(codes, sym)
  }

  function TokenEnd(p: nat, lit: seq<byte>, dist: seq<byte>, t: Token): nat {
    match t
    case Literal(b) => SymEnd(p, lit, b)
    case Match(_, _, _, _) => MatchEnd(SymEnd(p, lit, t.lsym), dist, t)
  }

  /** Where a match ends if what follows its length symbol starts at bit `p`. */
  function MatchEnd(p: nat, dist: seq<byte>, t: Token): nat
    requires t.Match?
  {
    SymEnd(p + LengthExtra(t.lsym), dist, t.dsym) + DistanceExtra(t.dsym)
  }

  /** What follows the length symbol of a match stands at bit `p`. */
  ghost predicate MatchAt(s: seq<byte>, p: nat, dist: seq<byte>, t: Token)
    requires t.Match?
  {
    var q := p + LengthExtra(t.lsym);
    && NumAt(s, p, t.lextra, LengthExtra(t.lsym)) && SymAt(s, q, dist, t.dsym)
    && NumAt(s, SymEnd(q, dist, t.dsym), t.dextra, DistanceExtra(t.dsym))
  }

  ghost predicate TokenAt(s: seq<byte>, p: nat, lit: seq<byte>, dist: seq<byte>, t: Token) {
    TokenOk(lit, dist, t) &&
    match t
    case Literal(b) => SymAt(s, p, lit, b)
    case Match(_, _, _, _) => SymAt(s, p, lit, t.lsym) && MatchAt(s, SymEnd(p, lit, t.lsym), dist, t)
  }

  /** The tokens of a block stand at bit `p`, followed by the end-of-block symbol. */
  ghost predicate TokensAt(s: seq<byte>, p: nat, lit: seq<byte>, dist: seq<byte>, ts: seq<Token>)
    decreases |ts|
  {
    if ts == [] then SymAt(s, p, lit, 256)
    else TokenAt(s, p, lit, dist, ts[0]) && TokensAt(s, TokenEnd(p, lit, dist, ts[0]), lit, dist, ts[1..])
  }

  function TokensEnd(p: nat, lit: seq<byte>, dist: seq<byte>, ts: seq<Token>): nat
    decreases |ts|
  {
    if ts == [] then SymEnd(p, lit, 256) else TokensEnd(TokenEnd(p, lit, dist, ts[0]), lit, dist, ts[1..])
  }

  /** While tokens are ahead, so is the end-of-block symbol. */
  lemma {:induction false} TokensEndAfter(s: seq<byte>, p: nat, lit: seq<byte>, dist: seq<byte>, ts: seq<Token>)
    requires TokensAt(s, p, lit, dist, ts)
    ensures Coded(lit, 256) && p + SymLength(lit, 256) <= TokensEnd(p, lit, dist, ts)
    ensures ts != [] ==>
      p < TokenEnd(p, lit, dist, ts[0]) && TokenEnd(p, lit, dist, ts[0]) + SymLength(lit, 256) <= TokensEnd(p, lit, dist, ts)
    decreases |ts|
  {
    if ts != [] {
      TokensEndAfter(s, TokenEnd(p, lit, dist, ts[0]), lit, dist, ts[1..]);
    }
  }

  lemma NumEncoded(s: seq<byte>, p: nat, v: nat, n: nat)
    requires EncodedAt(s, p, NumBits(v, n)) && v < Pow(n)
    ensures NumAt(s, p, v, n)
  {
    NumBitsRead(s, p, v, n);
    DivModUnique(v, 0, v, Pow(n));
  }

  lemma SymEncoded(s: seq<byte>, p: nat, codes: seq<byte>, sym: nat)
    requires Coded(codes, sym) && EncodedAt(s, p, EncodeSym(codes, sym))
    ensures SymAt(s, p, codes, sym) && SymEnd(p, codes, sym) == p + |EncodeSym(codes, sym)|
  {
    CodeBitsRead(s, p, Code(codes, sym), codes[sym]);
  }

  lemma TailEncoded(s: seq<byte>, p: nat, lextra: nat, n: nat, dist: seq<byte>, dsym: nat, dextra: nat, m: nat)
    returns (q2: nat, q3: nat)
    requires EncodedAt(s, p, EncodeTail(lextra, n, dist, dsym, dextra, m))
    requires lextra < Pow(n) && Coded(dist, dsym) && dextra < Pow(m)
    ensures NumAt(s, p, lextra, n) && q2 == p + n
    ensures SymAt(s, q2, dist, dsym) && q3 == SymEnd(q2, dist, dsym)
    ensures NumAt(s, q3, dextra, m) && q3 + m == p + |EncodeTail(lextra, n, dist, dsym, dextra, m)|
  {
    var b, c, d := NumBits(lextra, n), EncodeSym(dist, dsym), NumBits(dextra, m);
    q2 := EncodedSplit(s, p, b, c + d);
    q3 := EncodedSplit(s, q2, c, d);
    NumEncoded(s, p, lextra, n);
    SymEncoded(s, q2, dist, dsym);
    NumEncoded(s, q3, dextra, m);
  }

  lemma TokenEncoded(s: seq<byte>, p: nat, lit: seq<byte>, dist: seq<byte>, t: Token)
    requires TokenOk(lit, dist, t) && EncodedAt(s, p, EncodeToken(lit, dist, t))
    ensures TokenAt(s, p, lit, dist, t) && TokenEnd(p, lit, dist, t) == p + |EncodeToken(lit, dist, t)|
  {
    hide EncodedAt, SymAt, NumAt, EncodeSym, EncodeTail, SymEnd, LengthExtra, DistanceExtra, Pow;
    match t
    case Literal(b) => SymEncoded(s, p, lit, b);
    case Match(lsym, lextra, dsym, dextra) =>
      var n, m := LengthExtra(lsym), DistanceExtra(dsym);
      var q := EncodedSplit(s, p, EncodeSym(lit, lsym), EncodeTail(lextra, n, dist, dsym, dextra, m));
      SymEncoded(s, p, lit, lsym);
      var _, _ := TailEncoded(s, q, lextra, n, dist, dsym, dextra, m);
  }

  lemma {:induction false} TokensEncoded(s: seq<byte>, p: nat, lit: seq<byte>, dist: seq<byte>, ts: seq<Token>)
    requires TokensOk(lit, dist, ts) && EncodedAt(s, p, EncodeTokens(lit, dist, ts))
    ensures TokensAt(s, p, lit, dist, ts) && TokensEnd(p, lit, dist, ts) == p + |EncodeTokens(lit, dist, ts)|
    decreases |ts|
  {
    if ts == [] {
      SymEncoded(s, p, lit, 256);
    } else {
      assert TokenOk(lit, dist, ts[0]);
      var a, b := EncodeToken(lit, dist, ts[0]), EncodeTokens(lit, dist, ts[1..]);
      assert EncodeTokens(lit, dist, ts) == a + b;
      var q := EncodedSplit(s, p, a, b);
      TokenEncoded(s, p, lit, dist, ts[0]);
      assert TokenEnd(p, lit, dist, ts[0]) == q;
      TokensEncoded(s, q, lit, dist, ts[1..]);
    }
  }

  function ItemEnd(p: nat, cl: seq<byte>, it: LengthItem): nat {
    SymEnd(p, cl, ItemSymbol(it)) + ItemExtra(it)
  }

  ghost predicate ItemAt(s: seq<byte>, p: nat, cl: seq<byte>, it: LengthItem) {
    && ItemOk(cl, it) && SymAt(s, p, cl, ItemSymbol(it))
    && NumAt(s, SymEnd(p, cl, ItemSymbol(it)), ItemMore(it), ItemExtra(it))
  }

  ghost predicate ItemsAt(s: seq<byte>, p: nat, cl: seq<byte>, its: seq<LengthItem>)
    decreases |its|
  {
    its == [] || (ItemAt(s, p, cl, its[0]) && ItemsAt(s, ItemEnd(p, cl, its[0]), cl, its[1..]))
  }

  function ItemsEnd(p: nat, cl: seq<byte>, its: seq<LengthItem>): nat
    decreases |its|
  {
    if its == [] then p else ItemsEnd(ItemEnd(p, cl, its[0]), cl, its[1..])
  }

  lemma {:induction false} ItemsEndAfter(s: seq<byte>, p: nat, cl: seq<byte>, its: seq<LengthItem>)
    requires ItemsAt(s, p, cl, its)
    ensures p <= ItemsEnd(p, cl, its)
    ensures its != [] ==> p < ItemEnd(p, cl, its[0]) <= ItemsEnd(p, cl, its)
    decreases |its|
  {
    if its != [] {
      ItemsEndAfter(s, ItemEnd(p, cl, its[0]), cl, its[1..]);
    }
  }

  lemma ItemMoreFits(cl: seq<byte>, it: LengthItem)
    requires ItemOk(cl, it)
    ensures ItemMore(it) < Pow(ItemExtra(it))
  {
    assert Pow(0) == 1 && Pow(2) == 4 && Pow(3) == 8 && Pow(7) == 128;
  }

  lemma ItemEncoded(s: seq<byte>, p: nat, cl: seq<byte>, it: LengthItem)
    requires ItemOk(cl, it) && EncodedAt(s, p, EncodeItem(cl, it))
    ensures ItemAt(s, p, cl, it) && ItemEnd(p, cl, it) == p + |EncodeItem(cl, it)|
  {
    var q := EncodedSplit(s, p, EncodeSym(cl, ItemSymbol(it)), NumBits(ItemMore(it), ItemExtra(it)));
    SymEncoded(s, p, cl, ItemSymbol(it));
    ItemMoreFits(cl, it);
    NumEncoded(s, q, ItemMore(it), ItemExtra(it));
  }

  lemma {:induction false} ItemsEncoded(s: seq<byte>, p: nat, cl: seq<byte>, its: seq<LengthItem>)
    requires ItemsOk(cl, its) && EncodedAt(s, p, EncodeItems(cl, its))
    ensures ItemsAt(s, p, cl, its) && ItemsEnd(p, cl, its) == p + |EncodeItems(cl, its)|
    decreases |its|
  {
    if its != [] {
      assert ItemOk(cl, its[0]);
      var a, b := EncodeItem(cl, its[0]), EncodeItems(cl, its[1..]);
      assert EncodeItems(cl, its) == a + b;
      var q := EncodedSplit(s, p, a, b);
      ItemEncoded(s, p, cl, its[0]);
      assert ItemEnd(p, cl, its[0]) == q;
      ItemsEncoded(s, q, cl, its[1..]);
    }
  }

  /** The first `n` lengths of the code length code stand at bit `p`, 3 bits each. */
  ghost predicate OrderAt(s: seq<byte>, p: nat, cl: seq<byte>, n: nat) {
    n == 0 || (OrderAt(s, p, cl, n - 1) && NumAt(s, p + 3 * (n - 1), Sent(cl, n - 1), 3))
  }

  lemma {:induction false} OrderEncoded(s: seq<byte>, p: nat, cl: seq<byte>, nclen: nat, n: nat)
    requires OrderOk(cl, nclen) && EncodedAt(s, p, EncodeOrder(cl, n))
    ensures OrderAt(s, p, cl, n)
    decreases n
  {
    if n > 0 {
      var q := EncodedSplit(s, p, EncodeOrder(cl, n - 1), NumBits(Sent(cl, n - 1), 3));
      OrderEncoded(s, p, cl, nclen, n - 1);
      assert Pow(3) == 8;
      NumEncoded(s, q, Sent(cl, n - 1), 3);
    }
  }

  /** The table part of a dynamic block stands at bit `p`. */
  ghost predicate HeaderAt(s: seq<byte>, p: nat, b: Block)
    requires b.Dynamic?
  {
    && NumAt(s, p, Sub(b.nlit, 257), 5) && NumAt(s, p + 5, Sub(b.ndist, 1), 5) && NumAt(s, p + 10, Sub(b.nclen, 4), 4)
    && OrderAt(s, p + 14, b.cl, b.nclen) && ItemsAt(s, p + 14 + 3 * b.nclen, b.cl, b.items)
  }

  function HeaderEnd(p: nat, b: Block): nat
    requires b.Dynamic?
  {
    ItemsEnd(p + 14 + 3 * b.nclen, b.cl, b.items)
  }

  lemma HeaderEncoded(s: seq<byte>, p: nat, b: Block)
    requires HeaderOk(b) && EncodedAt(s, p, EncodeHeader(b))
    ensures HeaderAt(s, p, b) && HeaderEnd(p, b) == p + |EncodeHeader(b)|
  {
    hide EncodedAt, NumBits, EncodeOrder, EncodeItems, NumAt, OrderAt, ItemsAt, ItemsEnd, Kraft, DynamicLit, DynamicDist;
    var n1, n2, n3 := NumBits(Sub(b.nlit, 257), 5), NumBits(Sub(b.ndist, 1), 5), NumBits(Sub(b.nclen, 4), 4);
    var e, f := EncodeOrder(b.cl, b.nclen), EncodeItems(b.cl, b.items);
    var q1 := EncodedSplit(s, p, n1, n2 + (n3 + (e + f)));
    var q2 := EncodedSplit(s, q1, n2, n3 + (e + f));
    var q3 := EncodedSplit(s, q2, n3, e + f);
    var q4 := EncodedSplit(s, q3, e, f);
    assert Pow(4) == 16 && Pow(5) == 32;
    NumEncoded(s, p, Sub(b.nlit, 257), 5);
    NumEncoded(s, q1, Sub(b.ndist, 1), 5);
    NumEncoded(s, q2, Sub(b.nclen, 4), 4);
    OrderEncoded(s, q3, b.cl, b.nclen, b.nclen);
    ItemsEncoded(s, q4, b.cl, b.items);
  }

  /** The bytes `data` stand in the input from byte `i` on. */
  ghost predicate BytesAt(s: seq<byte>, i: nat, data: seq<byte>) {
    i + |data| <= |s| && s[i..i + |data|] == data
  }

  lemma {:induction false} BytesEncoded(s: seq<byte>, i: nat, data: seq<byte>)
    requires EncodedAt(s, 8 * i, EncodeBytes(data))
    ensures BytesAt(s, i, data)
    decreases |data|
  {
    hide EncodedAt, NumBits, BitsAt, Pow;
    EncodedFits(s, 8 * i, EncodeBytes(data));
    if data != [] {
      var n: nat := |data| - 1;
      var q := EncodedSplit(s, 8 * i, EncodeBytes(data[..n]), NumBits(data[n], 8));
      BytesEncoded(s, i, data[..n]);
      PowTable();
      NumEncoded(s, q, data[n], 8);
      assert q == 8 * (i + n);
      ByteBits(s, i + n);
      NextByte(s, i, data);
    }
  }

  lemma NextByte(s: seq<byte>, i: nat, data: seq<byte>)
    requires data != [] && BytesAt(s, i, data[..|data| - 1]) && i + |data| <= |s|
    requires s[i + |data| - 1] == data[|data| - 1]
    ensures BytesAt(s, i, data)
  {
    var n: nat := |data| - 1;
    assert s[i..i + |data|] == s[i..i + n] + [s[i + n]];
    assert data == data[..n] + [data[n]];
  }

  /** The body of a block, after its 3-bit header, stands at bit `p`. */
  ghost predicate BodyAt(s: seq<byte>, p: nat, b: Block) {
    match b
    case Stored(pad, data) =>
      var q := p + |pad|;
      && q % 8 == 0 && |pad| < 8 && |data| < 0x1_0000
      && NumAt(s, q, |data|, 16) && NumAt(s, q + 16, 0xffff - |data|, 16) && BytesAt(s, q / 8 + 4, data)
    case Fixed(ts) => TokensAt(s, p, FixedLit(), FixedDist(), ts)
    case Dynamic(_, _, _, _, _, ts) =>
      HeaderOk(b) && HeaderAt(s, p, b) && TokensAt(s, HeaderEnd(p, b), DynamicLit(b), DynamicDist(b), ts)
  }

  function BodyEnd(p: nat, b: Block): nat {
    match b
    case Stored(pad, data) => p + |pad| + 32 + 8 * |data|
    case Fixed(ts) => TokensEnd(p, FixedLit(), FixedDist(), ts)
    case Dynamic(_, _, _, _, _, ts) => TokensEnd(HeaderEnd(p, b), DynamicLit(b), DynamicDist(b), ts)
  }

  lemma StoredEncoded(s: seq<byte>, p: nat, b: Block)
    requires b.Stored? && (p + |b.pad|) % 8 == 0 && |b.pad| < 8 && |b.data| < 0x1_0000 && EncodedAt(s, p, EncodeBody(b))
    ensures BodyAt(s, p, b) && BodyEnd(p, b) == p + |EncodeBody(b)| && EncodedAt(s, p, b.pad)
  {
    hide EncodedAt, NumBits, EncodeBytes, NumAt, BytesAt;
    var n1, n2, e := NumBits(|b.data|, 16), NumBits(Sub(0xffff, |b.data|), 16), EncodeBytes(b.data);
    var q1 := EncodedSplit(s, p, b.pad, n1 + (n2 + e));
    var q2 := EncodedSplit(s, q1, n1, n2 + e);
    var q3 := EncodedSplit(s, q2, n2, e);
    PowTable();
    NumEncoded(s, q1, |b.data|, 16);
    NumEncoded(s, q2, 0xffff - |b.data|, 16);
    BytesEncoded(s, q1 / 8 + 4, b.data);
  }

  lemma BodyEncoded(s: seq<byte>, p: nat, b: Block)
    requires p >= 3 && BlockOk(p - 3, b) && EncodedAt(s, p, EncodeBody(b))
    ensures BodyAt(s, p, b) && BodyEnd(p, b) == p + |EncodeBody(b)| && PadAt(s, p, b)
  {
    hide EncodeHeader, HeaderAt, HeaderEnd, EncodeTokens, TokensAt, TokensEnd, HeaderOk, TokensOk;
    match b
    case Stored(_, _) => StoredEncoded(s, p, b);
    case Fixed(ts) => TokensEncoded(s, p, FixedLit(), FixedDist(), ts);
    case Dynamic(_, _, _, _, _, ts) =>
      var q := EncodedSplit(s, p, EncodeHeader(b), EncodeTokens(DynamicLit(b), DynamicDist(b), ts));
      HeaderEncoded(s, p, b);
      TokensEncoded(s, q, DynamicLit(b), DynamicDist(b), ts);
  }

  /** Two parts that stand one behind the other. */
  lemma Joined(s: seq<byte>, p: nat, a: seq<bool>, b: seq<bool>)
    requires EncodedAt(s, p, a) && EncodedAt(s, p + |a|, b)
    ensures EncodedAt(s, p, a + b)
  {
    forall i | 0 <= i < |a + b|
      ensures SameBit(s, p, a + b, i)
    {
      if i < |a| {
        assert SameBit(s, p, a, i);
      } else {
        assert SameBit(s, p + |a|, b, i - |a|);
      }
    }
  }

  lemma OneBitWritten(s: seq<byte>, p: nat, b: bool)
    requires p < 8 * |s| && BitsAt(s, p, 1) == if b then 1 else 0
    ensures EncodedAt(s, p, [b])
  {
    assert BitsAt(s, p, 0) == 0 && Pow(0) == 1;
    assert SameBit(s, p, [b], 0);
  }

  lemma {:induction false} NumWritten(s: seq<byte>, p: nat, v: nat, n: nat)
    requires p + n <= 8 * |s| && BitsAt(s, p, n) == v % Pow(n)
    ensures EncodedAt(s, p, NumBits(v, n))
    decreases n
  {
    hide BitsAt, EncodedAt;
    if n > 0 {
      BitsAtSplit(s, p, 1, n);
      HalfMod(v, Pow(n - 1));
      PowTable();
      NumWritten(s, p + 1, v / 2, n - 1);
      OneBitWritten(s, p, v % 2 == 1);
      Joined(s, p, [v % 2 == 1], NumBits(v / 2, n - 1));
    } else {
      NothingWritten(s, p);
    }
  }

  lemma NothingWritten(s: seq<byte>, p: nat)
    requires p <= 8 * |s|
    ensures EncodedAt(s, p, [])
  {
  }

  lemma {:induction false} CodeWritten(s: seq<byte>, p: nat, c: nat, n: nat)
    requires p + n <= 8 * |s| && BitsAt(s, p, n) == Rev(n, c)
    ensures EncodedAt(s, p, CodeBits(c, n))
  {
    if n > 0 {
      CodeWritten(s, p, c / 2, n - 1);
      assert SameBit(s, p + n - 1, [c % 2 == 1], 0);
      Joined(s, p, CodeBits(c / 2, n - 1), [c % 2 == 1]);
    }
  }

  lemma NumThere(s: seq<byte>, p: nat, v: nat, n: nat)
    requires NumAt(s, p, v, n)
    ensures EncodedAt(s, p, NumBits(v, n))
  {
    DivModUnique(v, 0, v, Pow(n));
    NumWritten(s, p, v, n);
  }

  lemma SymThere(s: seq<byte>, p: nat, codes: seq<byte>, sym: nat)
    requires SymAt(s, p, codes, sym)
    ensures EncodedAt(s, p, EncodeSym(codes, sym)) && SymEnd(p, codes, sym) == p + |EncodeSym(codes, sym)|
  {
    CodeWritten(s, p, Code(codes, sym), codes[sym]);
  }

  lemma TokenThere(s: seq<byte>, p: nat, lit: seq<byte>, dist: seq<byte>, t: Token)
    requires TokenAt(s, p, lit, dist, t)
    ensures EncodedAt(s, p, EncodeToken(lit, dist, t)) && TokenEnd(p, lit, dist, t) == p + |EncodeToken(lit, dist, t)|
  {
    hide EncodedAt, SymAt, NumAt, EncodeSym, SymEnd, LengthExtra, DistanceExtra, Pow;
    match t
    case Literal(b) => SymThere(s, p, lit, b);
    case Match(lsym, lextra, dsym, dextra) =>
      var n, m := LengthExtra(lsym), DistanceExtra(dsym);
      var a, b, c, d := EncodeSym(lit, lsym), NumBits(lextra, n), EncodeSym(dist, dsym), NumBits(dextra, m);
      SymThere(s, p, lit, lsym);
      NumThere(s, p + |a|, lextra, n);
      SymThere(s, p + |a| + n, dist, dsym);
      NumThere(s, p + |a| + n + |c|, dextra, m);
      Joined(s, p + |a| + n, c, d);
      Joined(s, p + |a|, b, c + d);
      Joined(s, p, a, b + (c + d));
  }

  lemma {:induction false} TokensThere(s: seq<byte>, p: nat, lit: seq<byte>, dist: seq<byte>, ts: seq<Token>)
    requires TokensAt(s, p, lit, dist, ts)
    ensures EncodedAt(s, p, EncodeTokens(lit, dist, ts)) && TokensOk(lit, dist, ts)
    ensures TokensEnd(p, lit, dist, ts) == p + |EncodeTokens(lit, dist, ts)|
    decreases |ts|
  {
    hide EncodedAt, EncodeToken, EncodeSym, SymEnd, TokenEnd, NumAt, TokenOk, Coded;
    if ts == [] {
      SymThere(s, p, lit, 256);
    } else {
      var a, b := EncodeToken(lit, dist, ts[0]), EncodeTokens(lit, dist, ts[1..]);
      TokenThere(s, p, lit, dist, ts[0]);
      TokensThere(s, p + |a|, lit, dist, ts[1..]);
      Joined(s, p, a, b);
      assert forall i :: 0 < i < |ts| ==> ts[i] == ts[1..][i - 1];
    }
  }

  lemma ItemThere(s: seq<byte>, p: nat, cl: seq<byte>, it: LengthItem)
    requires ItemAt(s, p, cl, it)
    ensures EncodedAt(s, p, EncodeItem(cl, it)) && ItemEnd(p, cl, it) == p + |EncodeItem(cl, it)|
  {
    var a, b := EncodeSym(cl, ItemSymbol(it)), NumBits(ItemMore(it), ItemExtra(it));
    SymThere(s, p, cl, ItemSymbol(it));
    NumThere(s, p + |a|, ItemMore(it), ItemExtra(it));
    Joined(s, p, a, b);
  }

  lemma {:induction false} ItemsThere(s: seq<byte>, p: nat, cl: seq<byte>, its: seq<LengthItem>)
    requires p <= 8 * |s| && ItemsAt(s, p, cl, its)
    ensures EncodedAt(s, p, EncodeItems(cl, its)) && ItemsOk(cl, its)
    ensures ItemsEnd(p, cl, its) == p + |EncodeItems(cl, its)|
    decreases |its|
  {
    hide EncodedAt, EncodeItem, ItemEnd, ItemOk, SymAt, NumAt;
    if its == [] {
      NothingWritten(s, p);
    } else {
      var a, b := EncodeItem(cl, its[0]), EncodeItems(cl, its[1..]);
      ItemThere(s, p, cl, its[0]);
      EncodedFits(s, p, a);
      ItemsThere(s, p + |a|, cl, its[1..]);
      Joined(s, p, a, b);
      assert forall i :: 0 < i < |its| ==> its[i] == its[1..][i - 1];
    }
  }

  lemma {:induction false} OrderThere(s: seq<byte>, p: nat, cl: seq<byte>, n: nat)
    requires p <= 8 * |s| && OrderAt(s, p, cl, n)
    ensures EncodedAt(s, p, EncodeOrder(cl, n))
    decreases n
  {
    hide EncodedAt, NumAt, Sent;
    if n == 0 {
      NothingWritten(s, p);
    } else {
      OrderThere(s, p, cl, n - 1);
      NumThere(s, p + 3 * (n - 1), Sent(cl, n - 1), 3);
      Joined(s, p, EncodeOrder(cl, n - 1), NumBits(Sent(cl, n - 1), 3));
    }
  }

  lemma HeaderThere(s: seq<byte>, p: nat, b: Block)
    requires b.Dynamic? && HeaderAt(s, p, b)
    ensures EncodedAt(s, p, EncodeHeader(b)) && HeaderEnd(p, b) == p + |EncodeHeader(b)|
  {
    hide EncodedAt, NumBits, EncodeOrder, EncodeItems, OrderAt, ItemsAt, ItemsEnd;
    var n1, n2, n3 := NumBits(Sub(b.nlit, 257), 5), NumBits(Sub(b.ndist, 1), 5), NumBits(Sub(b.nclen, 4), 4);
    var e, f := EncodeOrder(b.cl, b.nclen), EncodeItems(b.cl, b.items);
    NumThere(s, p, Sub(b.nlit, 257), 5);
    NumThere(s, p + 5, Sub(b.ndist, 1), 5);
    NumThere(s, p + 10, Sub(b.nclen, 4), 4);
    OrderThere(s, p + 14, b.cl, b.nclen);
    EncodedFits(s, p + 14, e);
    ItemsThere(s, p + 14 + 3 * b.nclen, b.cl, b.items);
    Joined(s, p + 14, e, f);
    Joined(s, p + 10, n3, e + f);
    Joined(s, p + 5, n2, n3 + (e + f));
    Joined(s, p, n1, n2 + (n3 + (e + f)));
  }

  lemma {:induction false} BytesThere(s: seq<byte>, i: nat, data: seq<byte>)
    requires BytesAt(s, i, data)
    ensures EncodedAt(s, 8 * i, EncodeBytes(data))
    decreases |data|
  {
    hide EncodedAt, NumBits, BitsAt;
    if data == [] {
      NothingWritten(s, 8 * i);
    } else {
      var n: nat := |data| - 1;
      assert s[i..i + n] == s[i..i + |data|][..n];
      BytesThere(s, i, data[..n]);
      assert s[i + n] == s[i..i + |data|][n];
      ByteBits(s, i + n);
      PowTable();
      NumWritten(s, 8 * (i + n), data[n], 8);
      Joined(s, 8 * i, EncodeBytes(data[..n]), NumBits(data[n], 8));
    }
  }

  lemma StoredThere(s: seq<byte>, p: nat, b: Block)
    requires b.Stored? && BodyAt(s, p, b) && EncodedAt(s, p, b.pad)
    ensures EncodedAt(s, p, EncodeBody(b)) && BodyEnd(p, b) == p + |EncodeBody(b)|
  {
    hide EncodedAt, NumBits, EncodeBytes;
    var n1, n2, e := NumBits(|b.data|, 16), NumBits(Sub(0xffff, |b.data|), 16), EncodeBytes(b.data);
    var q := p + |b.pad|;
    NumThere(s, q, |b.data|, 16);
    NumThere(s, q + 16, Sub(0xffff, |b.data|), 16);
    BytesThere(s, q / 8 + 4, b.data);
    Joined(s, q + 16, n2, e);
    Joined(s, q, n1, n2 + e);
    Joined(s, p, b.pad, n1 + (n2 + e));
  }

  /** The padding in front of a stored block is there as it is in the block; it means nothing. */
  ghost predicate PadAt(s: seq<byte>, p: nat, b: Block) {
    b.Stored? ==> EncodedAt(s, p, b.pad)
  }

  lemma DynamicThere(s: seq<byte>, p: nat, b: Block)
    requires b.Dynamic? && BodyAt(s, p, b)
    ensures EncodedAt(s, p, EncodeBody(b)) && BodyEnd(p, b) == p + |EncodeBody(b)|
    ensures TokensOk(DynamicLit(b), DynamicDist(b), b.tokens)
  {
    hide EncodedAt, EncodeHeader, HeaderAt, HeaderEnd, EncodeTokens, TokensAt, TokensEnd, HeaderOk, TokensOk,
      DynamicLit, DynamicDist;
    HeaderThere(s, p, b);
    TokensThere(s, HeaderEnd(p, b), DynamicLit(b), DynamicDist(b), b.tokens);
    Joined(s, p, EncodeHeader(b), EncodeTokens(DynamicLit(b), DynamicDist(b), b.tokens));
  }

  lemma FixedThere(s: seq<byte>, p: nat, b: Block)
    requires b.Fixed? && BodyAt(s, p, b)
    ensures EncodedAt(s, p, EncodeBody(b)) && BodyEnd(p, b) == p + |EncodeBody(b)|
    ensures TokensOk(FixedLit(), FixedDist(), b.tokens)
  {
    hide EncodedAt, EncodeTokens, TokensAt, TokensEnd, TokensOk, FixedLit, FixedDist;
    TokensThere(s, p, FixedLit(), FixedDist(), b.tokens);
  }

  lemma BodyThere(s: seq<byte>, p: nat, b: Block)
    requires p >= 3 && BodyAt(s, p, b) && PadAt(s, p, b)
    ensures EncodedAt(s, p, EncodeBody(b)) && BodyEnd(p, b) == p + |EncodeBody(b)| && BlockOk(p - 3, b)
  {
    hide EncodedAt, EncodeBody, BodyEnd, HeaderAt, TokensAt, HeaderOk, TokensOk, DynamicLit, DynamicDist, FixedLit,
      FixedDist, NumAt, BytesAt;
    match b
    case Stored(_, _) => StoredThere(s, p, b);
    case Fixed(_) => FixedThere(s, p, b);
    case Dynamic(_, _, _, _, _, _) => DynamicThere(s, p, b);
  }

  /** The padding of every stored block. */
  ghost predicate PadsAt(s: seq<byte>, p: nat, bs: seq<Block>)
    decreases |bs|
  {
    bs == [] || (PadAt(s, p + 3, bs[0]) && PadsAt(s, BodyEnd(p + 3, bs[0]), bs[1..]))
  }

  /** The blocks stand at bit `p`, the last one marked as such. */
  ghost predicate BlocksAt(s: seq<byte>, p: nat, bs: seq<Block>)
    decreases |bs|
  {
    bs == [] ||
    (&& NumAt(s, p, if |bs| == 1 then 1 else 0, 1) && NumAt(s, p + 1, BlockType(bs[0]), 2)
     && BodyAt(s, p + 3, bs[0]) && BlocksAt(s, BodyEnd(p + 3, bs[0]), bs[1..]))
  }

  function BlocksEnd(p: nat, bs: seq<Block>): nat
    decreases |bs|
  {
    if bs == [] then p else BlocksEnd(BodyEnd(p + 3, bs[0]), bs[1..])
  }

  /** No stored block's 3-bit header ends on a byte boundary. */
  predicate OffBoundaryAt(p: nat, bs: seq<Block>)
    decreases |bs|
  {
    bs == [] || ((bs[0].Stored? ==> (p + 3) % 8 != 0) && OffBoundaryAt(BodyEnd(p + 3, bs[0]), bs[1..]))
  }

  lemma {:induction false} BlocksEncoded(s: seq<byte>, p: nat, bs: seq<Block>)
    requires BlocksOk(p, bs) && EncodedAt(s, p, EncodeBlocks(bs))
    ensures BlocksAt(s, p, bs) && PadsAt(s, p, bs) && BlocksEnd(p, bs) == p + |EncodeBlocks(bs)|
    ensures OffBoundary(p, bs) <==> OffBoundaryAt(p, bs)
    decreases |bs|
  {
    hide EncodeBlock, BodyAt, BodyEnd, BlockOk, PadAt;
    if bs != [] {
      var a, b := EncodeBlock(bs[0], |bs| == 1), EncodeBlocks(bs[1..]);
      assert EncodeBlocks(bs) == a + b;
      var q := EncodedSplit(s, p, a, b);
      BlockEncoded(s, p, bs[0], |bs| == 1);
      BlocksEncoded(s, q, bs[1..]);
    }
  }

  lemma BlockEncoded(s: seq<byte>, p: nat, b: Block, last: bool)
    requires BlockOk(p, b) && EncodedAt(s, p, EncodeBlock(b, last))
    ensures NumAt(s, p, if last then 1 else 0, 1) && NumAt(s, p + 1, BlockType(b), 2)
    ensures PadAt(s, p + 3, b) && BodyAt(s, p + 3, b) && BodyEnd(p + 3, b) == p + |EncodeBlock(b, last)|
  {
    hide EncodeBody, BodyAt, BodyEnd, BlockOk, PadAt;
    var n1, n2, e := NumBits(if last then 1 else 0, 1), NumBits(BlockType(b), 2), EncodeBody(b);
    var q1 := EncodedSplit(s, p, n1, n2 + e);
    var q2 := EncodedSplit(s, q1, n2, e);
    assert Pow(1) == 2 && Pow(2) == 4;
    NumEncoded(s, p, if last then 1 else 0, 1);
    NumEncoded(s, q1, BlockType(b), 2);
    BodyEncoded(s, q2, b);
  }

  lemma BlockThere(s: seq<byte>, p: nat, b: Block, last: bool)
    requires NumAt(s, p, if last then 1 else 0, 1) && NumAt(s, p + 1, BlockType(b), 2)
    requires BodyAt(s, p + 3, b) && PadAt(s, p + 3, b)
    ensures EncodedAt(s, p, EncodeBlock(b, last)) && BlockOk(p, b) && BodyEnd(p + 3, b) == p + |EncodeBlock(b, last)|
  {
    hide EncodedAt, EncodeBody, BodyAt, BodyEnd, BlockOk, PadAt;
    var n1, n2, e := NumBits(if last then 1 else 0, 1), NumBits(BlockType(b), 2), EncodeBody(b);
    NumThere(s, p, if last then 1 else 0, 1);
    NumThere(s, p + 1, BlockType(b), 2);
    BodyThere(s, p + 3, b);
    Joined(s, p + 1, n2, e);
    Joined(s, p, n1, n2 + e);
  }

  /** Where the blocks lie as the positions say, the input is their encoding. */
  lemma {:induction false} BlocksThere(s: seq<byte>, p: nat, bs: seq<Block>)
    requires p <= 8 * |s| && BlocksAt(s, p, bs) && PadsAt(s, p, bs)
    ensures EncodedAt(s, p, EncodeBlocks(bs)) && BlocksOk(p, bs)
    decreases |bs|
  {
    hide EncodedAt, EncodeBlock, BodyAt, BodyEnd, BlockOk, PadAt, NumAt;
    if bs == [] {
      NothingWritten(s, p);
    } else {
      var a, b := EncodeBlock(bs[0], |bs| == 1), EncodeBlocks(bs[1..]);
      BlockThere(s, p, bs[0], |bs| == 1);
      EncodedFits(s, p, a);
      BlocksThere(s, p + |a|, bs[1..]);
      Joined(s, p, a, b);
    }
  }

  /** The largest symbol, no larger than `lsym`, whose lengths start at or below `len`. */
  lemma {:induction false} LengthSymbol(len: nat, lsym: nat) returns (l: nat)
    requires 257 <= lsym <= 284 && 3 <= len && (lsym < 284 ==> len < LengthBase(lsym + 1)) && len < 258
    ensures 257 <= l <= 284 && LengthBase(l) <= len < LengthBase(l) + Pow(LengthExtra(l)) && (l == 284 ==> len < 258)
    decreases lsym
  {
    PowTable();
    if LengthBase(lsym) <= len {
      l := lsym;
    } else {
      l := LengthSymbol(len, lsym - 1);
    }
  }

  lemma {:induction false} DistanceSymbol(dist: nat, dsym: nat) returns (d: nat)
    requires dsym <= 29 && 1 <= dist <= 32768 && (dsym < 29 ==> dist < DistanceBase(dsym + 1))
    ensures d <= 29 && DistanceBase(d) <= dist < DistanceBase(d) + Pow(DistanceExtra(d))
    decreases dsym
  {
    PowTable();
    assert Pow(9) == 512 && Pow(10) == 1024 && Pow(11) == 2048 && Pow(12) == 4096 && Pow(13) == 8192;
    if DistanceBase(dsym) <= dist {
      d := dsym;
    } else {
      d := DistanceSymbol(dist, dsym - 1);
    }
  }

  /** Every length from 3 to 258 and every distance up to 32768 is expressed by some match token. */
  lemma MatchExists(len: nat, dist: nat) returns (t: Token)
    requires 3 <= len <= 258 && 1 <= dist <= 32768
    ensures t.Match? && 257 <= t.lsym <= 285 && t.dsym < 30
    ensures LengthBase(t.lsym) + t.lextra == len && DistanceBase(t.dsym) + t.dextra == dist
    ensures forall lit, dist :: Coded(lit, t.lsym) && Coded(dist, t.dsym) ==> TokenOk(lit, dist, t)
  {
    var d := DistanceSymbol(dist, 29);
    var l := 285;
    if len < 258 {
      l := LengthSymbol(len, 284);
    }
    t := Match(l, len - LengthBase(l), d, dist - DistanceBase(d));
    assert Pow(0) == 1;
  }

  /** Every code length symbol with every value of its extra bits is expressed by some item. */
  lemma ItemExists(sym: nat, more: nat) returns (it: LengthItem)
    requires sym <= 18 && more < if sym == 16 then 4 else if sym == 17 then 8 else if sym == 18 then 128 else 1
    ensures ItemSymbol(it) == sym && ItemMore(it) == more
    ensures ItemExtra(it) == if sym == 16 then 2 else if sym == 17 then 3 else if sym == 18 then 7 else 0
    ensures forall cl :: Coded(cl, sym) ==> ItemOk(cl, it)
  {
    it := if sym == 16 then Repeat(3 + more)
          else if sym == 17 then Zeros(3 + more)
          else if sym == 18 then Zeros(11 + more)
          else Plain(sym);
  }
}
