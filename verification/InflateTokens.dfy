/** The main loop of the inflate code: one block of literals and matches. */
module InflateTokens {
  import opened Bits
  import opened Huffman
  import opened LongCodes
  import opened Deflate
  import opened Layout
  import opened BitReader
  import opened InflateMatch
  import opened Wrappers

  /** An encoded symbol is found by the table lookup, whatever bits follow it. */
  lemma SymbolFound(s: seq<byte>, p: nat, bits: nat, codes: seq<byte>, t: seq<u16>, sym: nat)
    requires 15 <= bits && p + bits <= 8 * |s|
    requires Decodes(codes, t) && SymAt(s, p, codes, sym)
    ensures Lookup(t, BitsAt(s, p, bits)) == (sym, codes[sym] as nat)
  {
    BitsAtSplit(s, p, codes[sym], bits);
    assert Finds(codes, t, sym);
  }

  /** Refills the buffer and decodes one symbol. */
  method NextSymbol(r: Reader, table: array<u16>, ghost codes: seq<byte>, ghost sym: nat) returns (ok: bool, s: nat)
    requires r.Valid() && table.Length == 1024
    modifies r
    ensures r.Valid() && s < 512 && r.bits <= 46
    ensures if ok then old(r.Pos()) < r.Pos() else r.Starved() && r.Pos() == old(r.Pos())
    ensures ok && Decodes(codes, table[..]) && SymAt(r.input, old(r.Pos()), codes, sym) ==>
      s == sym && r.Pos() == SymEnd(old(r.Pos()), codes, sym)
    ensures ok ==> r.bits + r.Pos() >= old(r.Pos()) + 15
  {
    s := 0;
    ok := r.Fetch();
    if ok {
      if Decodes(codes, table[..]) && SymAt(r.input, r.Pos(), codes, sym) {
        SymbolFound(r.input, r.Pos(), r.bits, codes, table[..], sym);
      }
      s := r.Symbol(table);
    }
  }

  /** Decodes the rest of a match after its length symbol. */
  method DecodeMatch(r: Reader, lsym: nat, tdist: array<u16>, ghost dist: seq<byte>, ghost t: Token)
    returns (ok: bool, len: nat, d: nat)
    requires r.Valid() && 257 <= lsym && tdist.Length == 1024 && t.Match?
    modifies r
    ensures r.Valid() && old(r.Pos()) <= r.Pos()
    ensures ok ==> d >= 1
    ensures Decodes(dist, tdist[..]) && t.lsym == lsym <= 285 && t.dsym < 30 && MatchAt(r.input, old(r.Pos()), dist, t) ==>
      if ok then
        && r.Pos() == MatchEnd(old(r.Pos()), dist, t)
        && len == LengthBase(lsym) + t.lextra && d == DistanceBase(t.dsym) + t.dextra
      else r.Starved() && r.Pos() < MatchEnd(old(r.Pos()), dist, t)
  {
    hide Decodes, BitsAt, LengthBase, LengthExtra, DistanceBase, DistanceExtra, SymLength, Reader.OnWord;
    NoExtraDistance(0);
    len, d := 0, 0;
    ok, len := ReadLength(r, lsym);
    if !ok {
      return;
    }
    var dsym;
    ok, dsym := NextSymbol(r, tdist, dist, t.dsym);
    if !ok {
      return;
    }
    if dsym == 0 {
      d := 1;
    } else if dsym > 29 {
      ok := false;
    } else {
      ok, d := ReadDistance(r, dsym);
    }
  }

  /** There is no such output, or it does not fit in the buffer. */
  ghost predicate TooBig(o: Option<seq<byte>>, limit: nat) {
    o.None? || |o.value| > limit
  }

  /** Copies a match, unless it reaches outside the output buffer on either side. */
  method CopyMatch(out: array<byte>, pout0: nat, len: nat, d: nat) returns (ok: bool, pout: nat)
    requires pout0 <= out.Length && 1 <= d
    modifies out
    ensures pout0 <= pout <= out.Length && out[..pout0] == old(out[..pout0])
    ensures ok ==> CopyOf(old(out[..pout0]), len, d) == Some(out[..pout])
    ensures !ok ==> TooBig(CopyOf(old(out[..pout0]), len, d), out.Length)
  {
    if pout0 < d || out.Length - pout0 < len {
      if d <= pout0 {
        CopyLength(out[..pout0], len, d);
      }
      return false, pout0;
    }
    if d == 1 {
      RepeatLast(out, pout0, len);
    } else {
      CopyBack(out, pout0, len, d);
    }
    return true, pout0 + len;
  }

  /** Decodes the rest of a match and carries it out. */
  method MatchStep(r: Reader, lsym: nat, tdist: array<u16>, out: array<byte>, pout0: nat,
                   ghost dist: seq<byte>, ghost t: Token)
    returns (ok: bool, pout: nat)
    requires r.Valid() && 257 <= lsym && tdist.Length == 1024 && pout0 <= out.Length && out as object != tdist
    requires t.Match?
    modifies r, out
    ensures r.Valid() && old(r.Pos()) <= r.Pos()
    ensures pout0 <= pout <= out.Length && out[..pout0] == old(out[..pout0])
    ensures Decodes(dist, old(tdist[..])) && t.lsym == lsym <= 285 && t.dsym < 30 && MatchAt(r.input, old(r.Pos()), dist, t) ==>
      if ok then r.Pos() == MatchEnd(old(r.Pos()), dist, t) && Apply(old(out[..pout0]), t) == Some(out[..pout])
      else (r.Starved() && r.Pos() < MatchEnd(old(r.Pos()), dist, t)) || TooBig(Apply(old(out[..pout0]), t), out.Length)
  {
    hide Decodes, MatchAt, MatchEnd, LengthBase, DistanceBase, CopyOf, Reader.OnWord;
    ghost var o := out[..pout0];
    var len, d;
    pout := pout0;
    ok, len, d := DecodeMatch(r, lsym, tdist, dist, t);
    if !ok {
      return;
    }
    assert out[..pout] == o;
    ok, pout := CopyMatch(out, pout, len, d);
  }

  /** Writes one byte, if the output buffer has room for it. */
  method PutByte(out: array<byte>, pout0: nat, b: byte) returns (ok: bool, pout: nat)
    requires pout0 <= out.Length
    modifies out
    ensures ok <==> pout0 < out.Length
    ensures pout0 <= pout <= out.Length && out[..pout0] == old(out[..pout0])
    ensures ok ==> out[..pout] == old(out[..pout0]) + [b]
  {
    if pout0 == out.Length {
      return false, pout0;
    }
    out[pout0] := b;
    return true, pout0 + 1;
  }

  /** The symbol that comes first when the tokens `ts` are ahead. */
  function FirstSymbol(ts: seq<Token>): nat {
    if ts == [] then 256 else if ts[0].Match? then ts[0].lsym else ts[0].b
  }

  /** One turn of the loop: a literal, a match, or the end of the block. */
  method Step(r: Reader, tlit: array<u16>, tdist: array<u16>, out: array<byte>, pout0: nat,
              ghost lit: seq<byte>, ghost dist: seq<byte>, ghost ts: seq<Token>)
    returns (ok: bool, done: bool, pout: nat)
    requires r.Valid() && tlit.Length == tdist.Length == 1024 && pout0 <= out.Length
    requires out as object != tlit && out as object != tdist
    modifies r, out
    ensures r.Valid() && pout0 <= pout <= out.Length && out[..pout0] == old(out[..pout0])
    ensures old(r.Pos()) <= r.Pos() && (ok ==> old(r.Pos()) < r.Pos())
    ensures old(Decodes(lit, tlit[..]) && Decodes(dist, tdist[..])) && TokensAt(r.input, old(r.Pos()), lit, dist, ts) ==>
      var p, o := old(r.Pos()), old(out[..pout0]);
      if !ok then
        || (r.Starved() && r.Pos() + SymLength(lit, 256) <= TokensEnd(p, lit, dist, ts))
        || (ts != [] && TooBig(Apply(o, ts[0]), out.Length))
      else if ts == [] then
        && done && pout == pout0 && r.Pos() == TokensEnd(p, lit, dist, ts)
        && 8 * r.pin + SymLength(lit, 256) >= TokensEnd(p, lit, dist, ts) + 15
      else !done && r.Pos() == TokenEnd(p, lit, dist, ts[0]) && Apply(o, ts[0]) == Some(out[..pout])
  {
    ghost var p, o := r.Pos(), out[..pout0];
    ghost var good := Decodes(lit, tlit[..]) && Decodes(dist, tdist[..]) && TokensAt(r.input, p, lit, dist, ts);
    if good {
      TokensEndAfter(r.input, p, lit, dist, ts);
    }
    pout, done := pout0, false;
    var sym;
    ok, sym := NextSymbol(r, tlit, lit, FirstSymbol(ts));
    if !ok {
      return;
    }
    assert out[..pout] == o;
    if sym < 256 {
      ok, pout := PutByte(out, pout, sym);
    } else if sym == 256 {
      done := true;
    } else {
      ok, pout := MatchStep(r, sym, tdist, out, pout, dist, if ts != [] && ts[0].Match? then ts[0] else Match(0, 0, 0, 0));
    }
  }
}
