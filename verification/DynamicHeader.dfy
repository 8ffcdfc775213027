/** Reading the code lengths of a dynamic block and building its tables. */
module DynamicHeader {
  import opened Bits
  import opened Huffman
  import opened LongCodes
  import opened Deflate
  import opened Layout
  import opened BitReader
  import opened InflateTokens
  import opened Wrappers

  /** The inverse of `Order`. */
  function Position(sym: nat): nat {
    match sym
    case 0 => 3 case 1 => 17 case 2 => 15 case 3 => 13 case 4 => 11 case 5 => 9 case 6 => 7
    case 7 => 5 case 8 => 4 case 9 => 6 case 10 => 8 case 11 => 10 case 12 => 12 case 13 => 14
    case 14 => 16 case 15 => 18 case 16 => 0 case 17 => 1 case 18 => 2
    case _ => 19
  }

  lemma PositionOfOrder(i: nat)
    requires i < 19
    ensures Order(i) < 19 && Position(Order(i)) == i
  {
  }

  lemma OrderOfPosition(sym: nat)
    requires sym < 19
    ensures Position(sym) < 19 && Order(Position(sym)) == sym
  {
  }

  lemma OnlyOrder(i: nat)
    ensures forall x :: 0 <= x < 19 && Position(x) == i ==> x == Order(i)
  {
    forall x | 0 <= x < 19 && Position(x) == i
      ensures x == Order(i)
    {
      OrderOfPosition(x);
    }
  }

  /** Lengths that are not sent are zero. */
  lemma AllSent(cl: seq<byte>, nclen: nat)
    requires OrderOk(cl, nclen)
    ensures forall x :: 0 <= x < 19 && Position(x) >= nclen ==> cl[x] == 0
  {
    forall x | 0 <= x < 19 && Position(x) >= nclen
      ensures cl[x] == 0
    {
      OrderOfPosition(x);
      assert Sent(cl, Position(x)) == 0;
    }
  }

  lemma {:induction false} OrderAtPrefix(s: seq<byte>, p: nat, cl: seq<byte>, i: nat, n: nat)
    requires i < n && OrderAt(s, p, cl, n)
    ensures NumAt(s, p + 3 * i, Sent(cl, i), 3)
    decreases n
  {
    if i < n - 1 {
      OrderAtPrefix(s, p, cl, i, n - 1);
    }
  }

  /** The lengths `cl` have been received from the first `i` that are sent; the others are zero. */
  ghost predicate Received(codes: seq<byte>, cl: seq<byte>, i: nat) {
    |codes| == |cl| == 19 && forall x :: 0 <= x < 19 ==> codes[x] == if Position(x) < i then cl[x] else 0
  }

  /** `i` of the lengths that start at bit `p` have been read. */
  ghost predicate OrderRead(r: Reader, codebits: array<byte>, p: nat, nclen: nat, cl: seq<byte>, i: nat)
    reads r, codebits
  {
    && r.Valid() && r.Pos() == p + 3 * i && codebits.Length == 19
    && (forall x :: 0 <= x < 19 ==> codebits[x] < 8)
    && (OrderOk(cl, nclen) && OrderAt(r.input, p, cl, nclen) ==> Received(codebits[..], cl, i))
  }

  /** Reads one length, that of the symbol `sym`. */
  method OneLength(r: Reader, codebits: array<byte>, sym: nat,
                   ghost p: nat, ghost nclen: nat, ghost cl: seq<byte>, ghost i: nat)
    requires OrderRead(r, codebits, p, nclen, cl, i) && 3 <= r.bits && i < nclen <= 19 && sym == Order(i)
    modifies r, codebits
    ensures OrderRead(r, codebits, p, nclen, cl, i + 1) && r.bits == old(r.bits) - 3
  {
    hide OrderAt, Kraft, BitsAt, Order, Position, Pow, Reader.OnWord;
    PowTable();
    var v := r.Take(3);
    if OrderOk(cl, nclen) && OrderAt(r.input, p, cl, nclen) {
      OrderAtPrefix(r.input, p, cl, i, nclen);
    }
    PositionOfOrder(i);
    OnlyOrder(i);
    codebits[sym] := v;
  }

  /** Refills the buffer and reads up to five lengths, those of the given symbols, but no more than `nclen` in all. */
  method FiveLengths(r: Reader, codebits: array<byte>, nclen: nat, i: nat, s0: nat, s1: nat, s2: nat, s3: nat, s4: nat,
                     ghost p: nat, ghost cl: seq<byte>)
    returns (ok: bool)
    requires OrderRead(r, codebits, p, nclen, cl, i) && i < nclen <= 19 && s0 == Order(i) && s1 == Order(i + 1)
    requires s2 == Order(i + 2) && s3 == Order(i + 3) && s4 == Order(i + 4)
    modifies r, codebits
    ensures ok ==> OrderRead(r, codebits, p, nclen, cl, if nclen < i + 5 then nclen else i + 5)
    ensures !ok ==> OrderRead(r, codebits, p, nclen, cl, i) && r.Starved()
  {
    hide OrderRead, OrderAt, Order, BitsAt, Received, Reader.OnWord;
    ok := Refill(r, codebits, nclen, p, cl, i);
    if !ok {
      return;
    }
    OneLength(r, codebits, s0, p, nclen, cl, i);
    if nclen == i + 1 {
      return;
    }
    OneLength(r, codebits, s1, p, nclen, cl, i + 1);
    if nclen == i + 2 {
      return;
    }
    OneLength(r, codebits, s2, p, nclen, cl, i + 2);
    if nclen == i + 3 {
      return;
    }
    OneLength(r, codebits, s3, p, nclen, cl, i + 3);
    if nclen == i + 4 {
      return;
    }
    OneLength(r, codebits, s4, p, nclen, cl, i + 4);
  }

  method Refill(r: Reader, codebits: array<byte>, ghost nclen: nat, ghost p: nat, ghost cl: seq<byte>, ghost i: nat)
    returns (ok: bool)
    requires OrderRead(r, codebits, p, nclen, cl, i)
    modifies r
    ensures OrderRead(r, codebits, p, nclen, cl, i) && (if ok then r.bits >= 15 else r.Starved())
  {
    hide OrderAt, Kraft, BitsAt, Received, Reader.OnWord;
    ok := r.Fetch();
    assert codebits[..] == old(codebits[..]);
  }

  /** Reads the lengths of the code length code, refilling the buffer before every fifth one. */
  method ReadOrder(r: Reader, nclen: nat, codebits: array<byte>, ghost cl: seq<byte>) returns (ok: bool)
    requires r.Valid() && 4 <= nclen <= 19 && codebits.Length == 19
    modifies r, codebits
    ensures r.Valid() && old(r.Pos()) <= r.Pos()
    ensures ok ==> forall x :: 0 <= x < 19 ==> codebits[x] < 8
    ensures OrderOk(cl, nclen) && OrderAt(r.input, old(r.Pos()), cl, nclen) ==>
      if ok then codebits[..] == cl && r.Pos() == old(r.Pos()) + 3 * nclen
      else r.Starved() && r.Pos() < old(r.Pos()) + 3 * nclen
  {
    hide OrderAt, Kraft, BitsAt, Position, Reader.OnWord;
    ghost var p := r.Pos();
    forall x | 0 <= x < 19 {
      codebits[x] := 0;
    }
    ok := FiveLengths(r, codebits, nclen, 0, 16, 17, 18, 0, 8, p, cl);
    if ok && nclen > 5 {
      ok := FiveLengths(r, codebits, nclen, 5, 7, 9, 6, 10, 5, p, cl);
      if ok && nclen > 10 {
        ok := FiveLengths(r, codebits, nclen, 10, 11, 4, 12, 3, 13, p, cl);
        if ok && nclen > 15 {
          ok := FiveLengths(r, codebits, nclen, 15, 2, 14, 1, 15, 19, p, cl);
        }
      }
    }
    if ok && OrderOk(cl, nclen) && OrderAt(r.input, p, cl, nclen) {
      AllSent(cl, nclen);
      assert codebits[..] == cl;
    }
  }

  /** Every item adds at least one length. */
  lemma {:induction false} ItemsGrow(s: seq<byte>, p: nat, cl: seq<byte>, lens: seq<byte>, its: seq<LengthItem>)
    requires ItemsAt(s, p, cl, its) && ApplyItems(lens, its).Some?
    ensures |ApplyItems(lens, its).value| >= |lens| + |its|
    decreases |its|
  {
    if its != [] {
      ItemsGrow(s, ItemEnd(p, cl, its[0]), cl, ApplyItem(lens, its[0]).value, its[1..]);
    }
  }

  /** Stores `n` copies of `v`, if there is room for them. */
  method Fill(lens: array<byte>, plen: nat, plenend: nat, n: nat, v: byte) returns (ok: bool)
    requires plen <= plenend <= lens.Length
    modifies lens
    ensures ok <==> plen + n <= plenend
    ensures lens[..plen] == old(lens[..plen])
    ensures ok ==> lens[..plen + n] == old(lens[..plen]) + Times(v, n)
  {
    if plenend - plen < n {
      return false;
    }
    forall k | plen <= k < plen + n {
      lens[k] := v;
    }
    return true;
  }

  /** Decodes one code length symbol; its code never needs a secondary table. */
  method NextLengthSymbol(r: Reader, table: array<u16>, ghost cl: seq<byte>, ghost sym: nat) returns (ok: bool, v: nat)
    requires r.Valid() && table.Length == 1024
    modifies r
    ensures r.Valid() && old(r.Pos()) <= r.Pos() && (ok ==> r.bits >= 7) && v < 512
    ensures Decodes(cl, table[..]) && SymAt(r.input, old(r.Pos()), cl, sym) && cl[sym] < 8 ==>
      if ok then v == sym && r.Pos() == SymEnd(old(r.Pos()), cl, sym) else r.Starved() && r.Pos() == old(r.Pos())
  {
    hide Decodes, SymAt, BitsAt, Coded, Reader.OnWord;
    v := 0;
    ok := r.Fetch();
    if !ok {
      return;
    }
    if Decodes(cl, table[..]) && SymAt(r.input, r.Pos(), cl, sym) {
      SymAtCoded(r.input, r.Pos(), cl, sym);
      if cl[sym] < 8 {
        ShortLookup(r.input, r.Pos(), r.bits, cl, table[..], sym);
      }
    }
    var t := table[r.val % 256];
    if Flagged(t) {
      return false, 0;
    }
    var b := SecondaryBits(t);
    v := t % 512;
    var _ := r.Take(b + 1);
  }

  lemma SymAtCoded(s: seq<byte>, p: nat, codes: seq<byte>, sym: nat)
    requires SymAt(s, p, codes, sym)
    ensures Coded(codes, sym)
  {
  }

  /** Carries out a repetition: its symbol `v` has been read, its extra bits are in the buffer. */
  method RepeatStep(r: Reader, lens: array<byte>, plen0: nat, plenend: nat, v: nat, ghost cl: seq<byte>, ghost it: LengthItem)
    returns (ok: bool, plen: nat)
    requires r.Valid() && r.bits >= 7 && plen0 < plenend <= lens.Length && 16 <= v
    modifies r, lens
    ensures r.Valid() && old(r.Pos()) <= r.Pos() && plen0 <= plen <= plenend && (ok ==> plen0 < plen)
    ensures ItemOk(cl, it) && ItemSymbol(it) == v && NumAt(r.input, old(r.Pos()), ItemMore(it), ItemExtra(it)) ==>
      if ok then
        ApplyItem(old(lens[..plen0]), it) == Some(lens[..plen]) && r.Pos() == old(r.Pos()) + ItemExtra(it)
      else
        TooBig(ApplyItem(old(lens[..plen0]), it), plenend)
  {
    hide BitsAt, Pow, Coded, Reader.OnWord;
    plen := plen0;
    var n: nat, c: nat, what: byte;
    if v == 16 {
      if plen == 0 {
        return false, plen;
      }
      n, c, what := 2, 3, lens[plen - 1];
    } else if v == 17 {
      n, c, what := 3, 3, 0;
    } else if v == 18 {
      n, c, what := 7, 11, 0;
    } else {
      return false, plen;
    }
    var more := r.Take(n);
    c := c + more;
    ok := Fill(lens, plen, plenend, c, what);
    if ok {
      plen := plen + c;
    }
  }

  /** Reads one run-length item and carries it out. */
  method ItemStep(r: Reader, table: array<u16>, lens: array<byte>, plen0: nat, plenend: nat,
                  ghost cl: seq<byte>, ghost it: LengthItem)
    returns (ok: bool, plen: nat)
    requires r.Valid() && table.Length == 1024 && plen0 < plenend <= lens.Length && lens as object != table
    modifies r, lens
    ensures r.Valid() && old(r.Pos()) <= r.Pos() && plen0 <= plen <= plenend && (ok ==> plen0 < plen)
    ensures old(Decodes(cl, table[..])) && ItemAt(r.input, old(r.Pos()), cl, it) && cl[ItemSymbol(it)] < 8 ==>
      if ok then
        ApplyItem(old(lens[..plen0]), it) == Some(lens[..plen]) && r.Pos() == ItemEnd(old(r.Pos()), cl, it)
      else
        || (r.Starved() && r.Pos() < ItemEnd(old(r.Pos()), cl, it))
        || TooBig(ApplyItem(old(lens[..plen0]), it), plenend)
  {
    hide BitsAt, Pow, Decodes, SymAt, Coded, NumAt, SymLength, Reader.OnWord;
    ghost var p, had := r.Pos(), lens[..plen0];
    plen := plen0;
    if ItemAt(r.input, p, cl, it) {
      SymAtCoded(r.input, p, cl, ItemSymbol(it));
    }
    var v;
    ok, v := NextLengthSymbol(r, table, cl, ItemSymbol(it));
    if !ok {
      return;
    }
    assert lens[..plen] == had;
    if v < 16 {
      lens[plen] := v;
      plen := plen + 1;
      assert lens[..plen] == had + [v];
    } else {
      ok, plen := RepeatStep(r, lens, plen, plenend, v, cl, it);
    }
  }

  /** A code of at most 7 bits is found in the primary table. */
  lemma ShortLookup(s: seq<byte>, p: nat, bits: nat, codes: seq<byte>, t: seq<u16>, sym: nat)
    requires 15 <= bits && p + bits <= 8 * |s|
    requires Decodes(codes, t) && SymAt(s, p, codes, sym) && codes[sym] < 8
    ensures var e := t[BitsAt(s, p, bits) % 256];
      !Flagged(e) && e % 512 == sym && SecondaryBits(e) + 1 == codes[sym] as nat
  {
    SymbolFound(s, p, bits, codes, t, sym);
  }

  /** The items `its` are ahead, and they stand for the code lengths `all`. */
  ghost predicate LengthsAhead(s: seq<byte>, p: nat, cl: seq<byte>, t: seq<u16>, its: seq<LengthItem>, all: seq<byte>) {
    && Decodes(cl, t) && (forall x :: 0 <= x < |cl| ==> cl[x] < 8)
    && ItemsAt(s, p, cl, its) && ApplyItems([], its) == Some(all)
  }

  /** Reads the run-length coded literal/length and distance code lengths. */
  method ReadLengths(r: Reader, table: array<u16>, lens: array<byte>, total: nat,
                     ghost cl: seq<byte>, ghost its: seq<LengthItem>, ghost all: seq<byte>)
    returns (ok: bool)
    requires r.Valid() && table.Length == 1024 && total <= lens.Length && lens as object != table
    modifies r, lens
    ensures r.Valid() && old(r.Pos()) <= r.Pos()
    ensures LengthsAhead(r.input, old(r.Pos()), cl, old(table[..]), its, all) && |all| == total ==>
      if ok then lens[..total] == all && r.Pos() == ItemsEnd(old(r.Pos()), cl, its)
      else r.Starved() && r.Pos() < ItemsEnd(old(r.Pos()), cl, its)
  {
    ghost var p, end := r.Pos(), ItemsEnd(r.Pos(), cl, its);
    ghost var good := LengthsAhead(r.input, p, cl, table[..], its, all) && |all| == total;
    ghost var todo := its;
    var plen: nat := 0;
    assert lens[..0] == [];
    while plen < total
      invariant 0 <= plen <= total && r.Valid() && p <= r.Pos()
      invariant good ==> Decodes(cl, table[..]) && ItemsAt(r.input, r.Pos(), cl, todo)
      invariant good ==> ItemsEnd(r.Pos(), cl, todo) == end
      invariant good ==> ApplyItems(lens[..plen], todo) == Some(all)
    {
      hide Decodes, ItemAt, ApplyItem, ItemEnd;
      ghost var was, q := lens[..plen], r.Pos();
      if good {
        ItemsGrow(r.input, q, cl, was, todo);
        ItemsEndAfter(r.input, q, cl, todo);
        assert todo != [] && ItemOk(cl, todo[0]) by {
          if todo != [] {
            ItemAtOk(r.input, q, cl, todo[0]);
          }
        }
      }
      ok, plen := ItemStep(r, table, lens, plen, total, cl, if todo == [] then Plain(0) else todo[0]);
      if !ok {
        if good {
          ItemFits(r.input, q, cl, was, todo, total);
        }
        return;
      }
      todo := if todo == [] then [] else todo[1..];
    }
    if good {
      ItemsGrow(r.input, r.Pos(), cl, lens[..plen], todo);
    }
    ok := true;
  }

  lemma ItemAtOk(s: seq<byte>, p: nat, cl: seq<byte>, it: LengthItem)
    requires ItemAt(s, p, cl, it)
    ensures ItemOk(cl, it)
  {
  }

  /** What the whole list makes fit, its first item makes fit too. */
  lemma ItemFits(s: seq<byte>, p: nat, cl: seq<byte>, lens: seq<byte>, its: seq<LengthItem>, limit: nat)
    requires ItemsAt(s, p, cl, its) && its != []
    requires ApplyItems(lens, its).Some? && |ApplyItems(lens, its).value| <= limit
    ensures !TooBig(ApplyItem(lens, its[0]), limit)
  {
    ItemsGrow(s, ItemEnd(p, cl, its[0]), cl, ApplyItem(lens, its[0]).value, its[1..]);
  }
}
