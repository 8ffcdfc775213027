/** Building a two-level Huffman decoding table from code lengths. */
module InflateTable {
  import opened Bits
  import opened Huffman
  import opened ReverseCount
  import opened TableSlots
  import opened ShortCodes
  import opened HiddenSymbol
  import opened LongCodes
  import opened SecondarySpace

  predicate LengthsBelow(codes: seq<byte>, limit: nat) {
    forall s :: 0 <= s < |codes| ==> codes[s] < limit
  }

  lemma NextLength(codes: seq<byte>, j: nat)
    ensures Rev(j + 1, NextCode(codes, j + 1)) == Rev(j, End(codes, j))
  {
    var e := End(codes, j);
    assert NextCode(codes, j + 1) == 2 * e;
    assert (2 * e) % 2 == 0 && (2 * e) / 2 == e;
  }

  /** The reversed first code of each long length. */
  method FirstCodes(codes: seq<byte>, count: array<u16>, code0: nat) returns (ok: bool, firstcode: array<nat>)
    requires |codes| <= 316 && count.Length == 16 && Counted(codes, |codes|, count[..])
    requires code0 == Rev(8, End(codes, 8))
    ensures ok && fresh(firstcode) && firstcode.Length == 7
    ensures forall j :: 9 <= j < 16 && BlCount(codes, j) > 0 ==> firstcode[j - 9] == Rev(j, NextCode(codes, j))
  {
    firstcode := new nat[7];
    var code := code0;
    NextLength(codes, 8);
    var j: nat := 9;
    while j < 16
      invariant 9 <= j <= 16 && code == Rev(j, NextCode(codes, j))
      invariant forall k :: 9 <= k < j && BlCount(codes, k) > 0 ==> firstcode[k - 9] == Rev(k, NextCode(codes, k))
    {
      var jcnt := count[j];
      if jcnt != 0 {
        firstcode[j - 9] := code;
        ok, code := ReverseAdd(code, j, jcnt, NextCode(codes, j));
        if !ok {
          assert Pow(9) == 512;
          PowMono(9, j);
          assert false;
          return;
        }
      }
      NextLength(codes, j);
      j := j + 1;
    }
    ok := true;
  }

  lemma NextShorter(codes: seq<byte>, short: seq<u16>, t: seq<u16>, j: nat, top: nat)
    requires 9 <= j <= 15 && TwoLevel(codes, short, t, j, BlCount(codes, j), top)
    requires Traced(codes, short, t, j, BlCount(codes, j))
    ensures TwoLevel(codes, short, t, j - 1, 0, top) && Traced(codes, short, t, j - 1, 0)
  {
    forall s | 0 <= s < |codes|
      ensures Entered(codes, s, j - 1, 0) <==> Entered(codes, s, j, BlCount(codes, j))
    {
      RankBound(codes, s, |codes|);
    }
    assert Accounted(codes, t, j - 1, 0) by {
      forall p, k | 0 <= p < 256 && 256 <= k < 1024 && Behind(t[p], k) && t[k] != 0
        ensures LeadsTo(codes, t[p], p, k, t[k] % 512, j - 1, 0)
      {
        assert LeadsTo(codes, t[p], p, k, t[k] % 512, j, BlCount(codes, j));
      }
    }
    forall p | 0 <= p < 256 && t[p] != short[p]
      ensures TracedTo(codes, p, j - 1, 0)
    {
      assert TracedTo(codes, p, j, BlCount(codes, j));
      var r :| 0 <= r < |codes| && EnteredAt(codes, r, p, j, BlCount(codes, j));
      assert EnteredAt(codes, r, p, j - 1, 0);
    }
  }

  /** The symbols of one long length, in order. */
  method FillLongLength(codes: seq<byte>, j: nat, count: array<u16>, start: array<u16>, next: array<u16>,
                        ghost short: seq<u16>, table: array<u16>, code0: nat, top0: nat)
    returns (ok: bool, top: nat)
    requires |codes| <= 316 && |codes| <= next.Length && count.Length == 16 && start.Length == 16
    requires table != count && table != start && table != next && table.Length == 1024
    requires Chained(codes, |codes|, count[..], start[..], next[..])
    requires 9 <= j <= 15 && BlCount(codes, j) > 0 && code0 == Rev(j, NextCode(codes, j))
    requires |short| == 1024 && TwoLevel(codes, short, table[..], j, 0, top0) && Traced(codes, short, table[..], j, 0)
    requires VisibleKraft(codes) ==> top0 == Used(codes, j, 0)
    modifies table
    ensures ok ==> TwoLevel(codes, short, table[..], j, BlCount(codes, j), top)
    ensures ok ==> Traced(codes, short, table[..], j, BlCount(codes, j))
    ensures VisibleKraft(codes) ==> (ok <==> FitsAt(codes, j, BlCount(codes, j)))
    ensures VisibleKraft(codes) && ok ==> top == Used(codes, j, BlCount(codes, j))
  {
    hide TwoLevel, Traced, Cached, VisibleKraft, Rev, Opens, Used, FitsAt;
    top := top0;
    var jcnt := count[j];
    var val := start[j];
    var code := code0;
    var primary, secondary, bits := 256, 0, 0;
    NoneCached(table[..], secondary, bits);
    FitsNone(codes, j);
    var i: nat := 0;
    while i < jcnt
      invariant 0 <= i <= jcnt
      invariant i < jcnt ==> HasRank(codes, |codes|, j, val, i)
      invariant code == Rev(j, NextCode(codes, j) + i)
      invariant |short| == 1024 && TwoLevel(codes, short, table[..], j, i, top) && Traced(codes, short, table[..], j, i)
      invariant Cached(table[..], primary, secondary, bits)
      invariant VisibleKraft(codes) ==> top == Used(codes, j, i) && FitsAt(codes, j, i)
    {
      FitsStep(codes, val, jcnt);
      UsedStep(codes, val);
      ok, primary, secondary, bits, top := PlaceLong(codes, val, short, table, code, primary, secondary, bits, top);
      if !ok {
        return;
      }
      if i + 1 < jcnt {
        val := next[val];
      }
      code := ReverseIncrement(code, j, NextCode(codes, j) + i);
      i := i + 1;
    }
    ok := true;
  }

  lemma NoneCached(t: seq<u16>, secondary: nat, bits: nat)
    requires |t| == 1024
    ensures Cached(t, 256, secondary, bits)
  {
  }

  lemma StartLong(codes: seq<byte>, short: seq<u16>)
    requires |codes| <= 316 && Primary(codes, short, 8, End(codes, 8))
    ensures TwoLevel(codes, short, short, 15, 0, 0) && Traced(codes, short, short, 15, 0)
  {
    forall p | 0 <= p < 256
      ensures !Flagged(short[p])
    {
      assert short[p] < 4096;
    }
  }

  /** Fills the secondary tables, longest codes first. */
  method FillLong(codes: seq<byte>, count: array<u16>, start: array<u16>, next: array<u16>,
                  table: array<u16>, firstcode: array<nat>)
    returns (ok: bool, ghost top: nat)
    requires |codes| <= 316 && |codes| <= next.Length && count.Length == 16 && start.Length == 16
    requires table != count && table != start && table != next && table.Length == 1024
    requires Chained(codes, |codes|, count[..], start[..], next[..])
    requires firstcode.Length == 7
    requires forall j :: 9 <= j < 16 && BlCount(codes, j) > 0 ==> firstcode[j - 9] == Rev(j, NextCode(codes, j))
    requires Primary(codes, table[..], 8, End(codes, 8))
    modifies table
    ensures ok ==> TwoLevel(codes, old(table[..]), table[..], 8, 0, top)
    ensures VisibleKraft(codes) ==> (ok <==> SecondaryFits(codes))
    ensures LengthsBelow(codes, 9) ==> ok
  {
    hide TwoLevel, Traced, VisibleKraft, Rev, Opens, Used, FitsAt, SecondaryFits;
    ghost var short := table[..];
    var nextSecondary: nat := 0;
    StartLong(codes, short);
    UsedAtStart(codes);
    var j: nat := 15;
    while j >= 9
      invariant 8 <= j <= 15
      invariant TwoLevel(codes, short, table[..], j, 0, nextSecondary)
      invariant |short| == 1024 && Traced(codes, short, table[..], j, 0)
      invariant VisibleKraft(codes) ==> nextSecondary == Used(codes, j, 0)
      invariant VisibleKraft(codes) ==> forall l :: j < l <= 15 ==> FitsAt(codes, l, BlCount(codes, l))
    {
      UsedNextLength(codes, j);
      var jcnt := count[j];
      if jcnt != 0 {
        NoneBelowNine(codes, j);
        var code := firstcode[j - 9];
        ok, nextSecondary := FillLongLength(codes, j, count, start, next, short, table, code, nextSecondary);
        if !ok {
          if SecondaryFits(codes) {
            FitsEach(codes, j);
          }
          top := 0;
          return;
        }
      } else {
        FitsNone(codes, j);
      }
      NextShorter(codes, short, table[..], j, nextSecondary);
      j := j - 1;
    }
    if VisibleKraft(codes) {
      FitsAll(codes);
    }
    ok, top := true, nextSecondary;
  }

  lemma NoneBelowNine(codes: seq<byte>, j: nat)
    requires j >= 9
    ensures LengthsBelow(codes, 9) ==> BlCount(codes, j) == 0
  {
    if LengthsBelow(codes, 9) {
      NoneOfLength(codes, j, |codes|);
    }
  }

  lemma ShortSlotIndex(v: nat, l: nat, r: nat)
    requires 1 <= l <= 8 && v % Pow(l) == r
    ensures InSlot(v % 256, 0, 256, r, Pow(l))
  {
    assert Pow(8) == 256;
    ModModPow(v, l, 8);
    OnGridIff(v % 256, r, Pow(l));
  }

  lemma LookupShort(codes: seq<byte>, short: seq<u16>, t: seq<u16>, s: nat, top: nat)
    requires s < |codes| && 1 <= codes[s] <= 8 && Kraft(codes)
    requires TwoLevel(codes, short, t, 8, 0, top) && ShortDone(codes, short, 9, 0)
    ensures Finds(codes, t, s)
  {
    hide Rev, Code, Pow, OnGrid, Pointers, Apart, Accounted, LongDone, Primary, ShortDone, Kraft;
    var l: nat, r := codes[s], Reversed(codes, s);
    forall v: nat | v % Pow(l) == r
      ensures Lookup(t, v) == (s, l)
    {
      var k := v % 256;
      ShortSlotIndex(v, l, r);
      ShortEntryFound(codes, short, t, s, k, top);
      assert t[k] == ShortEntry(s, l);
    }
  }

  lemma ShortEntryFound(codes: seq<byte>, short: seq<u16>, t: seq<u16>, s: nat, k: nat, top: nat)
    requires s < |codes| && 1 <= codes[s] <= 8 && Kraft(codes)
    requires TwoLevel(codes, short, t, 8, 0, top) && ShortDone(codes, short, 9, 0)
    requires k < 256 && InSlot(k, 0, 256, Reversed(codes, s), Pow(codes[s]))
    ensures t[k] == ShortEntry(s, codes[s])
  {
    if Invisible(codes, s) {
      InvisibleSlot(codes, short, t, s, k, top);
    } else {
      assert Before(codes, s, 9, 0);
      assert ShortSlots(codes, short, s);
      assert t[k] == short[k];
    }
  }

  /** In a prefix code, no other code touches the slots of symbol 0 with a 1-bit code. */
  lemma InvisibleSlot(codes: seq<byte>, short: seq<u16>, t: seq<u16>, s: nat, k: nat, top: nat)
    requires s < |codes| && Invisible(codes, s) && Kraft(codes)
    requires TwoLevel(codes, short, t, 8, 0, top)
    requires k < 256 && InSlot(k, 0, 256, Reversed(codes, s), Pow(codes[s]))
    ensures t[k] == 0
  {
    assert Pow(7) == 128 && Pow(0) == 1 && Pow(8) == 256;
    KraftBoundsEnd(codes, 8);
    SlotTaken(1, 0, k);
    assert Rev(8, k) < 128;
    assert short[k] != 0 <==> Taken(Rev(8, k), 128, End(codes, 8));
    assert 128 <= End(codes, 8) by {
      RankBound(codes, 0, |codes|);
      NextCodeAfter(codes, 1, 8);
      MulMono(1, End(codes, 1), Pow(7));
    }
    assert t[k] == short[k];
  }

  lemma LongSlotIndex(v: nat, l: nat, b: nat, r: nat)
    requires 9 <= l <= 15 && l - 8 <= b && v % Pow(l) == r
    ensures v % 256 == r % 256
    ensures OnGrid((v / 256) % Pow(b), r / 256, Pow(l - 8))
  {
    var n: nat := l - 8;
    var m, x := Pow(n), (v / 256) % Pow(b);
    assert Pow(l) == 256 * m by {
      PowAdd(8, n);
      assert Pow(8) == 256;
    }
    LowByte(v, m);
    LowByteOf(v / 256 % m, v % 256);
    ModModPow(v / 256, n, b);
    OnGridIff(x, r / 256, m);
  }

  lemma LookupLong(t: seq<u16>, v: nat, s: nat, l: nat)
    requires |t| == 1024 && s < 512 && 9 <= l <= 15 && Flagged(t[v % 256])
    requires t[SecondaryIndex(t[v % 256], v)] == LongEntry(s, l)
    ensures Lookup(t, v) == (s, l)
  {
  }

  lemma LongFound(codes: seq<byte>, t: seq<u16>, s: nat)
    requires s < |codes| <= 512 && IsLong(codes, s) && |t| == 1024 && LongSlots(codes, t, s)
    ensures Finds(codes, t, s)
  {
    hide Rev, Code, Pow, OnGrid, Lookup, LongEntry, Flagged, SecondaryBits, Secondary;
    var l: nat, r := codes[s], Reversed(codes, s);
    var e := t[r % 256];
    forall v: nat | v % Pow(l) == r
      ensures Lookup(t, v) == (s, l)
    {
      LongSlotIndex(v, l, SecondaryBits(e), r);
      var k := SecondaryIndex(e, v);
      assert Owns(codes, e, k, s);
      LookupLong(t, v, s, l);
    }
  }

  lemma LowByteOf(q: nat, r: nat)
    requires r < 256
    ensures (q * 256 + r) / 256 == q && (q * 256 + r) % 256 == r
  {
  }

  /** The finished table decodes every symbol. */
  lemma TableDecodes(codes: seq<byte>, short: seq<u16>, t: seq<u16>, top: nat)
    requires TwoLevel(codes, short, t, 8, 0, top) && ShortDone(codes, short, 9, 0)
    requires Kraft(codes) && LengthsBelow(codes, 16)
    ensures Decodes(codes, t)
  {
    forall s | 0 <= s < |codes| && codes[s] > 0
      ensures Finds(codes, t, s)
    {
      if codes[s] <= 8 {
        LookupShort(codes, short, t, s, top);
      } else {
        assert Entered(codes, s, 8, 0);
        LongFound(codes, t, s);
      }
    }
  }

  /** The length at which the long codes first run past one round of the code space. */
  lemma {:induction false} FirstOverflow(codes: seq<byte>, j: nat) returns (l: nat)
    requires 8 <= j <= 15 && End(codes, 8) <= Pow(8) + Hidden(codes, 8) && End(codes, j) > Pow(j) + Hidden(codes, j)
    ensures 9 <= l <= 15 && NextCode(codes, l) <= Pow(l) + Hidden(codes, l) < End(codes, l)
  {
    hide Hidden;
    HiddenTwice(codes, j - 1);
    if End(codes, j - 1) > Pow(j - 1) + Hidden(codes, j - 1) && j > 9 {
      l := FirstOverflow(codes, j - 1);
    } else {
      l := j;
    }
  }

  /** The table `t`, filled on top of the primary table `short`, holds every code. */
  ghost predicate Loaded(codes: seq<byte>, short: seq<u16>, t: seq<u16>, top: nat) {
    TwoLevel(codes, short, t, 8, 0, top) && ShortDone(codes, short, 9, 0)
  }

  /** Code lengths that some table holds without a collision. */
  ghost predicate Loadable(codes: seq<byte>) {
    LengthsBelow(codes, 16) && exists short, t, top :: Loaded(codes, short, t, top)
  }

  lemma LoadedIsLoadable(codes: seq<byte>, short: seq<u16>, t: seq<u16>, top: nat)
    requires LengthsBelow(codes, 16) && TwoLevel(codes, short, t, 8, 0, top) && ShortDone(codes, short, 9, 0)
    ensures Loadable(codes)
  {
    hide TwoLevel, ShortDone;
    assert Loaded(codes, short, t, top);
  }

  /** Collisions alone reveal over-subscription, unless symbol 0 has a 1-bit code: then it does not count. */
  lemma OversubscriptionCaught(codes: seq<byte>)
    requires Loadable(codes)
    ensures VisibleKraft(codes) && (|codes| > 0 && codes[0] != 1 ==> Kraft(codes))
  {
    hide TwoLevel, ShortDone;
    PowTable();
    EndIsKraftSum(codes, 15);
    var short, t, top :| Loaded(codes, short, t, top);
    if End(codes, 8) <= Low(codes) {
      NoLength(codes, short, t, top);
    } else {
      SpaceNotExceeded(codes, short, t, top);
    }
  }

  /** Without visible short codes there are too few symbols to use up the code space. */
  lemma NoLength(codes: seq<byte>, short: seq<u16>, t: seq<u16>, top: nat)
    requires End(codes, 8) <= Low(codes) && Loaded(codes, short, t, top)
    ensures VisibleKraft(codes)
  {
    hide Low, NextCode, Invisible, Hidden;
    forall s | 0 <= s < |codes| && !Invisible(codes, s)
      ensures codes[s] == 0 || codes[s] > 8
    {
      OnlyHidden(codes, s);
    }
    FewLongCodes(codes, |codes|);
  }

  /** The symbol past the end of the code space would collide with the first visible short code. */
  lemma SpaceNotExceeded(codes: seq<byte>, short: seq<u16>, t: seq<u16>, top: nat)
    requires Loaded(codes, short, t, top) && Low(codes) < End(codes, 8)
    ensures End(codes, 15) <= Pow(15) + Hidden(codes, 15)
  {
    hide Pointers, Apart, Accounted, LongSlots, Rev, Kraft, Pow, Low, Hidden;
    if End(codes, 15) > Pow(15) + Hidden(codes, 15) {
      PowTable();
      HiddenIsLow(codes);
      var s := OverflowSymbol(codes);
      FirstSlotTaken(codes, short);
      assert Entered(codes, s, 8, 0);
      LongCodeElsewhere(codes, short, t, s, top);
    }
  }

  /** The first symbol past the end of the code space leads where the first visible code is. */
  lemma OverflowSymbol(codes: seq<byte>) returns (s: nat)
    requires End(codes, 8) <= Pow(8) + Hidden(codes, 8) && Pow(15) + Hidden(codes, 15) < End(codes, 15)
    ensures s < |codes| && IsLong(codes, s) && Reversed(codes, s) % 256 == Rev(8, Low(codes))
  {
    hide Rev, Pow, Hidden, Low, NextCode;
    var l := FirstOverflow(codes, 15);
    s := SymbolOfRank(codes, l, Pow(l) + Hidden(codes, l) - NextCode(codes, l), |codes|);
    PowTable();
    ReversedPrefix(l, 8, Code(codes, s));
    PowAdd(8, l - 8);
    HiddenScaled(codes, 8, l - 8);
    HiddenIsLow(codes);
    WrappedCode(Low(codes), Pow(l - 8));
    RevIgnoresHigh(8, Low(codes), 1);
  }

  lemma WrappedCode(low: nat, w: nat)
    requires w > 0
    ensures (256 * w + low * w) / w == 256 + low
  {
    MulDistr(256, low, w);
    DivModUnique(256 * w + low * w, 256 + low, 0, w);
  }

  lemma FirstSlotTaken(codes: seq<byte>, short: seq<u16>)
    requires Primary(codes, short, 8, End(codes, 8)) && Low(codes) < End(codes, 8)
    ensures 0 < short[Rev(8, Low(codes))] < 4096 && Rev(8, Low(codes)) < 256
  {
    hide Rev, Pow;
    PowTable();
    RevInvolution(8, Low(codes));
    assert Occupancy(short, Low(codes), End(codes, 8) * 1);
  }

  /** No accepted long code leads to an entry that a short code has taken. */
  lemma LongCodeElsewhere(codes: seq<byte>, short: seq<u16>, t: seq<u16>, s: nat, top: nat)
    requires s < |codes| <= 512 && IsLong(codes, s) && |short| == |t| == 1024
    requires LongSlots(codes, t, s) && Pointers(codes, short, t, 8, top)
    ensures !(0 < short[Reversed(codes, s) % 256] < 4096)
  {
    hide Rev, Code;
    var p := Reversed(codes, s) % 256;
    assert t[p] == short[p] || short[p] == 0;
  }

  lemma KraftFits(codes: seq<byte>)
    requires Kraft(codes)
    ensures ShortFits(codes)
  {
    assert Pow(8) == 256;
    forall j | 1 <= j <= 8
      ensures BlCount(codes, j) <= Pow(j)
    {
      KraftBoundsEnd(codes, j);
    }
    KraftBoundsEnd(codes, 8);
  }

  lemma {:induction false} NoneOfLength(codes: seq<byte>, j: nat, n: nat)
    requires LengthsBelow(codes, 9) && 9 <= j && n <= |codes|
    ensures CountUpTo(codes, j, n) == 0
  {
    if n > 0 {
      NoneOfLength(codes, j, n - 1);
    }
  }

  /**
   * What the builder accepts: the Kraft sum is at most one, not counting a symbol 0 of length 1; no length
   * up to 8 has more codes than there are numbers of that length; and the secondary tables fit.
   */
  ghost predicate Accepted(codes: seq<byte>) {
    LengthsBelow(codes, 16) && VisibleKraft(codes) && BlCount(codes, 1) <= 2 && SecondaryFits(codes)
  }

  lemma ShortFitsCount(codes: seq<byte>)
    requires ShortFits(codes)
    ensures BlCount(codes, 1) <= 2
  {
    PowTable();
  }

  /** elf_zlib_inflate_table: builds the decoding table for the given code lengths. */
  method BuildTable(codes: seq<byte>, next: array<u16>, table: array<u16>) returns (ok: bool)
    requires |codes| <= 316 == next.Length && table.Length == 1024 && next != table
    modifies next, table
    ensures ok <==> Accepted(codes)
    ensures ok ==> Loadable(codes)
    ensures ok && Kraft(codes) ==> Decodes(codes, table[..])
    ensures ok ==> Kraft(codes) || codes[0] == 1
    ensures LengthsBelow(codes, 16) && Kraft(codes) ==> (ok <==> SecondaryFits(codes))
    ensures LengthsBelow(codes, 9) ==> (ok <==> ShortFits(codes))
  {
    hide TwoLevel, ShortDone, Primary, Decodes, Kraft, VisibleKraft, ShortFits, SecondaryFits, Loadable;
    if Kraft(codes) {
      KraftIsVisible(codes);
      KraftFits(codes);
    }
    if VisibleKraft(codes) && BlCount(codes, 1) <= 2 {
      VisibleFits(codes);
    }
    var count, start := new u16[16], new u16[16];
    ok := ChainLengths(codes, count, start, next);
    if !ok {
      return;
    }
    var k := 0;
    while k < table.Length
      invariant 0 <= k <= table.Length && forall i :: 0 <= i < k ==> table[i] == 0
      invariant Chained(codes, |codes|, count[..], start[..], next[..])
    {
      table[k] := 0;
      k := k + 1;
    }
    var code;
    ok, code := FillShort(codes, count, start, next, table);
    if !ok {
      return;
    }
    ShortFitsCount(codes);
    ghost var short := table[..];
    var firstcode;
    ok, firstcode := FirstCodes(codes, count, code);
    ghost var top;
    ok, top := FillLong(codes, count, start, next, table, firstcode);
    if ok {
      LoadedIsLoadable(codes, short, table[..], top);
      OversubscriptionCaught(codes);
      if Kraft(codes) {
        TableDecodes(codes, short, table[..], top);
      } else {
        EmptyIsCode(codes);
      }
    }
  }

  lemma EmptyIsCode(codes: seq<byte>)
    ensures |codes| == 0 ==> Kraft(codes)
  {
  }

  /** Which first lengths let an over-subscribed set through: only a 1-bit symbol 0. */
  lemma OversubscriptionCaughtIff(first: byte)
    ensures first != 1 <==>
      forall codes: seq<byte> :: |codes| > 0 && codes[0] == first && Accepted(codes) ==> Kraft(codes)
  {
    if first == 1 {
      ThreeCodes([1, 1, 2]);
    }
  }

  /** Two 1-bit codes and a 2-bit code: over-subscribed, and yet the builder accepts them. */
  lemma ThreeCodes(codes: seq<byte>)
    requires codes == [1, 1, 2]
    ensures Accepted(codes) && ShortFits(codes) && !Kraft(codes)
  {
    PowTable();
    assert CountUpTo(codes, 1, 1) == 1;
    assert CountUpTo(codes, 1, 2) == 2;
    assert CountUpTo(codes, 1, 3) == 2;
    assert Pow(13) == 0x2000;
    assert KraftSum(codes, 15, 1) == 0x4000;
    assert KraftSum(codes, 15, 2) == 0x8000;
    assert KraftSum(codes, 15, 3) == 0xa000;
    VisibleFits(codes);
  }

  /** Three 1-bit codes overlap nowhere in the table, and are still too many for their length. */
  lemma ThreeOneBitCodes(codes: seq<byte>)
    requires codes == [1, 1, 1]
    ensures !Accepted(codes) && LengthsBelow(codes, 16) && VisibleKraft(codes) && SecondaryFits(codes)
  {
    PowTable();
    assert CountUpTo(codes, 1, 1) == 1;
    assert CountUpTo(codes, 1, 2) == 2;
    assert CountUpTo(codes, 1, 3) == 3;
    assert KraftSum(codes, 15, 1) == 0x4000;
    assert KraftSum(codes, 15, 2) == 0x8000;
    assert KraftSum(codes, 15, 3) == 0xc000;
  }
}
