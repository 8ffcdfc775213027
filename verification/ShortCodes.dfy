/** Codes of at most 8 bits: the primary table of the two-level Huffman decoder. */
module ShortCodes {
  import opened Bits
  import opened Huffman
  import opened ReverseCount
  import opened TableSlots

  /** The table entry for symbol `s` with a code of `j` bits. */
  function ShortEntry(s: nat, j: nat): (e: u16)
    requires s < 512 && 1 <= j <= 8
    ensures e < 4096 && e % 512 == s && e / 512 == j - 1
  {
    s + (j - 1) * 512
  }

  /** Slot `x` lies in the code space between `lo` and `hi`, which may wrap past 256 once. */
  predicate Taken(x: int, lo: int, hi: int) {
    lo <= x < hi || lo <= x + 256 < hi
  }

  /** The entries that are not zero are exactly those of the code space between `lo` and `hi`. */
  ghost predicate Occupancy(t: seq<u16>, lo: nat, hi: nat)
    requires |t| >= 256
  {
    forall ind :: 0 <= ind < 256 ==> (t[ind] != 0 <==> Taken(Rev(8, ind), lo, hi))
  }

  /** An entry of zero also means symbol 0 with a 1-bit code, so that code marks no slots. */
  function Low(codes: seq<byte>): nat {
    if |codes| > 0 && codes[0] == 1 then 128 else 0
  }

  lemma QuotientIs(x: nat, w: nat, m: nat, c: nat)
    requires w > 0 && m > 0 && x < m * w && c < 2 * m
    ensures x / w == c % m <==> c * w <= x < (c + 1) * w || c * w <= x + m * w < (c + 1) * w
  {
    DivModFacts(x, w);
    var y := x / w;
    DivLess(x, w, m);
    MulDistr(c, 1, w);
    MulDistr(y, m, w);
    if c * w <= x < (c + 1) * w {
      DivModUnique(x, c, x - c * w, w);
      DivModUnique(c, 0, c, m);
    } else if c * w <= x + m * w < (c + 1) * w {
      ModAdd(x, m, w);
      DivModUnique(x + m * w, c, x + m * w - c * w, w);
      DivModUnique(c, 1, y, m);
    } else if y == c % m {
      if c < m {
        DivModUnique(c, 0, c, m);
      } else {
        DivModUnique(c, 1, c - m, m);
      }
    }
  }

  /** Only the low `j` bits of a code count. */
  lemma RevOfMod(j: nat, c: nat)
    ensures c % Pow(j) < Pow(j) && Rev(j, c) == Rev(j, c % Pow(j))
  {
    hide Rev, Pow;
    DivModFacts(c, Pow(j));
    RevIgnoresHigh(j, c % Pow(j), c / Pow(j));
  }

  /** A slot belongs to a code if the first bits of the reversed slot number are the code. */
  lemma SlotCode(j: nat, c: nat, ind: nat)
    requires 1 <= j <= 8 && ind < 256
    ensures InSlot(ind, 0, 256, Rev(j, c), Pow(j)) <==> Shr(Rev(8, ind), 8 - j) == c % Pow(j)
  {
    hide Rev, Pow, Shr, OnGrid;
    var x := Rev(8, ind);
    PowTable();
    OnGridIff(ind, Rev(j, c), Pow(j));
    RevInvolution(8, ind);
    RevLow(8, j, x);
    RevOfMod(j, c);
    TopBits(j, x);
    if Rev(j, Shr(x, 8 - j)) == Rev(j, c % Pow(j)) {
      RevInjective(j, Shr(x, 8 - j), c % Pow(j));
    }
  }

  lemma TopBits(j: nat, x: nat)
    requires j <= 8 && x < 256
    ensures Shr(x, 8 - j) < Pow(j) && Pow(j) * Pow(8 - j) == 256
  {
    hide Pow;
    PowTable();
    PowAdd(j, 8 - j);
    DivLess(x, Pow(8 - j), Pow(j));
  }

  /** The slots of code `c` of `j` bits are the reversals of one interval of code space. */
  lemma SlotTaken(j: nat, c: nat, ind: nat)
    requires 1 <= j <= 8 && c < 2 * Pow(j) && ind < 256
    ensures InSlot(ind, 0, 256, Rev(j, c), Pow(j)) <==> Taken(Rev(8, ind), c * Pow(8 - j), (c + 1) * Pow(8 - j))
  {
    hide Rev, Pow, InSlot;
    PowTable();
    SlotCode(j, c, ind);
    TopBits(j, Rev(8, ind));
    QuotientIs(Rev(8, ind), Pow(8 - j), Pow(j), c);
  }

  /** The next code of `j` bits meets an occupied slot exactly when the code space is used up. */
  lemma FreeIff(j: nat, c: nat, lo: nat, t: seq<u16>)
    requires 1 <= j <= 8 && c < 2 * Pow(j) && |t| >= 256 && (lo == 0 || lo == 128)
    requires c == 0 || lo <= c * Pow(8 - j)
    requires c * Pow(8 - j) - lo <= 256
    requires Occupancy(t, lo, c * Pow(8 - j))
    ensures (forall k :: 0 <= k < |t| && InSlot(k, 0, 256, Rev(j, c), Pow(j)) ==> t[k] == 0)
      <==> (c + 1) * Pow(8 - j) - lo <= 256
  {
    hide Rev, Pow, OnGrid;
    MulDistr(c, 1, Pow(8 - j));
    if (c + 1) * Pow(8 - j) - lo <= 256 {
      FreeSlots(j, c, lo, t);
    } else {
      FullCodeSpace(j, c, lo);
      PowTable();
      var k := Rev(8, lo);
      RevInvolution(8, lo);
      SlotTaken(j, c, k);
      assert t[k] != 0;
    }
  }

  lemma FreeSlots(j: nat, c: nat, lo: nat, t: seq<u16>)
    requires 1 <= j <= 8 && c < 2 * Pow(j) && |t| >= 256
    requires (c == 0 || lo <= c * Pow(8 - j)) && (c + 1) * Pow(8 - j) - lo <= 256
    requires Occupancy(t, lo, c * Pow(8 - j))
    ensures forall k :: 0 <= k < |t| && InSlot(k, 0, 256, Rev(j, c), Pow(j)) ==> t[k] == 0
  {
    hide Rev, Pow, OnGrid;
    forall k | 0 <= k < |t| && InSlot(k, 0, 256, Rev(j, c), Pow(j))
      ensures t[k] == 0
    {
      SlotTaken(j, c, k);
      assert 0 <= Rev(8, k) < 256 by {
        PowTable();
      }
    }
  }

  /** Code space is used in multiples of the current code's share. */
  lemma FullCodeSpace(j: nat, c: nat, lo: nat)
    requires 1 <= j <= 8 && (lo == 0 || lo == 128)
    requires c * Pow(8 - j) - lo <= 256 < (c + 1) * Pow(8 - j) - lo
    ensures c * Pow(8 - j) - lo == 256
  {
    var w := Pow(8 - j);
    assert Pow(8) == 256 && Pow(7) == 128;
    PowAdd(j, 8 - j);
    PowAdd(j - 1, 8 - j);
    var q := Pow(j) + (if lo == 0 then 0 else Pow(j - 1));
    assert q * w == 256 + lo by {
      MulDistr(Pow(j), Pow(j - 1), w);
    }
    MulMono(q, if q <= c then c else q, w);
    MulMono(c + 1, if q <= c then c + 1 else q, w);
  }

  /** Filling the slots of one more code extends the occupied code space by its share. */
  lemma OccupancyStep(j: nat, c: nat, lo: nat, t: seq<u16>, t': seq<u16>, tval: u16)
    requires 1 <= j <= 8 && c < 2 * Pow(j) && |t| == |t'| >= 256
    requires if tval == 0 then c == 0 && lo == (c + 1) * Pow(8 - j) else lo <= c * Pow(8 - j)
    requires Occupancy(t, lo, c * Pow(8 - j))
    requires forall k :: 0 <= k < |t| ==>
      t'[k] == if InSlot(k, 0, 256, Rev(j, c), Pow(j)) then tval else t[k]
    ensures c == 0 && tval == 0 ==> forall k :: 0 <= k < 256 ==> t[k] == 0
    ensures Occupancy(t', lo, (c + 1) * Pow(8 - j))
  {
    MulDistr(c, 1, Pow(8 - j));
    forall k | 0 <= k < 256
      ensures t'[k] != 0 <==> Taken(Rev(8, k), lo, (c + 1) * Pow(8 - j))
      ensures c == 0 && tval == 0 ==> t[k] == 0
    {
      SlotTaken(j, c, k);
      assert t[k] != 0 <==> Taken(Rev(8, k), lo, c * Pow(8 - j));
    }
  }

  /** No entry that was already in use has changed. */
  ghost predicate Extends(t: seq<u16>, t': seq<u16>) {
    |t| == |t'| && forall k :: 0 <= k < |t| && t[k] != 0 ==> t'[k] == t[k]
  }

  /** Every slot whose index starts with the code of `s` decodes to `s`. */
  ghost predicate ShortSlots(codes: seq<byte>, t: seq<u16>, s: nat)
    requires s < |codes| <= 512 && 1 <= codes[s] <= 8 && |t| >= 256
  {
    forall k :: 0 <= k < 256 && InSlot(k, 0, 256, Rev(codes[s], Code(codes, s)), Pow(codes[s])) ==>
      t[k] == ShortEntry(s, codes[s])
  }

  /** Symbol 0 with a 1-bit code: the one symbol whose entry looks like an empty slot. */
  predicate Invisible(codes: seq<byte>, s: nat)
    requires s < |codes|
  {
    s == 0 && codes[0] == 1
  }

  /** A visible symbol that comes before the `n`-th code of length `j`. */
  predicate Before(codes: seq<byte>, s: nat, j: nat, n: nat)
    requires s < |codes|
  {
    !Invisible(codes, s) && (codes[s] < j || (codes[s] == j && Rank(codes, s) < n))
  }

  /** All codes below length `j`, and the first `n` of length `j`, are in the table. */
  ghost predicate ShortDone(codes: seq<byte>, t: seq<u16>, j: nat, n: nat)
    requires |codes| <= 512 && 1 <= j <= 9 && |t| >= 256
  {
    forall s :: 0 <= s < |codes| && 1 <= codes[s] <= 8 && Before(codes, s, j, n) ==> ShortSlots(codes, t, s)
  }

  /** The state of the primary table after code `c` of length `j`. */
  ghost predicate Primary(codes: seq<byte>, t: seq<u16>, j: nat, c: nat) {
    && |t| == 1024 && 1 <= j <= 8
    && Occupancy(t, Low(codes), c * Pow(8 - j))
    && c * Pow(8 - j) - Low(codes) <= 256
    && (forall k :: 0 <= k < 256 ==> t[k] < 4096)
    && (forall k :: 256 <= k < 1024 ==> t[k] == 0)
  }

  /** A used code space starts no later than the next code, except before symbol 0 itself. */
  lemma LowBelow(codes: seq<byte>, s: nat)
    requires s < |codes| && 1 <= codes[s] <= 8
    ensures Invisible(codes, s) ==> Code(codes, s) == 0 && Low(codes) == Pow(7)
    ensures !Invisible(codes, s) ==> Low(codes) <= Code(codes, s) * Pow(8 - codes[s])
  {
    assert Pow(7) == 128;
    var j, c := codes[s], Code(codes, s);
    MulMono(0, c, Pow(8 - j));
    if codes[0] == 1 && s != 0 {
      var w := Pow(8 - j);
      assert Pow(j - 1) * w == 128 by {
        PowAdd(j - 1, 8 - j);
      }
      assert Pow(j - 1) <= c by {
        RankBound(codes, 0, |codes|);
        if j > 1 {
          NextCodeAfter(codes, 1, j);
          MulMono(1, End(codes, 1), Pow(j - 1));
        } else {
          RankMono(codes, 0, s);
        }
      }
      MulMono(Pow(j - 1), c, w);
    }
  }

  lemma CodeBelowTwice(j: nat, c: nat, lo: nat)
    requires 1 <= j <= 8 && lo <= 128 && c * Pow(8 - j) - lo <= 256
    ensures c < 2 * Pow(j)
  {
    var w := Pow(8 - j);
    assert Pow(8) == 256;
    PowAdd(j, 8 - j);
    assert 2 * Pow(j) * w == 512;
    if 2 * Pow(j) <= c {
      MulMono(2 * Pow(j), c, w);
    }
  }

  lemma ShortSlotsKept(codes: seq<byte>, t: seq<u16>, t': seq<u16>, j: nat, n: nat)
    requires |codes| <= 512 && 1 <= j <= 9 && |t| >= 256
    requires Extends(t, t') && ShortDone(codes, t, j, n)
    ensures ShortDone(codes, t', j, n)
  {
    forall s | 0 <= s < |codes| && 1 <= codes[s] <= 8 && Before(codes, s, j, n)
      ensures ShortSlots(codes, t', s)
    {
      assert ShortSlots(codes, t, s);
      assert ShortEntry(s, codes[s]) != 0;
    }
  }

  /** Enters one symbol; refuses it exactly when the code space is used up. */
  method PlaceShort(codes: seq<byte>, s: nat, table: array<u16>, code: nat) returns (ok: bool)
    requires s < |codes| <= 512 && 1 <= codes[s] <= 8
    requires code == Rev(codes[s], Code(codes, s))
    requires Primary(codes, table[..], codes[s], Code(codes, s))
    requires ShortDone(codes, table[..], codes[s], Rank(codes, s))
    modifies table
    ensures ok <==> (Code(codes, s) + 1) * Pow(8 - codes[s]) - Low(codes) <= 256
    ensures ok ==> Primary(codes, table[..], codes[s], Code(codes, s) + 1)
    ensures ok ==> ShortDone(codes, table[..], codes[s], Rank(codes, s) + 1)
  {
    ghost var j, c, lo, t := codes[s], Code(codes, s), Low(codes), table[..];
    LowBelow(codes, s);
    CodeBelowTwice(j, c, lo);
    FreeIff(j, c, lo, t);
    var tval := ShortEntry(s, codes[s]);
    ok := FillSlots(table, 0, 256, code, Pow(codes[s]), tval);
    if ok {
      ghost var t' := table[..];
      assert Extends(t, t');
      if tval == 0 {
        DoubleShare(j, c);
      }
      OccupancyStep(j, c, lo, t, t', tval);
      ShortSlotsKept(codes, t, t', j, Rank(codes, s));
      assert ShortSlots(codes, t', s);
      SameRank(codes, s);
    }
  }

  lemma DoubleShare(j: nat, c: nat)
    requires j == 1 && c == 0
    ensures (c + 1) * Pow(8 - j) == Pow(7)
  {
  }

  lemma SameRank(codes: seq<byte>, s: nat)
    requires s < |codes|
    ensures forall r :: 0 <= r < |codes| && codes[r] == codes[s] && Rank(codes, r) == Rank(codes, s) ==> r == s
  {
    forall r | 0 <= r < |codes| && codes[r] == codes[s] && Rank(codes, r) == Rank(codes, s)
      ensures r == s
    {
      RankInjective(codes, r, s);
    }
  }

  /** The symbols of one length, in order; `code` is the reversed running code. */
  method FillShortLength(codes: seq<byte>, j: nat, count: array<u16>, start: array<u16>, next: array<u16>,
                         table: array<u16>, code0: nat)
    returns (ok: bool, code: nat)
    requires |codes| <= 512 && |codes| <= next.Length && count.Length == 16 && start.Length == 16
    requires table != count && table != start && table != next
    requires Chained(codes, |codes|, count[..], start[..], next[..])
    requires 1 <= j <= 8 && BlCount(codes, j) > 0 && code0 == Rev(j, NextCode(codes, j)) && table.Length == 1024
    requires Primary(codes, table[..], j, NextCode(codes, j)) && ShortDone(codes, table[..], j, 0)
    modifies table
    ensures ok <==> BlCount(codes, j) <= Pow(j) && End(codes, j) * Pow(8 - j) - Low(codes) <= 256
    ensures ok ==> code == Rev(j, End(codes, j))
    ensures ok ==> Primary(codes, table[..], j, End(codes, j)) && ShortDone(codes, table[..], j + 1, 0)
  {
    hide Rev, Pow, NextCode, ShortDone, Primary;
    code := code0;
    var jcnt := count[j];
    if jcnt > Pow(j) {
      return false, code;
    }
    var val := start[j];
    var i := 0;
    while i < jcnt
      invariant 0 <= i <= jcnt
      invariant i < jcnt ==> HasRank(codes, |codes|, j, val, i)
      invariant code == Rev(j, NextCode(codes, j) + i)
      invariant Primary(codes, table[..], j, NextCode(codes, j) + i) && ShortDone(codes, table[..], j, i)
    {
      var placed := PlaceShort(codes, val, table, code);
      if !placed {
        MulMono(Code(codes, val) + 1, End(codes, j), Pow(8 - j));
        return false, code;
      }
      if i + 1 < jcnt {
        val := next[val];
      }
      code := ReverseIncrement(code, j, NextCode(codes, j) + i);
      i := i + 1;
    }
    ShortDoneNext(codes, table[..], j);
    PrimaryBound(codes, table[..], j, End(codes, j));
    return true, code;
  }

  lemma PrimaryBound(codes: seq<byte>, t: seq<u16>, j: nat, c: nat)
    requires Primary(codes, t, j, c)
    ensures c * Pow(8 - j) - Low(codes) <= 256
  {
  }

  lemma ShortDoneNext(codes: seq<byte>, t: seq<u16>, j: nat)
    requires |codes| <= 512 && 1 <= j <= 8 && |t| >= 256 && ShortDone(codes, t, j, BlCount(codes, j))
    ensures ShortDone(codes, t, j + 1, 0)
  {
    forall s | 0 <= s < |codes| && 1 <= codes[s] <= 8 && Before(codes, s, j + 1, 0)
      ensures ShortSlots(codes, t, s)
    {
      RankBound(codes, s, |codes|);
      assert Before(codes, s, j, BlCount(codes, j));
    }
  }

  /** No length has too many codes, and together the short codes fit in the primary table. */
  predicate ShortFits(codes: seq<byte>) {
    (forall j :: 1 <= j <= 8 ==> BlCount(codes, j) <= Pow(j)) && End(codes, 8) - Low(codes) <= 256
  }

  lemma {:induction false} ShortFitsAt(codes: seq<byte>, j: nat)
    requires ShortFits(codes) && 1 <= j <= 8
    ensures End(codes, j) * Pow(8 - j) - Low(codes) <= 256
    decreases 8 - j
  {
    if j < 8 {
      ShortFitsAt(codes, j + 1);
      ShareHalves(codes, j + 1);
      MulMono(NextCode(codes, j + 1), End(codes, j + 1), Pow(8 - (j + 1)));
    }
  }

  /** Growing the code by one bit leaves both the reversed code and the used code space alone. */
  lemma ShareHalves(codes: seq<byte>, j: nat)
    requires 2 <= j <= 8
    ensures NextCode(codes, j) * Pow(8 - j) == End(codes, j - 1) * Pow(8 - (j - 1))
    ensures Rev(j, NextCode(codes, j)) == Rev(j - 1, End(codes, j - 1))
  {
    var e, p := End(codes, j - 1), Pow(8 - j);
    assert Pow(8 - (j - 1)) == 2 * p;
    assert NextCode(codes, j) == 2 * e;
    HalfTwice(e, p);
    assert (2 * e) % 2 == 0 && (2 * e) / 2 == e;
  }

  lemma HalfTwice(e: int, p: int)
    ensures (2 * e) * p == e * (2 * p)
  {
  }

  lemma PrimaryNext(codes: seq<byte>, t: seq<u16>, j: nat)
    requires 1 <= j < 8 && Primary(codes, t, j, End(codes, j))
    ensures Primary(codes, t, j + 1, NextCode(codes, j + 1))
    ensures Rev(j + 1, NextCode(codes, j + 1)) == Rev(j, End(codes, j))
  {
    ShareHalves(codes, j + 1);
  }

  lemma PrimaryStart(codes: seq<byte>, t: seq<u16>)
    requires |codes| <= 512 && |t| == 1024 && forall k :: 0 <= k < 1024 ==> t[k] == 0
    ensures NextCode(codes, 1) == 0 && Rev(1, 0) == 0 && Primary(codes, t, 1, 0) && ShortDone(codes, t, 1, 0)
  {
  }

  /** Fills the primary table with the codes of at most 8 bits. */
  method FillShort(codes: seq<byte>, count: array<u16>, start: array<u16>, next: array<u16>, table: array<u16>)
    returns (ok: bool, code: nat)
    requires |codes| <= 512 && |codes| <= next.Length && count.Length == 16 && start.Length == 16
    requires table != count && table != start && table != next
    requires Chained(codes, |codes|, count[..], start[..], next[..])
    requires table.Length == 1024 && forall k :: 0 <= k < 1024 ==> table[k] == 0
    modifies table
    ensures ok <==> ShortFits(codes)
    ensures ok ==> code == Rev(8, End(codes, 8))
    ensures ok ==> Primary(codes, table[..], 8, End(codes, 8)) && ShortDone(codes, table[..], 9, 0)
  {
    hide Primary, ShortDone, Rev, Pow, NextCode, Chained;
    code := 0;
    var j: nat := 1;
    PrimaryStart(codes, table[..]);
    while j <= 8
      invariant 1 <= j <= 9
      invariant code == if j <= 8 then Rev(j, NextCode(codes, j)) else Rev(8, End(codes, 8))
      invariant j <= 8 ==> Primary(codes, table[..], j, NextCode(codes, j))
      invariant j == 9 ==> Primary(codes, table[..], 8, End(codes, 8))
      invariant ShortDone(codes, table[..], j, 0)
      invariant forall k :: 1 <= k < j ==> BlCount(codes, k) <= Pow(k)
    {
      CountHeld(codes, count[..], start[..], next[..], j);
      var jcnt := count[j];
      if jcnt != 0 {
        var filled;
        filled, code := FillShortLength(codes, j, count, start, next, table, code);
        if !filled {
          if ShortFits(codes) {
            ShortFitsAt(codes, j);
          }
          return false, code;
        }
      } else {
        ShortDoneNext(codes, table[..], j);
      }
      if j < 8 {
        PrimaryNext(codes, table[..], j);
      }
      j := j + 1;
    }
    PrimaryBound(codes, table[..], 8, End(codes, 8));
    return true, code;
  }

  lemma CountHeld(codes: seq<byte>, count: seq<u16>, start: seq<u16>, next: seq<u16>, j: nat)
    requires |codes| <= |next| && |count| == |start| == 16 && Chained(codes, |codes|, count, start, next) && 1 <= j < 16
    ensures count[j] == BlCount(codes, j)
  {
  }
}
