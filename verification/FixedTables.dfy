/** The tables of the fixed codes, as the generator program in the source computes them. */
module FixedTables {
  import opened Bits
  import opened Huffman
  import opened LongCodes
  import opened InflateTable
  import opened SecondarySpace
  import opened Deflate

  /** `n` shares of `w`. */
  function Room(n: nat, w: nat): nat {
    if n == 0 then 0 else Room(n - 1, w) + w
  }

  /** A run of `n - m` symbols of the same length adds that many equal shares. */
  lemma {:induction false} KraftRun(codes: seq<byte>, m: nat, n: nat, l: byte)
    requires m <= n <= |codes| && 1 <= l <= 15 && forall s :: m <= s < n ==> codes[s] == l
    ensures KraftSum(codes, 15, n) == KraftSum(codes, 15, m) + Room(n - m, Pow(15 - l))
    decreases n
  {
    if m < n {
      KraftRun(codes, m, n - 1, l);
    }
  }

  lemma {:induction false} RoomIsProduct(n: nat, w: nat)
    ensures Room(n, w) == n * w
  {
    if n > 0 {
      RoomIsProduct(n - 1, w);
    }
  }

  lemma FixedDistIsCode()
    ensures Kraft(FixedDist()) && LengthsBelow(FixedDist(), 9)
  {
    hide Room, Times;
    PowValues();
    KraftRun(FixedDist(), 0, 32, 5);
    RoomIsProduct(32, 1024);
  }

  lemma PowValues()
    ensures Pow(6) == 64 && Pow(7) == 128 && Pow(8) == 256 && Pow(10) == 1024 && Pow(1) == 2
  {
  }

  lemma KraftNone(codes: seq<byte>)
    ensures KraftSum(codes, 15, 0) == 0
  {
  }

  lemma FixedLitIsCode()
    ensures Kraft(FixedLit()) && Complete(FixedLit()) && LengthsBelow(FixedLit(), 10)
  {
    hide Room, KraftSum, FixedLit;
    var codes := FixedLit();
    KraftNone(codes);
    PowValues();
    KraftRun(codes, 0, 144, 8);
    KraftRun(codes, 144, 256, 9);
    KraftRun(codes, 256, 280, 7);
    KraftRun(codes, 280, 288, 8);
    RoomIsProduct(144, 128);
    RoomIsProduct(112, 64);
    RoomIsProduct(24, 256);
    RoomIsProduct(8, 128);
  }

  /** A run of symbols of the same length counts for that length alone. */
  lemma {:induction false} CountRun(codes: seq<byte>, j: nat, m: nat, n: nat, l: byte)
    requires m <= n <= |codes| && forall s :: m <= s < n ==> codes[s] == l
    ensures CountUpTo(codes, j, n) == CountUpTo(codes, j, m) + if l == j then n - m else 0
    decreases n
  {
    if m < n {
      CountRun(codes, j, m, n - 1, l);
    }
  }

  lemma CountNone(codes: seq<byte>, j: nat)
    ensures CountUpTo(codes, j, 0) == 0
  {
  }

  /** The first code of each length, from the number of codes of the shorter ones. */
  lemma NextIs(codes: seq<byte>, j: nat, before: nat, count: nat)
    requires j > 0 && NextCode(codes, j - 1) == before && BlCount(codes, j - 1) == count
    ensures NextCode(codes, j) == 2 * (before + count)
  {
  }

  /** The number of fixed codes of a length among the first symbols. */
  lemma FixedCounts(j: nat)
    ensures CountUpTo(FixedLit(), j, 0) == 0 && CountUpTo(FixedLit(), j, 144) == if j == 8 then 144 else 0
    ensures CountUpTo(FixedLit(), j, 256) == if j == 8 then 144 else if j == 9 then 112 else 0
    ensures CountUpTo(FixedLit(), j, 280) == if j == 8 then 144 else if j == 9 then 112 else if j == 7 then 24 else 0
    ensures CountUpTo(FixedLit(), j, 288) == if j == 8 then 152 else if j == 9 then 112 else if j == 7 then 24 else 0
  {
    hide CountUpTo, FixedLit;
    var codes := FixedLit();
    CountNone(codes, j);
    CountRun(codes, j, 0, 144, 8);
    CountRun(codes, j, 144, 256, 9);
    CountRun(codes, j, 256, 280, 7);
    CountRun(codes, j, 280, 288, 8);
  }

  lemma {:induction false} FixedStarts(j: nat)
    requires j <= 9
    ensures NextCode(FixedLit(), j) == if j <= 7 then 0 else if j == 8 then 0x30 else 0x190
  {
    hide CountUpTo, FixedLit;
    if j > 0 {
      FixedStarts(j - 1);
      FixedCounts(j - 1);
    }
  }

  /** The table of section 3.2.6: the ranges of the literal codes, and the distance codes. */
  lemma FixedCodes(s: nat)
    requires s < 288
    ensures s <= 143 ==> FixedLit()[s] == 8 && Code(FixedLit(), s) == 0x30 + s
    ensures 144 <= s <= 255 ==> FixedLit()[s] == 9 && Code(FixedLit(), s) == 0x190 + (s - 144)
    ensures 256 <= s <= 279 ==> FixedLit()[s] == 7 && Code(FixedLit(), s) == s - 256
    ensures 280 <= s ==> FixedLit()[s] == 8 && Code(FixedLit(), s) == 0xc0 + (s - 280)
    ensures s < 32 ==> FixedDist()[s] == 5 && Code(FixedDist(), s) == s
  {
    hide CountUpTo, FixedLit, FixedDist, NextCode;
    var codes := FixedLit();
    var l: nat := codes[s];
    FixedCounts(l);
    FixedStarts(l);
    var m: nat := if s < 144 then 0 else if s < 256 then 144 else if s < 280 then 256 else 280;
    CountRun(codes, l, m, s, codes[s]);
    if s < 32 {
      FixedDistanceCode(s);
    }
  }

  lemma FixedDistanceCode(s: nat)
    requires s < 32
    ensures FixedDist()[s] == 5 && Code(FixedDist(), s) == s
  {
    hide CountUpTo, FixedDist;
    var codes := FixedDist();
    forall j: nat | j < 5
      ensures CountUpTo(codes, j, 32) == 0
    {
      CountNone(codes, j);
      CountRun(codes, j, 0, 32, 5);
    }
    CountNone(codes, 5);
    CountRun(codes, 5, 0, s, 5);
    NextIs(codes, 1, 0, 0);
    NextIs(codes, 2, 0, 0);
    NextIs(codes, 3, 0, 0);
    NextIs(codes, 4, 0, 0);
    NextIs(codes, 5, 0, 0);
  }

  /** Builds both tables; this never fails. */
  method Generate(next: array<u16>, fixedLit: array<u16>, fixedDist: array<u16>)
    requires next.Length == 316 && fixedLit.Length == fixedDist.Length == 1024
    requires next != fixedLit && next != fixedDist && fixedLit != fixedDist
    modifies next, fixedLit, fixedDist
    ensures Decodes(FixedLit(), fixedLit[..]) && Decodes(FixedDist(), fixedDist[..])
  {
    hide Decodes, Kraft;
    FixedLitIsCode();
    CompleteFits(FixedLit());
    var ok := BuildTable(FixedLit(), next, fixedLit);
    FixedDistIsCode();
    DistancesFit(FixedDist());
    ok := BuildTable(FixedDist(), next, fixedDist);
  }
}
