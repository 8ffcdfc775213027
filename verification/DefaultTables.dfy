/** The tables of the fixed codes as the source holds them, entry by entry. */
module DefaultTables {
  import opened Bits
  import opened Huffman
  import opened LongCodes
  import opened Deflate
  import opened FixedTables
  import opened InflateTable
  import Inflate

  /** The literal/length table, sixteen entries at a time; what is behind it is never looked at. */
  function LitRow(i: nat): (r: seq<u16>)
    ensures |r| == 16
  {
    match i
    case 0 =>
      [0xd00, 0xe50, 0xe10, 0xf18, 0xd10, 0xe70, 0xe30, 0x1230,
       0xd08, 0xe60, 0xe20, 0x1210, 0xe00, 0xe80, 0xe40, 0x1250]
    case 1 =>
      [0xd04, 0xe58, 0xe18, 0x1200, 0xd14, 0xe78, 0xe38, 0x1240,
       0xd0c, 0xe68, 0xe28, 0x1220, 0xe08, 0xe88, 0xe48, 0x1260]
    case 2 =>
      [0xd02, 0xe54, 0xe14, 0xf1c, 0xd12, 0xe74, 0xe34, 0x1238,
       0xd0a, 0xe64, 0xe24, 0x1218, 0xe04, 0xe84, 0xe44, 0x1258]
    case 3 =>
      [0xd06, 0xe5c, 0xe1c, 0x1208, 0xd16, 0xe7c, 0xe3c, 0x1248,
       0xd0e, 0xe6c, 0xe2c, 0x1228, 0xe0c, 0xe8c, 0xe4c, 0x1268]
    case 4 =>
      [0xd01, 0xe52, 0xe12, 0xf1a, 0xd11, 0xe72, 0xe32, 0x1234,
       0xd09, 0xe62, 0xe22, 0x1214, 0xe02, 0xe82, 0xe42, 0x1254]
    case 5 =>
      [0xd05, 0xe5a, 0xe1a, 0x1204, 0xd15, 0xe7a, 0xe3a, 0x1244,
       0xd0d, 0xe6a, 0xe2a, 0x1224, 0xe0a, 0xe8a, 0xe4a, 0x1264]
    case 6 =>
      [0xd03, 0xe56, 0xe16, 0xf1e, 0xd13, 0xe76, 0xe36, 0x123c,
       0xd0b, 0xe66, 0xe26, 0x121c, 0xe06, 0xe86, 0xe46, 0x125c]
    case 7 =>
      [0xd07, 0xe5e, 0xe1e, 0x120c, 0xd17, 0xe7e, 0xe3e, 0x124c,
       0xd0f, 0xe6e, 0xe2e, 0x122c, 0xe0e, 0xe8e, 0xe4e, 0x126c]
    case 8 =>
      [0xd00, 0xe51, 0xe11, 0xf19, 0xd10, 0xe71, 0xe31, 0x1232,
       0xd08, 0xe61, 0xe21, 0x1212, 0xe01, 0xe81, 0xe41, 0x1252]
    case 9 =>
      [0xd04, 0xe59, 0xe19, 0x1202, 0xd14, 0xe79, 0xe39, 0x1242,
       0xd0c, 0xe69, 0xe29, 0x1222, 0xe09, 0xe89, 0xe49, 0x1262]
    case 10 =>
      [0xd02, 0xe55, 0xe15, 0xf1d, 0xd12, 0xe75, 0xe35, 0x123a,
       0xd0a, 0xe65, 0xe25, 0x121a, 0xe05, 0xe85, 0xe45, 0x125a]
    case 11 =>
      [0xd06, 0xe5d, 0xe1d, 0x120a, 0xd16, 0xe7d, 0xe3d, 0x124a,
       0xd0e, 0xe6d, 0xe2d, 0x122a, 0xe0d, 0xe8d, 0xe4d, 0x126a]
    case 12 =>
      [0xd01, 0xe53, 0xe13, 0xf1b, 0xd11, 0xe73, 0xe33, 0x1236,
       0xd09, 0xe63, 0xe23, 0x1216, 0xe03, 0xe83, 0xe43, 0x1256]
    case 13 =>
      [0xd05, 0xe5b, 0xe1b, 0x1206, 0xd15, 0xe7b, 0xe3b, 0x1246,
       0xd0d, 0xe6b, 0xe2b, 0x1226, 0xe0b, 0xe8b, 0xe4b, 0x1266]
    case 14 =>
      [0xd03, 0xe57, 0xe17, 0xf1f, 0xd13, 0xe77, 0xe37, 0x123e,
       0xd0b, 0xe67, 0xe27, 0x121e, 0xe07, 0xe87, 0xe47, 0x125e]
    case 15 =>
      [0xd07, 0xe5f, 0xe1f, 0x120e, 0xd17, 0xe7f, 0xe3f, 0x124e,
       0xd0f, 0xe6f, 0xe2f, 0x122e, 0xe0f, 0xe8f, 0xe4f, 0x126e]
    case 16 =>
      [0x290, 0x291, 0x292, 0x293, 0x294, 0x295, 0x296, 0x297,
       0x298, 0x299, 0x29a, 0x29b, 0x29c, 0x29d, 0x29e, 0x29f]
    case 17 =>
      [0x2a0, 0x2a1, 0x2a2, 0x2a3, 0x2a4, 0x2a5, 0x2a6, 0x2a7,
       0x2a8, 0x2a9, 0x2aa, 0x2ab, 0x2ac, 0x2ad, 0x2ae, 0x2af]
    case 18 =>
      [0x2b0, 0x2b1, 0x2b2, 0x2b3, 0x2b4, 0x2b5, 0x2b6, 0x2b7,
       0x2b8, 0x2b9, 0x2ba, 0x2bb, 0x2bc, 0x2bd, 0x2be, 0x2bf]
    case 19 =>
      [0x2c0, 0x2c1, 0x2c2, 0x2c3, 0x2c4, 0x2c5, 0x2c6, 0x2c7,
       0x2c8, 0x2c9, 0x2ca, 0x2cb, 0x2cc, 0x2cd, 0x2ce, 0x2cf]
    case 20 =>
      [0x2d0, 0x2d1, 0x2d2, 0x2d3, 0x2d4, 0x2d5, 0x2d6, 0x2d7,
       0x2d8, 0x2d9, 0x2da, 0x2db, 0x2dc, 0x2dd, 0x2de, 0x2df]
    case 21 =>
      [0x2e0, 0x2e1, 0x2e2, 0x2e3, 0x2e4, 0x2e5, 0x2e6, 0x2e7,
       0x2e8, 0x2e9, 0x2ea, 0x2eb, 0x2ec, 0x2ed, 0x2ee, 0x2ef]
    case 22 =>
      [0x2f0, 0x2f1, 0x2f2, 0x2f3, 0x2f4, 0x2f5, 0x2f6, 0x2f7,
       0x2f8, 0x2f9, 0x2fa, 0x2fb, 0x2fc, 0x2fd, 0x2fe, 0x2ff]
    case _ => [0, 0, 0, 0, 0, 0, 0, 0, 0, 0, 0, 0, 0, 0, 0, 0]
  }

  function DistRow(i: nat): (r: seq<u16>)
    ensures |r| == 16
  {
    match i
    case 0 =>
      [0x800, 0x810, 0x808, 0x818, 0x804, 0x814, 0x80c, 0x81c,
       0x802, 0x812, 0x80a, 0x81a, 0x806, 0x816, 0x80e, 0x81e]
    case 1 =>
      [0x801, 0x811, 0x809, 0x819, 0x805, 0x815, 0x80d, 0x81d,
       0x803, 0x813, 0x80b, 0x81b, 0x807, 0x817, 0x80f, 0x81f]
    case 2 =>
      [0x800, 0x810, 0x808, 0x818, 0x804, 0x814, 0x80c, 0x81c,
       0x802, 0x812, 0x80a, 0x81a, 0x806, 0x816, 0x80e, 0x81e]
    case 3 =>
      [0x801, 0x811, 0x809, 0x819, 0x805, 0x815, 0x80d, 0x81d,
       0x803, 0x813, 0x80b, 0x81b, 0x807, 0x817, 0x80f, 0x81f]
    case 4 =>
      [0x800, 0x810, 0x808, 0x818, 0x804, 0x814, 0x80c, 0x81c,
       0x802, 0x812, 0x80a, 0x81a, 0x806, 0x816, 0x80e, 0x81e]
    case 5 =>
      [0x801, 0x811, 0x809, 0x819, 0x805, 0x815, 0x80d, 0x81d,
       0x803, 0x813, 0x80b, 0x81b, 0x807, 0x817, 0x80f, 0x81f]
    case 6 =>
      [0x800, 0x810, 0x808, 0x818, 0x804, 0x814, 0x80c, 0x81c,
       0x802, 0x812, 0x80a, 0x81a, 0x806, 0x816, 0x80e, 0x81e]
    case 7 =>
      [0x801, 0x811, 0x809, 0x819, 0x805, 0x815, 0x80d, 0x81d,
       0x803, 0x813, 0x80b, 0x81b, 0x807, 0x817, 0x80f, 0x81f]
    case 8 =>
      [0x800, 0x810, 0x808, 0x818, 0x804, 0x814, 0x80c, 0x81c,
       0x802, 0x812, 0x80a, 0x81a, 0x806, 0x816, 0x80e, 0x81e]
    case 9 =>
      [0x801, 0x811, 0x809, 0x819, 0x805, 0x815, 0x80d, 0x81d,
       0x803, 0x813, 0x80b, 0x81b, 0x807, 0x817, 0x80f, 0x81f]
    case 10 =>
      [0x800, 0x810, 0x808, 0x818, 0x804, 0x814, 0x80c, 0x81c,
       0x802, 0x812, 0x80a, 0x81a, 0x806, 0x816, 0x80e, 0x81e]
    case 11 =>
      [0x801, 0x811, 0x809, 0x819, 0x805, 0x815, 0x80d, 0x81d,
       0x803, 0x813, 0x80b, 0x81b, 0x807, 0x817, 0x80f, 0x81f]
    case 12 =>
      [0x800, 0x810, 0x808, 0x818, 0x804, 0x814, 0x80c, 0x81c,
       0x802, 0x812, 0x80a, 0x81a, 0x806, 0x816, 0x80e, 0x81e]
    case 13 =>
      [0x801, 0x811, 0x809, 0x819, 0x805, 0x815, 0x80d, 0x81d,
       0x803, 0x813, 0x80b, 0x81b, 0x807, 0x817, 0x80f, 0x81f]
    case 14 =>
      [0x800, 0x810, 0x808, 0x818, 0x804, 0x814, 0x80c, 0x81c,
       0x802, 0x812, 0x80a, 0x81a, 0x806, 0x816, 0x80e, 0x81e]
    case 15 =>
      [0x801, 0x811, 0x809, 0x819, 0x805, 0x815, 0x80d, 0x81d,
       0x803, 0x813, 0x80b, 0x81b, 0x807, 0x817, 0x80f, 0x81f]
    case _ => [0, 0, 0, 0, 0, 0, 0, 0, 0, 0, 0, 0, 0, 0, 0, 0]
  }

  /** `elf_zlib_default_table` */
  function LitTable(): (t: seq<u16>)
    ensures |t| == 1024 && forall p :: 0 <= p < 1024 ==> t[p] == LitRow(p / 16)[p % 16]
  {
    seq(1024, p requires 0 <= p < 1024 => LitRow(p / 16)[p % 16])
  }

  /** `elf_zlib_default_dist_table` */
  function DistTable(): (t: seq<u16>)
    ensures |t| == 1024 && forall p :: 0 <= p < 1024 ==> t[p] == DistRow(p / 16)[p % 16]
  {
    seq(1024, p requires 0 <= p < 1024 => DistRow(p / 16)[p % 16])
  }

  /** The lookahead `v` starts with the code of `s`, which has `n` bits. */
  predicate Starts(codes: seq<byte>, s: nat, n: nat, v: nat) {
    s < |codes| && codes[s] == n && 1 <= n && v % Pow(n) == Reversed(codes, s)
  }

  /** What a lookup at the primary entry `p` finds is there, whatever the ninth bit is. */
  ghost predicate EntryRight(codes: seq<byte>, t: seq<u16>, p: nat)
    requires |t| == 1024 && p < 256
  {
    var e := t[p];
    if Flagged(e) then
      && SecondaryBits(e) == 1
      && (var e0 := t[256 + Secondary(e)]; Starts(codes, e0 % 512, SecondaryBits(e0) + 8, p))
      && (var e1 := t[256 + Secondary(e) + 1]; Starts(codes, e1 % 512, SecondaryBits(e1) + 8, p + 256))
    else Starts(codes, e % 512, SecondaryBits(e) + 1, p)
  }

  /** What the lookup finds for `v` starts `v`. */
  lemma LookupStarts(codes: seq<byte>, t: seq<u16>, v: nat)
    requires LengthsBelow(codes, 10) && |t| == 1024 && forall p :: 0 <= p < 256 ==> EntryRight(codes, t, p)
    ensures var (s, n) := Lookup(t, v); Starts(codes, s, n, v)
  {
    hide Reversed;
    var p := v % 256;
    var e := t[p];
    assert EntryRight(codes, t, p);
    PowTable();
    assert Pow(9) == 512;
    if Flagged(e) {
      var k: nat := v / 256 % 2;
      assert SecondaryIndex(e, v) == Secondary(e) + 256 + k;
      var n := SecondaryBits(t[SecondaryIndex(e, v)]) + 8;
      NinthBit(v);
      assert n <= 9;
      ModModPow(v, n, 9);
    } else {
      ModModPow(v, SecondaryBits(e) + 1, 8);
    }
  }

  lemma NinthBit(v: nat)
    ensures v % 512 == v % 256 + 256 * (v / 256 % 2)
  {
  }

  /** Two codes that start the same lookahead are the same. */
  lemma OnlyOneStarts(codes: seq<byte>, r: nat, m: nat, s: nat, n: nat, v: nat)
    requires Kraft(codes) && LengthsBelow(codes, 10) && Starts(codes, r, m, v) && Starts(codes, s, n, v)
    ensures r == s
  {
    hide Kraft, Reversed;
    if m <= n {
      ModModPow(v, m, n);
      PrefixFree(codes, r, s);
    } else {
      ModModPow(v, n, m);
      PrefixFree(codes, s, r);
    }
  }

  /** A table whose entries are right decodes every code. */
  lemma RightDecodes(codes: seq<byte>, t: seq<u16>)
    requires Kraft(codes) && LengthsBelow(codes, 10) && |t| == 1024
    requires forall p :: 0 <= p < 256 ==> EntryRight(codes, t, p)
    ensures Decodes(codes, t)
  {
    hide Kraft, Reversed, Lookup, EntryRight;
    forall s | 0 <= s < |codes| && codes[s] > 0
      ensures Finds(codes, t, s)
    {
      forall v: nat | v % Pow(codes[s]) == Rev(codes[s], Code(codes, s))
        ensures Lookup(t, v) == (s, codes[s] as nat)
      {
        LookupStarts(codes, t, v);
        StartsIs(codes, s, v);
        OnlyOneStarts(codes, Lookup(t, v).0, Lookup(t, v).1, s, codes[s], v);
      }
    }
  }

  lemma StartsIs(codes: seq<byte>, s: nat, v: nat)
    requires s < |codes| && codes[s] > 0 && v % Pow(codes[s]) == Rev(codes[s], Code(codes, s))
    ensures Starts(codes, s, codes[s], v)
  {
  }

  /** Four bits reversed. */
  function Nibble(x: nat): nat {
    match x
    case 0 => 0 case 1 => 8 case 2 => 4 case 3 => 12 case 4 => 2 case 5 => 10 case 6 => 6 case 7 => 14
    case 8 => 1 case 9 => 9 case 10 => 5 case 11 => 13 case 12 => 3 case 13 => 11 case 14 => 7 case 15 => 15
    case _ => 0
  }

  lemma NibbleIs(x: nat)
    requires x < 16
    ensures Nibble(x) == Rev(4, x)
  {
    hide Rev, Pow;
    PowTable();
    FirstBit(4, x);
    FirstBit(3, x / 2);
    FirstBit(2, x / 2 / 2);
    FirstBit(1, x / 2 / 2 / 2);
  }

  /** A byte reversed is its reversed halves, the lower one first. */
  lemma Halves(a: nat, b: nat)
    requires a < 16 && b < 16
    ensures Rev(8, 16 * a + b) == 16 * Rev(4, b) + Rev(4, a)
  {
    hide Rev, Pow;
    PowTable();
    var b1, b2, b3 := b / 2, b / 2 / 2, b / 2 / 2 / 2;
    OneBit(8, a, b);
    OneBit(4, a, b1);
    OneBit(2, a, b2);
    OneBit(1, a, b3);
    FirstBit(8, 16 * a + b);
    FirstBit(7, 8 * a + b1);
    FirstBit(6, 4 * a + b2);
    FirstBit(5, 2 * a + b3);
    FirstBit(4, b);
    FirstBit(3, b1);
    FirstBit(2, b2);
    FirstBit(1, b3);
    NoBits(a, 0);
    NoBits(b3 / 2, 0);
  }

  lemma FirstBit(n: nat, x: nat)
    requires n > 0
    ensures Rev(n, x) == (if x % 2 == 1 then Pow(n - 1) else 0) + Rev(n - 1, x / 2)
    ensures Rev(0, x) == 0
  {
  }

  lemma OneBit(k: nat, a: nat, b: nat)
    ensures (2 * (k * a) + b) % 2 == b % 2 && (2 * (k * a) + b) / 2 == k * a + b / 2
  {
  }

  /** The primary entry for the lookahead whose bits in the order of reading are `c`. */
  function LitEntry(c: nat): nat {
    if c < 0x30 then 6 * 512 + 256 + c / 2
    else if c < 0xc0 then 7 * 512 + (c - 0x30)
    else if c < 0xc8 then 7 * 512 + 280 + (c - 0xc0)
    else 4096 + 512 + 2 * (c - 0xc8)
  }

  /** Sixteen entries, whose index ends in the bits `n` of the code. */
  predicate RowRight(r: seq<u16>, n: nat)
    requires |r| == 16
  {
    && r[0] == LitEntry(n) && r[1] == LitEntry(128 + n) && r[2] == LitEntry(64 + n) && r[3] == LitEntry(192 + n)
    && r[4] == LitEntry(32 + n) && r[5] == LitEntry(160 + n) && r[6] == LitEntry(96 + n) && r[7] == LitEntry(224 + n)
    && r[8] == LitEntry(16 + n) && r[9] == LitEntry(144 + n) && r[10] == LitEntry(80 + n) && r[11] == LitEntry(208 + n)
    && r[12] == LitEntry(48 + n) && r[13] == LitEntry(176 + n) && r[14] == LitEntry(112 + n) && r[15] == LitEntry(240 + n)
  }

  lemma RowsFrom0()
    ensures RowRight(LitRow(0), 0) && RowRight(LitRow(1), 8)
    ensures RowRight(LitRow(2), 4) && RowRight(LitRow(3), 12)
  {
  }

  lemma RowsFrom4()
    ensures RowRight(LitRow(4), 2) && RowRight(LitRow(5), 10)
    ensures RowRight(LitRow(6), 6) && RowRight(LitRow(7), 14)
  {
  }

  lemma RowsFrom8()
    ensures RowRight(LitRow(8), 1) && RowRight(LitRow(9), 9)
    ensures RowRight(LitRow(10), 5) && RowRight(LitRow(11), 13)
  {
  }

  lemma RowsFrom12()
    ensures RowRight(LitRow(12), 3) && RowRight(LitRow(13), 11)
    ensures RowRight(LitRow(14), 7) && RowRight(LitRow(15), 15)
  {
  }


  lemma RowRightAt(r: seq<u16>, n: nat, j: nat)
    requires |r| == 16 && RowRight(r, n) && j < 16
    ensures r[j] == LitEntry(16 * Nibble(j) + n)
  {
    hide LitEntry;
  }

  lemma RowsRight(i: nat)
    requires i < 16
    ensures RowRight(LitRow(i), Nibble(i))
  {
    hide LitRow, RowRight;
    RowsFrom0();
    RowsFrom4();
    RowsFrom8();
    RowsFrom12();
  }

  predicate RowCounts(r: seq<u16>, n: nat)
    requires |r| == 16
  {
    && r[0] == n && r[1] == n + 1 && r[2] == n + 2 && r[3] == n + 3
    && r[4] == n + 4 && r[5] == n + 5 && r[6] == n + 6 && r[7] == n + 7
    && r[8] == n + 8 && r[9] == n + 9 && r[10] == n + 10 && r[11] == n + 11
    && r[12] == n + 12 && r[13] == n + 13 && r[14] == n + 14 && r[15] == n + 15
  }

  lemma RowsCount()
    ensures RowCounts(LitRow(16), 656) && RowCounts(LitRow(17), 672) && RowCounts(LitRow(18), 688)
    ensures RowCounts(LitRow(19), 704) && RowCounts(LitRow(20), 720) && RowCounts(LitRow(21), 736)
    ensures RowCounts(LitRow(22), 752)
  {
  }

  lemma RowCountsAt(r: seq<u16>, n: nat, j: nat)
    requires |r| == 16 && RowCounts(r, n) && j < 16
    ensures r[j] == n + j
  {
  }

  /** The secondary entries are those of the symbols from 144 on, in order. */
  lemma SecondariesRight(i: nat)
    requires i < 112
    ensures LitTable()[256 + i] == 512 + 144 + i
  {
    hide LitTable, LitRow, RowCounts;
    var p := 256 + i;
    RowsCount();
    RowCountsAt(LitRow(p / 16), 656 + 16 * (i / 16), i % 16);
    assert LitTable()[p] == LitRow(p / 16)[p % 16];
  }

  lemma PrimaryRight(p: nat)
    requires p < 256
    ensures LitTable()[p] == LitEntry(Rev(8, p))
  {
    hide LitTable, LitRow, LitEntry, RowRight, Rev, Nibble;
    var i, j := p / 16, p % 16;
    RowsRight(i);
    NibbleIs(i);
    NibbleIs(j);
    RowRightAt(LitRow(i), Nibble(i), j);
    Halves(i, j);
    assert LitTable()[p] == LitRow(i)[j];
  }

  /** The code of a symbol of the fixed literal code, in numbers. */
  function FixedCode(s: nat): nat {
    if s <= 143 then 0x30 + s
    else if s <= 255 then 0x190 + (s - 144)
    else if s <= 279 then s - 256
    else 0xc0 + (s - 280)
  }

  lemma FixedIs(s: nat)
    requires s < 288
    ensures FixedLit()[s] == FixedLength(s) && Code(FixedLit(), s) == FixedCode(s)
  {
    hide FixedLit, Code;
    FixedCodes(s);
  }

  /** Seven bits start the lookahead `p` if they are its first seven bits. */
  lemma SevenBits(p: nat)
    requires p < 256
    ensures p % 128 == Rev(7, Rev(8, p) / 2)
  {
    hide Rev;
    PowTable();
    var c := Rev(8, p);
    RevInvolution(8, p);
    RevLow(8, 7, c);
    assert Shr(c, 1) == c / 2;
  }

  lemma NineBits(p: nat, b: nat)
    requires p < 256 && b < 2
    ensures p + 256 * b == Rev(9, 2 * Rev(8, p) + b)
  {
    hide Rev, Pow;
    PowTable();
    FirstBit(9, 2 * Rev(8, p) + b);
    RevInvolution(8, p);
  }

  /** The parts of an entry. */
  lemma Unpacked(e: u16, s: nat, m: nat, flag: nat)
    requires s < 512 && m < 8 && flag < 2 && e == s + m * 512 + flag * 4096
    ensures e % 512 == s && Secondary(e) == s && SecondaryBits(e) == m && (Flagged(e) <==> flag == 1)
  {
  }

  lemma ShortRight(p: nat, s: nat, n: nat)
    requires p < 256 && s < 288 && LitTable()[p] == s + (n - 1) * 512 && 1 <= n <= 8 && FixedLength(s) == n
    requires p % Pow(n) == Rev(n, FixedCode(s))
    ensures EntryRight(FixedLit(), LitTable(), p)
  {
    hide Rev, Code, FixedLit, LitTable, FixedCode, FixedLength, Pow, Flagged, Secondary, SecondaryBits;
    FixedIs(s);
    Unpacked(LitTable()[p], s, n - 1, 0);
  }

  lemma NineStarts(s: nat, v: nat)
    requires 144 <= s <= 255 && v < 512 && v == Rev(9, FixedCode(s))
    ensures Starts(FixedLit(), s, 9, v)
  {
    hide Rev, Code, FixedLit, Pow;
    NinePow();
    FixedIs(s);
  }

  lemma LongRight(p: nat, s: nat)
    requires p < 256 && 144 <= s < 255 && LitTable()[p] == 4096 + 512 + (s - 144)
    requires p == Rev(9, FixedCode(s)) && p + 256 == Rev(9, FixedCode(s + 1))
    ensures EntryRight(FixedLit(), LitTable(), p)
  {
    hide Rev, FixedLit, LitTable, FixedCode, Starts, Flagged, Secondary, SecondaryBits;
    hide LitRow;
    NineStarts(s, p);
    NineStarts(s + 1, p + 256);
    var i: nat := s - 144;
    SecondariesRight(i);
    SecondariesRight(i + 1);
    Unpacked(LitTable()[p], i, 1, 1);
    Unpacked(LitTable()[256 + i], s, 1, 0);
    Unpacked(LitTable()[256 + i + 1], s + 1, 1, 0);
  }

  lemma NinePow()
    ensures Pow(9) == 512
  {
  }

  /** Which symbol an entry is for. */
  lemma EntrySymbol(c: nat)
    requires c < 256
    ensures c < 0x30 ==>
      var s := 256 + c / 2; LitEntry(c) == s + 6 * 512 && FixedLength(s) == 7 && FixedCode(s) == c / 2
    ensures 0x30 <= c < 0xc0 ==> LitEntry(c) == c - 0x30 + 7 * 512 && FixedLength(c - 0x30) == 8 && FixedCode(c - 0x30) == c
    ensures 0xc0 <= c < 0xc8 ==> LitEntry(c) == c + 88 + 7 * 512 && FixedLength(c + 88) == 8 && FixedCode(c + 88) == c
    ensures 0xc8 <= c ==>
      var s := 2 * c - 256; LitEntry(c) == 4096 + 512 + (s - 144) && FixedCode(s) == 2 * c && FixedCode(s + 1) == 2 * c + 1
  {
  }

  lemma EightRight(p: nat, s: nat, c: nat)
    requires p < 256 && s < 288 && LitTable()[p] == s + 7 * 512 && FixedLength(s) == 8 && FixedCode(s) == c
    requires p == Rev(8, c)
    ensures EntryRight(FixedLit(), LitTable(), p)
  {
    hide Rev, Code, FixedLit, LitTable, EntryRight, Pow, LitEntry, FixedCode, FixedLength;
    PowTable();
    ShortRight(p, s, 8);
  }

  lemma SevenRight(p: nat, s: nat, c: nat)
    requires p < 256 && s < 288 && LitTable()[p] == s + 6 * 512 && FixedLength(s) == 7 && FixedCode(s) == c
    requires p % 128 == Rev(7, c)
    ensures EntryRight(FixedLit(), LitTable(), p)
  {
    hide Rev, Code, FixedLit, LitTable, EntryRight, Pow, LitEntry, FixedCode, FixedLength;
    PowTable();
    ShortRight(p, s, 7);
  }

  lemma NineRight(p: nat, s: nat, c: nat)
    requires p < 256 && 144 <= s < 255 && LitTable()[p] == 4096 + 512 + (s - 144)
    requires FixedCode(s) == 2 * c && FixedCode(s + 1) == 2 * c + 1 && c == Rev(8, p)
    ensures EntryRight(FixedLit(), LitTable(), p)
  {
    hide Rev, Code, FixedLit, LitTable, EntryRight, Pow, LitEntry, FixedCode, FixedLength;
    NineBits(p, 0);
    NineBits(p, 1);
    LongRight(p, s);
  }

  lemma LitRightFor(p: nat, c: nat)
    requires p < 256 && c < 256 && c == Rev(8, p) && p == Rev(8, c) && p % 128 == Rev(7, c / 2)
    requires LitTable()[p] == LitEntry(c)
    ensures EntryRight(FixedLit(), LitTable(), p)
  {
    hide Rev, Code, FixedLit, LitTable, EntryRight, Pow, LitEntry, FixedCode, FixedLength;
    EntrySymbol(c);
    if c < 0x30 {
      var s: nat := 256 + c / 2;
      SevenRight(p, s, c / 2);
    } else if c < 0xc0 {
      EightRight(p, c - 0x30, c);
    } else if c < 0xc8 {
      EightRight(p, c + 88, c);
    } else {
      NineRight(p, 2 * c - 256, c);
    }
  }

  lemma LitRight(p: nat)
    requires p < 256
    ensures EntryRight(FixedLit(), LitTable(), p)
  {
    hide Rev, Code, FixedLit, LitTable, EntryRight, Pow, LitEntry, FixedCode, FixedLength;
    PowTable();
    PrimaryRight(p);
    RevInvolution(8, p);
    SevenBits(p);
    LitRightFor(p, Rev(8, p));
  }

  /** Sixteen entries of the distance table; the last bit of the code is `b`. */
  predicate DistRowRight(r: seq<u16>, b: nat)
    requires |r| == 16
  {
    && r[0] == 2048 + b && r[1] == 2064 + b && r[2] == 2056 + b && r[3] == 2072 + b
    && r[4] == 2052 + b && r[5] == 2068 + b && r[6] == 2060 + b && r[7] == 2076 + b
    && r[8] == 2050 + b && r[9] == 2066 + b && r[10] == 2058 + b && r[11] == 2074 + b
    && r[12] == 2054 + b && r[13] == 2070 + b && r[14] == 2062 + b && r[15] == 2078 + b
  }

  lemma DistRowsRight()
    ensures DistRowRight(DistRow(0), 0) && DistRowRight(DistRow(1), 1) && DistRowRight(DistRow(2), 0)
    ensures DistRowRight(DistRow(3), 1)
    ensures DistRowRight(DistRow(4), 0) && DistRowRight(DistRow(5), 1) && DistRowRight(DistRow(6), 0)
    ensures DistRowRight(DistRow(7), 1)
    ensures DistRowRight(DistRow(8), 0) && DistRowRight(DistRow(9), 1) && DistRowRight(DistRow(10), 0)
    ensures DistRowRight(DistRow(11), 1)
    ensures DistRowRight(DistRow(12), 0) && DistRowRight(DistRow(13), 1) && DistRowRight(DistRow(14), 0)
    ensures DistRowRight(DistRow(15), 1)
  {
  }

  lemma DistRowAt(r: seq<u16>, b: nat, j: nat)
    requires |r| == 16 && DistRowRight(r, b) && j < 16
    ensures r[j] == 2048 + 2 * Nibble(j) + b
  {
  }

  lemma FiveBits(b: nat, j: nat)
    requires b < 2 && j < 16
    ensures Rev(5, 2 * Rev(4, j) + b) == 16 * b + j
  {
    hide Rev;
    PowTable();
    FirstBit(5, 2 * Rev(4, j) + b);
    RevInvolution(4, j);
  }

  lemma DistRight(p: nat)
    requires p < 256
    ensures EntryRight(FixedDist(), DistTable(), p)
  {
    hide Rev, Code, FixedDist, DistTable, DistRow, DistRowRight, Nibble, Flagged, Secondary, SecondaryBits, Pow;
    var i, j := p / 16, p % 16;
    DistRowsRight();
    DistRowAt(DistRow(i), i % 2, j);
    NibbleIs(j);
    FiveBits(i % 2, j);
    PowTable();
    var s := 2 * Rev(4, j) + i % 2;
    assert DistTable()[p] == DistRow(i)[j] == 2048 + s;
    Unpacked(DistTable()[p], s, 4, 0);
    FixedDistanceCode(s);
  }

  /** The tables that the source holds decode the fixed codes. */
  lemma DefaultTablesDecode()
    ensures Decodes(FixedLit(), LitTable()) && Decodes(FixedDist(), DistTable())
  {
    hide Decodes, EntryRight, FixedLit, FixedDist, LitTable, DistTable, Kraft;
    FixedLitIsCode();
    FixedDistIsCode();
    forall p | 0 <= p < 256
      ensures EntryRight(FixedLit(), LitTable(), p) && EntryRight(FixedDist(), DistTable(), p)
    {
      LitRight(p);
      DistRight(p);
    }
    RightDecodes(FixedLit(), LitTable());
    RightDecodes(FixedDist(), DistTable());
  }

  /** A work area for the inflate code, with the tables that the source holds. */
  method NewWork() returns (w: Inflate.Work)
    ensures w.Valid() && fresh(w.Scratch()) && fresh(w.fixedLit) && fresh(w.fixedDist)
  {
    hide Decodes, FixedLit, FixedDist, LitTable, DistTable, LitRow, DistRow;
    DefaultTablesDecode();
    var lit := new u16[1024](p requires 0 <= p < 1024 => LitRow(p / 16)[p % 16]);
    var dist := new u16[1024](p requires 0 <= p < 1024 => DistRow(p / 16)[p % 16]);
    assert lit[..] == LitTable() && dist[..] == DistTable();
    w := new Inflate.Work(lit, dist);
  }
}
