/** How much of the decoding table the secondary tables of a prefix code take. */
module SecondarySpace {
  import opened Bits
  import opened Huffman
  import opened ShortCodes
  import opened LongCodes

  /** The space of the tables opened by the first `k` symbols, of those entered before the `n`-th of length `j`. */
  ghost function Space(codes: seq<byte>, j: nat, n: nat, k: nat): nat
    requires k <= |codes|
  {
    if k == 0 then 0
    else Space(codes, j, n, k - 1) + (if Entered(codes, k - 1, j, n) && Opens(codes, k - 1) then Pow(codes[k - 1] - 8) else 0)
  }

  /** The space in use before the `n`-th code of length `j` is entered; long codes are entered first. */
  ghost function Used(codes: seq<byte>, j: nat, n: nat): nat {
    Space(codes, j, n, |codes|)
  }

  /** The guard of the source: where a table is opened, its offset must fit in nine bits. */
  ghost predicate FitsAt(codes: seq<byte>, j: nat, n: nat) {
    forall s :: 0 <= s < |codes| && codes[s] == j && Rank(codes, s) < n && Opens(codes, s) ==>
      Used(codes, j, Rank(codes, s)) < 512
  }

  ghost predicate SecondaryFits(codes: seq<byte>) {
    forall s :: 0 <= s < |codes| && Opens(codes, s) ==> Used(codes, codes[s], Rank(codes, s)) < 512
  }

  lemma FitsNone(codes: seq<byte>, j: nat)
    ensures FitsAt(codes, j, 0)
    ensures BlCount(codes, j) == 0 ==> FitsAt(codes, j, BlCount(codes, j))
  {
  }

  /** One more code fits; if it does not, neither do the codes of its length. */
  lemma FitsStep(codes: seq<byte>, s: nat, m: nat)
    requires s < |codes| && IsLong(codes, s) && Rank(codes, s) < m
    ensures var j, n := codes[s], Rank(codes, s);
            && (FitsAt(codes, j, n) && (Opens(codes, s) ==> Used(codes, j, n) < 512) ==> FitsAt(codes, j, n + 1))
            && (FitsAt(codes, j, m) ==> (Opens(codes, s) ==> Used(codes, j, n) < 512))
  {
    hide Opens, Used;
    SameRank(codes, s);
  }

  lemma FitsEach(codes: seq<byte>, j: nat)
    requires SecondaryFits(codes)
    ensures FitsAt(codes, j, BlCount(codes, j))
  {
    hide Opens, Used;
  }

  lemma FitsAll(codes: seq<byte>)
    requires forall l :: 8 < l <= 15 ==> FitsAt(codes, l, BlCount(codes, l))
    ensures SecondaryFits(codes)
  {
    hide Used;
    forall s | 0 <= s < |codes| && Opens(codes, s)
      ensures Used(codes, codes[s], Rank(codes, s)) < 512
    {
      RankBound(codes, s, |codes|);
      assert FitsAt(codes, codes[s], BlCount(codes, codes[s]));
    }
  }

  lemma {:induction false} SpaceStep(codes: seq<byte>, s: nat, k: nat)
    requires s < |codes| && IsLong(codes, s) && k <= |codes|
    ensures Space(codes, codes[s], Rank(codes, s) + 1, k) ==
      Space(codes, codes[s], Rank(codes, s), k) + if s < k && Opens(codes, s) then Pow(codes[s] - 8) else 0
  {
    hide Opens, Rank;
    if k > 0 {
      SpaceStep(codes, s, k - 1);
      SameRank(codes, s);
      EnteredStep(codes, s, k - 1);
    }
  }

  lemma EnteredStep(codes: seq<byte>, s: nat, r: nat)
    requires s < |codes| && IsLong(codes, s) && r < |codes|
    ensures Entered(codes, r, codes[s], Rank(codes, s) + 1) <==> r == s || Entered(codes, r, codes[s], Rank(codes, s))
    ensures !Entered(codes, s, codes[s], Rank(codes, s))
  {
    SameRank(codes, s);
  }

  /** Entering one more code uses the space of the table it opens. */
  lemma UsedStep(codes: seq<byte>, s: nat)
    requires s < |codes| && IsLong(codes, s)
    ensures Used(codes, codes[s], Rank(codes, s) + 1) ==
      Used(codes, codes[s], Rank(codes, s)) + if Opens(codes, s) then Pow(codes[s] - 8) else 0
  {
    SpaceStep(codes, s, |codes|);
  }

  lemma {:induction false} SpaceSame(codes: seq<byte>, j: nat, n: nat, j': nat, n': nat, k: nat)
    requires k <= |codes|
    requires forall s :: 0 <= s < |codes| ==> (Entered(codes, s, j, n) ==> Entered(codes, s, j', n'))
    ensures Space(codes, j, n, k) <= Space(codes, j', n', k)
    ensures (forall s :: 0 <= s < |codes| ==> (Entered(codes, s, j, n) <==> Entered(codes, s, j', n'))) ==>
      Space(codes, j, n, k) == Space(codes, j', n', k)
  {
    hide Opens, Entered;
    if k > 0 {
      SpaceSame(codes, j, n, j', n', k - 1);
    }
  }

  lemma UsedNextLength(codes: seq<byte>, j: nat)
    requires 9 <= j <= 15
    ensures Used(codes, j - 1, 0) == Used(codes, j, BlCount(codes, j))
  {
    forall s | 0 <= s < |codes|
      ensures Entered(codes, s, j - 1, 0) <==> Entered(codes, s, j, BlCount(codes, j))
    {
      RankBound(codes, s, |codes|);
    }
    SpaceSame(codes, j - 1, 0, j, BlCount(codes, j), |codes|);
  }

  lemma {:induction false} NothingUsed(codes: seq<byte>, k: nat)
    requires k <= |codes|
    ensures Space(codes, 15, 0, k) == 0
  {
    if k > 0 {
      NothingUsed(codes, k - 1);
    }
  }

  lemma UsedAtMost(codes: seq<byte>, s: nat)
    requires s < |codes| && IsLong(codes, s)
    ensures Used(codes, codes[s], Rank(codes, s)) <= Used(codes, 8, 0)
  {
    SpaceSame(codes, codes[s], Rank(codes, s), 8, 0, |codes|);
  }

  /** The first eight bits of a long code. */
  function Top(codes: seq<byte>, s: nat): nat
    requires s < |codes| && IsLong(codes, s)
  {
    Shr(Code(codes, s), codes[s] - 8)
  }

  /** Two long codes have the same primary entry if and only if they have the same first eight bits. */
  lemma SameTop(codes: seq<byte>, r: nat, s: nat)
    requires Kraft(codes) && r < |codes| && s < |codes| && IsLong(codes, r) && IsLong(codes, s)
    ensures Reversed(codes, r) % 256 == Reversed(codes, s) % 256 <==> Top(codes, r) == Top(codes, s)
  {
    hide Rev, Code, Kraft;
    assert Pow(8) == 256 by {
      PowTable();
    }
    CodeFits(codes, r);
    CodeFits(codes, s);
    RevLow(codes[r], 8, Code(codes, r));
    RevLow(codes[s], 8, Code(codes, s));
    TruncatedCode(codes, 8, r);
    TruncatedCode(codes, 8, s);
    if Reversed(codes, r) % 256 == Reversed(codes, s) % 256 {
      RevInjective(8, Top(codes, r), Top(codes, s));
    }
  }

  /** Some code is longer than `j`. */
  ghost predicate HasLonger(codes: seq<byte>, j: nat) {
    exists l :: j < l <= 15 && BlCount(codes, l) > 0
  }

  /** The first prefix of eight bits that the codes of length `j` do not open a table for. */
  ghost function Limit(codes: seq<byte>, j: nat): nat
    requires 9 <= j
  {
    var w := Pow(j - 8);
    if HasLonger(codes, j) then Quot(End(codes, j), w) else Quot(End(codes, j) + w - 1, w)
  }

  function Quot(x: nat, w: nat): nat
    requires w > 0
  {
    DivNonNeg(x, w);
    x / w
  }

  /** The shortest of the codes longer than `j`. */
  lemma {:induction false} NextLonger(codes: seq<byte>, j: nat, l: nat) returns (m: nat)
    requires j < l <= 15 && BlCount(codes, l) > 0
    ensures j < m <= l && BlCount(codes, m) > 0 && NextCode(codes, m) == End(codes, j) * Pow(m - j)
    decreases l
  {
    if i :| j < i < l && BlCount(codes, i) > 0 {
      m := NextLonger(codes, j, i);
    } else {
      m := l;
      NextCodeFar(codes, j, l);
    }
  }

  lemma {:induction false} NextCodeFar(codes: seq<byte>, j: nat, l: nat)
    requires j < l && forall i :: j < i < l ==> BlCount(codes, i) == 0
    ensures NextCode(codes, l) == End(codes, j) * Pow(l - j)
    decreases l
  {
    if j + 1 == l {
      assert Pow(1) == 2;
    } else {
      NextCodeFar(codes, j, l - 1);
      DoubleProduct(End(codes, j), Pow(l - 1 - j));
    }
  }

  lemma DoubleProduct(e: nat, p: nat)
    ensures 2 * (e * p) == e * (2 * p)
  {
  }

  /** The prefix of a longer code is at or behind that of the first code that length `j` leaves unused. */
  lemma LongerTop(codes: seq<byte>, j: nat, r: nat)
    requires Kraft(codes) && 9 <= j && r < |codes| && IsLong(codes, r) && codes[r] > j
    ensures Quot(End(codes, j), Pow(j - 8)) <= Top(codes, r)
  {
    hide Code, Kraft;
    CodeFits(codes, r);
    TruncatedCode(codes, j, r);
    var d := Shr(Code(codes, r), codes[r] - j);
    ShrTwice(Code(codes, r), codes[r] - j, j - 8);
    DivMono(End(codes, j), d, Pow(j - 8));
  }

  lemma ShrTwice(x: nat, m: nat, n: nat)
    ensures Shr(Shr(x, m), n) == Shr(x, m + n)
  {
    DivDiv(x, Pow(m), Pow(n));
    PowAdd(m, n);
  }

  lemma DivMono(x: nat, y: nat, w: nat)
    requires x <= y && w > 0
    ensures x / w <= y / w
  {
    DivModFacts(x, w);
    DivAtLeast(y, w, x / w);
  }

  /** The first longer code has just that prefix. */
  lemma FirstLonger(codes: seq<byte>, j: nat) returns (r: nat)
    requires Kraft(codes) && 9 <= j <= 15 && HasLonger(codes, j)
    ensures r < |codes| && IsLong(codes, r) && codes[r] > j && Top(codes, r) == Quot(End(codes, j), Pow(j - 8))
  {
    var l :| j < l <= 15 && BlCount(codes, l) > 0;
    var m := NextLonger(codes, j, l);
    r := SymbolOfRank(codes, m, 0, |codes|);
    var e, n: nat := End(codes, j), m - j;
    PowAdd(n, j - 8);
    DivDiv(e * Pow(n), Pow(n), Pow(j - 8));
    DivModUnique(e * Pow(n), e, 0, Pow(n));
  }

  /** A code opens a table if it is the first with its prefix and no longer code has that prefix. */
  lemma OpensIff(codes: seq<byte>, s: nat)
    requires Kraft(codes) && s < |codes| && IsLong(codes, s)
    ensures Opens(codes, s) <==>
      (Rank(codes, s) == 0 || Code(codes, s) % Pow(codes[s] - 8) == 0) && Top(codes, s) < Limit(codes, codes[s])
  {
    hide Kraft, Limit, Rev, Top;
    var j, n := codes[s], Rank(codes, s);
    if n > 0 && Code(codes, s) % Pow(j - 8) != 0 {
      SharedWithPrevious(codes, s);
    }
    if Limit(codes, j) <= Top(codes, s) {
      SharedWithLonger(codes, s);
    }
    if (n == 0 || Code(codes, s) % Pow(j - 8) == 0) && Top(codes, s) < Limit(codes, j) {
      forall r | 0 <= r < |codes|
        ensures !EnteredAt(codes, r, Reversed(codes, s) % 256, j, n)
      {
        if Entered(codes, r, j, n) {
          NotShared(codes, r, s);
        }
      }
    }
  }

  lemma SharedWithPrevious(codes: seq<byte>, s: nat)
    requires Kraft(codes) && s < |codes| && IsLong(codes, s)
    requires Rank(codes, s) > 0 && Code(codes, s) % Pow(codes[s] - 8) != 0
    ensures !Opens(codes, s)
  {
    hide Kraft, Rev;
    var j, n := codes[s], Rank(codes, s);
    RankBound(codes, s, |codes|);
    var r := SymbolOfRank(codes, j, n - 1, |codes|);
    QuotStep(Code(codes, r), Pow(j - 8));
    SameTop(codes, r, s);
    assert EnteredAt(codes, r, Reversed(codes, s) % 256, j, n);
  }

  lemma QuotStep(c: nat, w: nat)
    requires w > 0
    ensures (c + 1) % w == 0 ==> (c + 1) / w == c / w + 1
    ensures (c + 1) % w != 0 ==> (c + 1) / w == c / w
  {
    DivModFacts(c, w);
    var q, r := c / w, c % w;
    if r + 1 == w {
      MulDistr(q, 1, w);
      DivModUnique(c + 1, q + 1, 0, w);
    } else {
      DivModUnique(c + 1, q, r + 1, w);
    }
  }

  lemma SharedWithLonger(codes: seq<byte>, s: nat)
    requires Kraft(codes) && s < |codes| && IsLong(codes, s) && Limit(codes, codes[s]) <= Top(codes, s)
    ensures !Opens(codes, s)
  {
    hide Kraft, Rev;
    var j, w := codes[s], Pow(codes[s] - 8);
    var c, e := Code(codes, s), End(codes, codes[s]);
    RankBound(codes, s, |codes|);
    if HasLonger(codes, j) {
      DivMono(c, e, w);
      var r := FirstLonger(codes, j);
      SameTop(codes, r, s);
      assert EnteredAt(codes, r, Reversed(codes, s) % 256, j, Rank(codes, s));
    } else {
      BelowCeiling(c, e, w);
    }
  }

  lemma BelowCeiling(c: nat, e: nat, w: nat)
    requires c < e && w > 0
    ensures c / w < (e + w - 1) / w
  {
    QuotPlus(c, w);
    DivMono(c + w, e + w - 1, w);
  }

  lemma QuotPlus(c: nat, w: nat)
    requires w > 0
    ensures (c + w) / w == c / w + 1
  {
    ModAdd(c, 1, w);
  }

  /** No code entered before `s` has its prefix. */
  lemma NotShared(codes: seq<byte>, r: nat, s: nat)
    requires Kraft(codes) && r < |codes| && s < |codes| && IsLong(codes, s)
    requires Entered(codes, r, codes[s], Rank(codes, s))
    requires Rank(codes, s) == 0 || Code(codes, s) % Pow(codes[s] - 8) == 0
    requires Top(codes, s) < Limit(codes, codes[s])
    ensures Reversed(codes, r) % 256 != Reversed(codes, s) % 256
  {
    hide Kraft, Rev;
    var j, w := codes[s], Pow(codes[s] - 8);
    SameTop(codes, r, s);
    if codes[r] > j {
      assert BlCount(codes, codes[r]) > 0 by {
        RankBound(codes, r, |codes|);
      }
      assert HasLonger(codes, j);
      LongerTop(codes, j, r);
    } else {
      var c := Code(codes, s);
      QuotStep(c - 1, w);
      DivMono(Code(codes, r), c - 1, w);
    }
  }

  /** How many tables the first `n` codes of length `j` open. */
  ghost function Openings(codes: seq<byte>, j: nat, n: nat): (r: int)
    requires 9 <= j
  {
    var w, c := Pow(j - 8), NextCode(codes, j);
    if n == 0 then 0 else Min(Quot(c + n - 1, w) + 1, Limit(codes, j)) - Quot(c, w)
  }

  function Min(a: int, b: int): int {
    if a <= b then a else b
  }

  lemma LimitFromFirst(codes: seq<byte>, j: nat)
    requires 9 <= j
    ensures Quot(NextCode(codes, j), Pow(j - 8)) <= Limit(codes, j)
  {
    var w := Pow(j - 8);
    DivMono(NextCode(codes, j), End(codes, j), w);
    DivMono(End(codes, j), End(codes, j) + w - 1, w);
  }

  lemma OpeningsStep(codes: seq<byte>, s: nat)
    requires Kraft(codes) && s < |codes| && IsLong(codes, s)
    ensures Openings(codes, codes[s], Rank(codes, s) + 1) ==
      Openings(codes, codes[s], Rank(codes, s)) + if Opens(codes, s) then 1 else 0
  {
    hide Kraft, Limit, Opens;
    var j, n, w := codes[s], Rank(codes, s), Pow(codes[s] - 8);
    LimitFromFirst(codes, j);
    OpensIff(codes, s);
    if n > 0 {
      QuotStep(NextCode(codes, j) + n - 1, w);
    }
  }

  /** The space in use is the space before the length and a table for each opening. */
  lemma {:induction false} UsedInLength(codes: seq<byte>, j: nat, n: nat)
    requires Kraft(codes) && 9 <= j <= 15 && n <= BlCount(codes, j)
    ensures Used(codes, j, n) == Used(codes, j, 0) + Pow(j - 8) * Openings(codes, j, n)
  {
    hide Kraft, Opens, Used;
    if n > 0 {
      UsedInLength(codes, j, n - 1);
      var s := SymbolOfRank(codes, j, n - 1, |codes|);
      UsedStep(codes, s);
      OpeningsStep(codes, s);
      MulDistr(Openings(codes, j, n - 1), if Opens(codes, s) then 1 else 0, Pow(j - 8));
      hide Openings;
      MulComm(Openings(codes, j, n - 1), Pow(j - 8));
      MulComm(Openings(codes, j, n), Pow(j - 8));
    }
  }

  lemma MulComm(a: int, b: int)
    ensures a * b == b * a
  {
  }

  /** How many codes are at least `j` bits long. */
  function LongCount(codes: seq<byte>, j: nat, n: nat): nat
    requires n <= |codes| && j <= 16
    decreases 16 - j
  {
    if j == 16 then 0 else CountUpTo(codes, j, n) + LongCount(codes, j + 1, n)
  }

  lemma {:induction false} LongCountStep(codes: seq<byte>, j: nat, n: nat)
    requires n < |codes| && j <= 16
    ensures LongCount(codes, j, n + 1) == LongCount(codes, j, n) + if j <= codes[n] <= 15 then 1 else 0
    decreases 16 - j
  {
    if j < 16 {
      LongCountStep(codes, j + 1, n);
    }
  }

  lemma {:induction false} LongCountBound(codes: seq<byte>, j: nat, n: nat)
    requires n <= |codes| && j <= 16
    ensures LongCount(codes, j, n) <= n
  {
    if n == 0 {
      NoneAtAll(codes, j);
    } else {
      LongCountStep(codes, j, n - 1);
      LongCountBound(codes, j, n - 1);
    }
  }

  lemma {:induction false} NoneAtAll(codes: seq<byte>, j: nat)
    requires j <= 16
    ensures LongCount(codes, j, 0) == 0
    decreases 16 - j
  {
    if j < 16 {
      NoneAtAll(codes, j + 1);
    }
  }

  /** What tables of lengths `j` to `top` can waste: all but one entry of one table each. */
  function Waste(j: nat, top: nat): nat
    requires 9 <= j
    decreases 16 - j
  {
    if j > top || j > 15 then 0 else Pow(j - 8) - 1 + Waste(j + 1, top)
  }

  lemma WasteTable()
    ensures Waste(9, 15) == 247 && Waste(9, 14) == 120
  {
    PowTable();
    assert Waste(15, 15) == 127 && Waste(14, 15) == 190 && Waste(13, 15) == 221 && Waste(12, 15) == 236;
    assert Waste(15, 14) == 0 && Waste(14, 14) == 63 && Waste(13, 14) == 94 && Waste(12, 14) == 109;
    assert Waste(11, 15) == 243 && Waste(10, 15) == 246 && Waste(11, 14) == 116 && Waste(10, 14) == 119;
  }

  /** The codes use up all the code space. */
  predicate Complete(codes: seq<byte>) {
    KraftSum(codes, 15, |codes|) == 0x8000
  }

  /** Rounding down, and up, to whole tables. */
  lemma RoundDown(x: nat, w: nat)
    requires w > 0
    ensures w * Quot(x, w) == x - x % w && 0 <= x % w < w
  {
    DivModFacts(x, w);
  }

  lemma RoundUp(x: nat, w: nat)
    requires w > 0
    ensures w * Quot(x + w - 1, w) <= x + w - 1
    ensures x % w == 0 ==> w * Quot(x + w - 1, w) == x
  {
    RoundDown(x + w - 1, w);
    if x % w == 0 {
      ModAdd(w - 1, x / w, w);
      DivModFacts(x, w);
      DivModUnique(w - 1, 0, w - 1, w);
    }
  }

  /** The space for the codes of length `j`: with longer codes a part of a table may be theirs. */
  lemma LengthSpace(codes: seq<byte>, j: nat)
    requires 9 <= j <= 15
    ensures var w, e := Pow(j - 8), End(codes, j) % Pow(j - 8);
            var space, m := w * Openings(codes, j, BlCount(codes, j)), NextCode(codes, j) % w;
            && (HasLonger(codes, j) ==> space <= BlCount(codes, j) + m - e)
            && (!HasLonger(codes, j) ==> space <= BlCount(codes, j) + m + (if e == 0 then 0 else w - 1))
  {
    hide Quot, NextCode, HasLonger, Pow;
    var w, c, n := Pow(j - 8), NextCode(codes, j), BlCount(codes, j);
    RoundDown(c, w);
    RoundDown(End(codes, j), w);
    RoundUp(End(codes, j), w);
    if n > 0 {
      Product(w, Openings(codes, j, n), Limit(codes, j), Quot(c, w));
    } else {
      MulComm(w, 0);
    }
  }

  lemma Product(w: nat, o: int, l: int, f: int)
    requires o <= l - f
    ensures w * o <= w * l - w * f
  {
    MulMono(o, l - f, w);
    MulComm(o, w);
    MulComm(l - f, w);
    MulMinus(w, l, f);
  }

  lemma MulMinus(w: int, a: int, b: int)
    ensures w * (a - b) == w * a - w * b
  {
  }

  lemma DoubleMod(e: nat, w: nat)
    requires w > 0
    ensures (2 * e) % (2 * w) == 2 * (e % w)
  {
    DivModFacts(e, w);
    MulAssoc(e / w, 2, w);
    DivModUnique(2 * e, e / w, 2 * (e % w), 2 * w);
  }

  /** A complete set whose longest codes have `j` bits ends where the code space of that length does. */
  lemma CompleteEnd(codes: seq<byte>, j: nat)
    requires Complete(codes) && 9 <= j <= 15 && !HasLonger(codes, j)
    ensures End(codes, j) % Pow(j - 8) == 0
  {
    EndIsKraftSum(codes, 15);
    PowTable();
    if j < 15 {
      assert BlCount(codes, 15) == 0;
      NextCodeFar(codes, j, 15);
      PowAdd(j, 15 - j);
      CancelRight(End(codes, j), Pow(j), Pow(15 - j));
    }
    PowAdd(8, j - 8);
    ModAdd(0, 256, Pow(j - 8));
    MulComm(256, Pow(j - 8));
  }

  lemma CancelRight(a: nat, b: nat, c: nat)
    requires a * c == b * c && c > 0
    ensures a == b
  {
    if a < b {
      MulMono(a + 1, b, c);
    } else if b < a {
      MulMono(b + 1, a, c);
    }
  }

  lemma NoneLonger(codes: seq<byte>, j: nat)
    requires 9 <= j <= 15 && !HasLonger(codes, j)
    ensures Used(codes, j, 0) == 0
  {
    NothingUsed(codes, |codes|);
    forall s | 0 <= s < |codes|
      ensures !Entered(codes, s, j, 0) && !Entered(codes, s, 15, 0)
    {
      RankBound(codes, s, |codes|);
      assert j < codes[s] <= 15 ==> BlCount(codes, codes[s]) > 0;
    }
    SpaceSame(codes, j, 0, 15, 0, |codes|);
  }

  /** The space taken by the codes of at least `j` bits. */
  lemma {:induction false} SpaceBound(codes: seq<byte>, j: nat, top: nat)
    requires Kraft(codes) && 9 <= j <= 15 && 14 <= top <= 15 && (top == 14 ==> Complete(codes))
    ensures Used(codes, j - 1, 0) <= LongCount(codes, j, |codes|) + NextCode(codes, j) % Pow(j - 8) + Waste(j, top)
    decreases 16 - j
  {
    hide Kraft, Used, Openings;
    var w := Pow(j - 8);
    UsedNextLength(codes, j);
    UsedInLength(codes, j, BlCount(codes, j));
    LengthSpace(codes, j);
    RoundDown(End(codes, j), w);
    if HasLonger(codes, j) {
      SpaceBound(codes, j + 1, top);
      DoubleMod(End(codes, j), w);
    } else {
      NoneLonger(codes, j);
      if Complete(codes) {
        CompleteEnd(codes, j);
      }
    }
  }

  lemma TotalBound(codes: seq<byte>, top: nat)
    requires Kraft(codes) && 14 <= top <= 15 && (top == 14 ==> Complete(codes))
    ensures Used(codes, 8, 0) <= LongCount(codes, 9, |codes|) + Waste(9, top)
  {
    hide *;
    SpaceBound(codes, 9, top);
    EvenStart(codes);
  }

  lemma EvenStart(codes: seq<byte>)
    ensures NextCode(codes, 9) % Pow(1) == 0
  {
    assert Pow(1) == 2;
    assert NextCode(codes, 9) == 2 * End(codes, 8);
  }

  /** A prefix code that uses up the code space, like any code of a real encoder, always fits. */
  lemma CompleteFits(codes: seq<byte>)
    requires Complete(codes) && |codes| <= 316
    ensures SecondaryFits(codes)
  {
    hide Used, Opens;
    TotalBound(codes, 14);
    WasteTable();
    LongCountBound(codes, 9, |codes|);
    AllAtMost(codes);
  }

  /** And so does any prefix code with at most 264 codes of more than 8 bits. */
  lemma FewLongFit(codes: seq<byte>)
    requires Kraft(codes) && LongCount(codes, 9, |codes|) <= 264
    ensures SecondaryFits(codes)
  {
    hide Used, Kraft, Opens;
    TotalBound(codes, 15);
    WasteTable();
    AllAtMost(codes);
  }

  lemma AllAtMost(codes: seq<byte>)
    requires Used(codes, 8, 0) < 512
    ensures SecondaryFits(codes)
  {
    hide Used;
    forall s | 0 <= s < |codes| && Opens(codes, s)
      ensures Used(codes, codes[s], Rank(codes, s)) < 512
    {
      UsedAtMost(codes, s);
    }
  }

  /** The codes of a distance alphabet, of which there are at most 32, always fit. */
  lemma DistancesFit(codes: seq<byte>)
    requires Kraft(codes) && |codes| <= 32
    ensures SecondaryFits(codes)
  {
    hide Kraft, SecondaryFits;
    LongCountBound(codes, 9, |codes|);
    FewLongFit(codes);
  }

  /** 277 codes of 9 bits, one each of 10 to 14, and three of 15: a prefix code with unused code space. */
  function Crowded(): (codes: seq<byte>)
    ensures |codes| == 286 && forall s :: 0 <= s < 286 ==> codes[s] == CrowdedLength(s)
  {
    seq(286, s requires 0 <= s < 286 => CrowdedLength(s))
  }

  function CrowdedLength(s: nat): byte {
    if s < 277 then 9 else if s < 282 then s - 267 else if s < 285 then 15 else 0
  }

  lemma {:induction false} CrowdedCount(j: nat, n: nat)
    requires n <= 286 && j > 0
    ensures CountUpTo(Crowded(), j, n) ==
      if j == 9 then Min(n, 277)
      else if 10 <= j <= 14 then (if n > j + 267 then 1 else 0)
      else if j == 15 then (if n <= 282 then 0 else Min(n - 282, 3)) else 0
  {
    if n > 0 {
      CrowdedCount(j, n - 1);
    }
  }

  lemma CrowdedCounts()
    ensures var c := Crowded();
            && BlCount(c, 9) == 277 && BlCount(c, 15) == 3 && (forall j :: 10 <= j <= 14 ==> BlCount(c, j) == 1)
            && (forall j :: 1 <= j <= 8 ==> BlCount(c, j) == 0)
  {
    forall j: nat | 1 <= j <= 15
      ensures BlCount(Crowded(), j) == CountUpTo(Crowded(), j, 286)
    {
    }
    forall j: nat | 1 <= j <= 15
      ensures BlCount(Crowded(), j) == if j == 9 then 277 else if j == 15 then 3 else if j >= 10 then 1 else 0
    {
      CrowdedCount(j, 286);
    }
  }

  lemma CrowdedCodes()
    ensures var c := Crowded();
            && NextCode(c, 9) == 0 && NextCode(c, 10) == 554 && NextCode(c, 11) == 1110 && NextCode(c, 12) == 2222
            && NextCode(c, 13) == 4446 && NextCode(c, 14) == 8894 && NextCode(c, 15) == 17790
            && End(c, 15) == 17793 && Kraft(c)
  {
    hide Crowded, BlCount;
    var c := Crowded();
    CrowdedCounts();
    assert BlCount(c, 0) == 0 by {
      CountOfZero(c);
    }
    assert NextCode(c, 2) == 0 && NextCode(c, 4) == 0 && NextCode(c, 6) == 0 && NextCode(c, 8) == 0;
    assert NextCode(c, 9) == 0;
    assert NextCode(c, 10) == 554;
    assert NextCode(c, 11) == 1110;
    assert NextCode(c, 12) == 2222;
    assert NextCode(c, 13) == 4446;
    assert NextCode(c, 14) == 8894;
    EndIsKraftSum(c, 15);
  }

  lemma CountOfZero(codes: seq<byte>)
    ensures BlCount(codes, 0) == 0
  {
  }

  /** Lengths of 15 bits open two tables of 128 entries, and those of 10 to 14 bits none. */
  lemma CrowdedOpenings()
    ensures var c := Crowded();
            && Openings(c, 15, BlCount(c, 15)) == 2
            && (forall j :: 10 <= j <= 14 ==> Openings(c, j, BlCount(c, j)) == 0)
            && Openings(c, 9, 256) == 128 && Limit(c, 9) == 138
  {
    hide Crowded, BlCount, NextCode, Kraft;
    var c := Crowded();
    CrowdedCounts();
    CrowdedCodes();
    PowTable();
    assert !HasLonger(c, 15);
    forall j | 9 <= j <= 14
      ensures HasLonger(c, j)
    {
      assert BlCount(c, 15) > 0;
    }
    forall j | 10 <= j <= 14
      ensures Openings(c, j, BlCount(c, j)) == 0
    {
    }
  }

  lemma {:induction false} CrowdedUsed(j: nat)
    requires 9 <= j <= 15
    ensures Used(Crowded(), j, 0) == if j == 15 then 0 else 256
    decreases 15 - j
  {
    hide Crowded, BlCount, NextCode, Kraft, Openings, Opens, Used;
    var c := Crowded();
    if j == 15 {
      UsedAtStart(c);
    } else {
      CrowdedUsed(j + 1);
      CrowdedCodes();
      CrowdedOpenings();
      PowTable();
      UsedInLength(c, j + 1, BlCount(c, j + 1));
      UsedNextLength(c, j + 1);
    }
  }

  lemma UsedAtStart(codes: seq<byte>)
    ensures Used(codes, 15, 0) == 0
  {
    NothingUsed(codes, |codes|);
  }

  /** A prefix code of 286 lengths that the builder refuses for want of space. */
  lemma CrowdedIsRefused()
    ensures Kraft(Crowded()) && !SecondaryFits(Crowded())
  {
    hide Crowded, NextCode, Kraft, Openings, Limit, Opens, Used;
    var c := Crowded();
    CrowdedCounts();
    CrowdedCodes();
    CrowdedOpenings();
    CrowdedUsed(9);
    PowTable();
    UsedInLength(c, 9, 256);
    var s := SymbolOfRank(c, 9, 256, 286);
    OpensIff(c, s);
  }
}
