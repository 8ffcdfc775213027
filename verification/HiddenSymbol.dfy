/** The code space when symbol 0 has a 1-bit code, whose entries of 0 look like empty ones. */
module HiddenSymbol {
  import opened Bits
  import opened Huffman
  import opened ShortCodes

  /** The part of the codes of `j` bits that symbol 0 takes without marking it. */
  function Hidden(codes: seq<byte>, j: nat): nat
    requires j > 0
  {
    if |codes| > 0 && codes[0] == 1 then Pow(j - 1) else 0
  }

  /** The Kraft sum of the symbols that mark their entries is at most one. */
  predicate VisibleKraft(codes: seq<byte>) {
    KraftSum(codes, 15, |codes|) <= 0x8000 + Hidden(codes, 15)
  }

  lemma KraftIsVisible(codes: seq<byte>)
    requires Kraft(codes)
    ensures VisibleKraft(codes)
  {
  }

  lemma HiddenTwice(codes: seq<byte>, j: nat)
    requires j > 0
    ensures Hidden(codes, j + 1) == 2 * Hidden(codes, j)
  {
  }

  lemma HiddenIsLow(codes: seq<byte>)
    ensures Hidden(codes, 8) == Low(codes)
  {
    hide Pow;
    PowTable();
  }

  /** The hidden part of a longer length is that of a shorter one, split up further. */
  lemma HiddenScaled(codes: seq<byte>, j: nat, n: nat)
    requires j > 0
    ensures Hidden(codes, j + n) == Hidden(codes, j) * Pow(n)
  {
    PowAdd(j - 1, n);
    assert j + n - 1 == j - 1 + n;
  }

  /** The codes of every length stay within one round of the code space behind the hidden part. */
  lemma {:induction false} VisibleBoundsEnd(codes: seq<byte>, j: nat)
    requires VisibleKraft(codes) && 1 <= j <= 15
    ensures End(codes, j) <= Pow(j) + Hidden(codes, j)
    decreases 15 - j
  {
    hide KraftSum, Hidden;
    PowTable();
    if j == 15 {
      EndIsKraftSum(codes, 15);
    } else {
      VisibleBoundsEnd(codes, j + 1);
      HiddenTwice(codes, j);
    }
  }

  /** Symbol 0 comes first, so every other code lies behind the hidden part. */
  lemma HiddenBelow(codes: seq<byte>, s: nat)
    requires s < |codes| && 1 <= codes[s] <= 15 && !Invisible(codes, s)
    ensures Hidden(codes, codes[s]) <= Code(codes, s)
  {
    hide NextCode;
    var l := codes[s];
    if codes[0] == 1 {
      if l == 1 {
        RankMono(codes, 0, s);
        assert Pow(0) == 1;
      } else {
        RankBound(codes, 0, |codes|);
        NextCodeAfter(codes, 1, l);
        MulMono(1, End(codes, 1), Pow(l - 1));
      }
    }
  }

  /** Besides the Kraft sum, only three 1-bit codes are too many for their length. */
  lemma VisibleFits(codes: seq<byte>)
    requires VisibleKraft(codes) && BlCount(codes, 1) <= 2
    ensures ShortFits(codes)
  {
    hide VisibleKraft, NextCode, Hidden, Pow;
    PowTable();
    forall j | 1 <= j <= 8
      ensures BlCount(codes, j) <= Pow(j)
    {
      if j > 1 && BlCount(codes, j) > 0 {
        VisibleBoundsEnd(codes, j);
        var s := SymbolOfRank(codes, j, 0, |codes|);
        HiddenBelow(codes, s);
      }
    }
    VisibleBoundsEnd(codes, 8);
    HiddenIsLow(codes);
  }

  /** If nothing marks the primary table, all codes but that of symbol 0 are long. */
  lemma OnlyHidden(codes: seq<byte>, s: nat)
    requires End(codes, 8) <= Low(codes) && s < |codes| && !Invisible(codes, s)
    ensures codes[s] == 0 || codes[s] > 8
  {
    hide Hidden, Pow, NextCode;
    var l := codes[s];
    if 1 <= l <= 8 {
      HiddenBelow(codes, s);
      RankBound(codes, s, |codes|);
      HiddenIsLow(codes);
      HiddenScaled(codes, l, 8 - l);
      MulMono(Hidden(codes, l) + 1, End(codes, l), Pow(8 - l));
      MulDistr(Hidden(codes, l), 1, Pow(8 - l));
      if l < 8 {
        NextCodeAfter(codes, l, 8);
      } else {
        PowTable();
      }
    }
  }

  /** At most 316 long codes cannot use up the code space on their own. */
  lemma {:induction false} FewLongCodes(codes: seq<byte>, n: nat)
    requires n <= |codes|
    requires forall s :: 0 <= s < n && !Invisible(codes, s) ==> codes[s] == 0 || codes[s] > 8
    ensures KraftSum(codes, 15, n) <= n * 64 + Hidden(codes, 15)
  {
    if n > 0 {
      FewLongCodes(codes, n - 1);
      if 9 <= codes[n - 1] <= 15 {
        PowMono(15 - codes[n - 1], 6);
      } else if n == 1 {
        assert KraftSum(codes, 15, 0) == 0;
      }
      assert Pow(6) == 64;
    }
  }

  /** Equal reversals of two codes less than one round apart are of the same code. */
  lemma SameCode(j: nat, low: nat, a: nat, b: nat)
    requires low <= a < low + Pow(j) && low <= b < low + Pow(j) && Rev(j, a) == Rev(j, b)
    ensures a == b
  {
    hide Rev, Pow;
    RevOfMod(j, a);
    RevOfMod(j, b);
    RevInjective(j, a % Pow(j), b % Pow(j));
    SameRest(a, b, Pow(j));
  }

  lemma SameRest(a: nat, b: nat, p: nat)
    requires p > 0 && a % p == b % p && a < b + p && b < a + p
    ensures a == b
  {
    DivModFacts(a, p);
    DivModFacts(b, p);
    var x, y := a / p, b / p;
    if x < y {
      MulMono(x + 1, y, p);
      MulDistr(x, 1, p);
    } else if y < x {
      MulMono(y + 1, x, p);
      MulDistr(y, 1, p);
    }
  }

  /** The low bits of a reversed number are the reversal of what is left when its last bits are dropped. */
  lemma ReversedPrefix(l: nat, j: nat, c: nat)
    requires j <= l
    ensures Rev(l, c) % Pow(j) == Rev(j, Shr(c, l - j))
  {
    hide Rev, Pow, Shr;
    var n: nat := l - j;
    var x, q := c % Pow(l), c / Pow(l);
    DivModFacts(c, Pow(l));
    RevOfMod(l, c);
    RevLow(l, j, x);
    PowAdd(j, n);
    ShrPlus(c, q, x, j, n);
    RevIgnoresHigh(j, Shr(x, n), q);
  }

  lemma ShrPlus(c: nat, q: nat, x: nat, j: nat, n: nat)
    requires c == q * (Pow(j) * Pow(n)) + x
    ensures Shr(c, n) == q * Pow(j) + Shr(x, n)
  {
    MulAssoc(q, Pow(j), Pow(n));
    ModAdd(x, q * Pow(j), Pow(n));
  }
}
