/** Canonical Huffman codes, as section 3.2.2 of RFC 1951 assigns them. */
module Huffman {
  import opened Bits

  type u16 = x: int | 0 <= x < 0x1_0000

  /** How many of the first `n` symbols have code length `j`. */
  function CountUpTo(codes: seq<byte>, j: nat, n: nat): (r: nat)
    requires n <= |codes|
    ensures r <= n
  {
    if n == 0 then 0 else CountUpTo(codes, j, n - 1) + (if codes[n - 1] == j then 1 else 0)
  }

  /** The number of codes of each length; unused symbols (length 0) have no code. */
  function BlCount(codes: seq<byte>, j: nat): (r: nat)
    ensures r <= |codes|
  {
    if j == 0 then 0 else CountUpTo(codes, j, |codes|)
  }

  /** The numerically smallest code of each length, step 2 of section 3.2.2. */
  function NextCode(codes: seq<byte>, j: nat): nat {
    if j == 0 then 0 else 2 * (NextCode(codes, j - 1) + BlCount(codes, j - 1))
  }

  /** One past the largest code of length `j`. */
  function End(codes: seq<byte>, j: nat): nat {
    NextCode(codes, j) + BlCount(codes, j)
  }

  /** The position of a symbol among those of its own length. */
  function Rank(codes: seq<byte>, s: nat): nat
    requires s < |codes|
  {
    CountUpTo(codes, codes[s], s)
  }

  /** The code of a symbol, step 3 of section 3.2.2. */
  function Code(codes: seq<byte>, s: nat): nat
    requires s < |codes|
  {
    NextCode(codes, codes[s]) + Rank(codes, s)
  }

  /** The Kraft sum of the first `n` lengths, in units of `2^-top`. */
  function KraftSum(codes: seq<byte>, top: nat, n: nat): nat
    requires n <= |codes|
  {
    if n == 0 then 0
    else KraftSum(codes, top, n - 1) + (if 1 <= codes[n - 1] <= top then Pow(top - codes[n - 1]) else 0)
  }

  /** The lengths describe a prefix code: the Kraft sum is at most one. */
  predicate Kraft(codes: seq<byte>) {
    KraftSum(codes, 15, |codes|) <= 0x8000
  }

  lemma {:induction false} KraftStep(codes: seq<byte>, top: nat, n: nat)
    requires top > 0 && n <= |codes|
    ensures KraftSum(codes, top, n) == 2 * KraftSum(codes, top - 1, n) + CountUpTo(codes, top, n)
  {
    if n > 0 {
      KraftStep(codes, top, n - 1);
      var l := codes[n - 1];
      if 1 <= l < top {
        assert Pow(top - l) == 2 * Pow(top - 1 - l);
      }
    }
  }

  lemma {:induction false} KraftSumZero(codes: seq<byte>, n: nat)
    requires n <= |codes|
    ensures KraftSum(codes, 0, n) == 0
  {
    if n > 0 {
      KraftSumZero(codes, n - 1);
    }
  }

  /** The canonical codes up to a length occupy exactly the Kraft sum of those lengths. */
  lemma {:induction false} EndIsKraftSum(codes: seq<byte>, top: nat)
    ensures End(codes, top) == KraftSum(codes, top, |codes|)
  {
    if top == 0 {
      KraftSumZero(codes, |codes|);
    } else {
      EndIsKraftSum(codes, top - 1);
      KraftStep(codes, top, |codes|);
    }
  }

  /** A prefix code never runs out of codes of any length. */
  lemma {:induction false} KraftBoundsEnd(codes: seq<byte>, j: nat)
    requires Kraft(codes) && j <= 15
    ensures End(codes, j) <= Pow(j)
    decreases 15 - j
  {
    if j == 15 {
      EndIsKraftSum(codes, 15);
      assert Pow(15) == 0x8000;
    } else {
      KraftBoundsEnd(codes, j + 1);
    }
  }

  lemma DoubleStep(e: int, p: int, a: int, b: int)
    requires e * p <= a && 2 * a <= b
    ensures e * (2 * p) <= b
  {
  }

  /** Longer codes start after all the shorter ones. */
  lemma {:induction false} NextCodeAfter(codes: seq<byte>, j: nat, k: nat)
    requires j < k
    ensures End(codes, j) * Pow(k - j) <= NextCode(codes, k)
    decreases k
  {
    if j + 1 == k {
      assert Pow(1) == 2;
    } else {
      NextCodeAfter(codes, j, k - 1);
      assert Pow(k - j) == 2 * Pow(k - 1 - j);
      DoubleStep(End(codes, j), Pow(k - 1 - j), NextCode(codes, k - 1), NextCode(codes, k));
    }
  }

  lemma {:induction false} CountMono(codes: seq<byte>, j: nat, m: nat, n: nat)
    requires m <= n <= |codes|
    ensures CountUpTo(codes, j, m) <= CountUpTo(codes, j, n)
    decreases n
  {
    if m < n {
      CountMono(codes, j, m, n - 1);
    }
  }

  lemma RankMono(codes: seq<byte>, s: nat, t: nat)
    requires s < t < |codes| && codes[s] == codes[t]
    ensures Rank(codes, s) < Rank(codes, t)
  {
    CountMono(codes, codes[s], s + 1, t);
  }

  lemma RankInjective(codes: seq<byte>, s: nat, t: nat)
    requires s < |codes| && t < |codes| && codes[s] == codes[t] && Rank(codes, s) == Rank(codes, t)
    ensures s == t
  {
    if s < t {
      RankMono(codes, s, t);
    } else if t < s {
      RankMono(codes, t, s);
    }
  }

  lemma RankBound(codes: seq<byte>, s: nat, n: nat)
    requires s < n <= |codes|
    ensures Rank(codes, s) < CountUpTo(codes, codes[s], n)
  {
    CountMono(codes, codes[s], s + 1, n);
  }

  /** Every rank below the count belongs to some symbol. */
  lemma {:induction false} SymbolOfRank(codes: seq<byte>, j: nat, r: nat, n: nat) returns (s: nat)
    requires n <= |codes| && r < CountUpTo(codes, j, n)
    ensures s < n && codes[s] == j && Rank(codes, s) == r
  {
    if codes[n - 1] == j && CountUpTo(codes, j, n - 1) == r {
      s := n - 1;
    } else {
      s := SymbolOfRank(codes, j, r, n - 1);
    }
  }
}
