/** Codes of 9 to 15 bits: secondary tables reached through the primary table. */
module LongCodes {
  import opened Bits
  import opened Huffman
  import opened TableSlots
  import opened ShortCodes
  import opened HiddenSymbol

  /** The secondary-table entry for symbol `s` with a code of `j` bits. */
  function LongEntry(s: nat, j: nat): (e: u16)
    requires s < 512 && 9 <= j <= 15
    ensures 512 <= e < 4096 && e % 512 == s && e / 512 == j - 8
  {
    s + (j - 8) * 512
  }

  /** A primary entry that points to a secondary table of `2^bits` entries. */
  function Pointer(secondary: nat, bits: nat): (e: u16)
    requires secondary < 512 && 1 <= bits <= 7
    ensures Flagged(e) && Secondary(e) == secondary && SecondaryBits(e) == bits
  {
    secondary + bits * 512 + 4096
  }

  predicate Flagged(e: u16) {
    e / 4096 % 2 == 1
  }

  function Secondary(e: u16): nat {
    e % 512
  }

  function SecondaryBits(e: u16): nat {
    e / 512 % 8
  }

  /** The two-level lookup of the decoder: the symbol and the number of bits it uses. */
  function Lookup(t: seq<u16>, v: nat): (nat, nat)
    requires |t| == 1024
  {
    var e := t[v % 256];
    if Flagged(e) then
      var e2 := t[SecondaryIndex(e, v)];
      (e2 % 512, SecondaryBits(e2) + 8)
    else (e % 512, SecondaryBits(e) + 1)
  }

  function SecondaryIndex(e: u16, v: nat): (k: nat)
    ensures 256 <= k < 1024
  {
    PowMono(SecondaryBits(e), 7);
    assert Pow(7) == 128;
    Secondary(e) + 256 + (v / 256) % Pow(SecondaryBits(e))
  }

  /** Looking ahead at any bits that start with the code of `s` finds `s`. */
  ghost predicate Finds(codes: seq<byte>, t: seq<u16>, s: nat)
    requires s < |codes| && |t| == 1024
  {
    forall v: nat :: v % Pow(codes[s]) == Rev(codes[s], Code(codes, s)) ==> Lookup(t, v) == (s, codes[s] as nat)
  }

  /** The table decodes every code of the given lengths. */
  ghost predicate Decodes(codes: seq<byte>, t: seq<u16>) {
    |t| == 1024 && forall s :: 0 <= s < |codes| && codes[s] > 0 ==> Finds(codes, t, s)
  }

  predicate IsLong(codes: seq<byte>, s: nat)
    requires s < |codes|
  {
    9 <= codes[s] <= 15
  }

  /** The bits of the code of `s` in the order they are read. */
  function Reversed(codes: seq<byte>, s: nat): nat
    requires s < |codes|
  {
    Rev(codes[s], Code(codes, s))
  }

  /** The secondary slots that belong to `s` under the primary entry `e`. */
  predicate Owns(codes: seq<byte>, e: u16, k: int, s: nat)
    requires s < |codes| && IsLong(codes, s)
  {
    InSlot(k, 256 + Secondary(e), Pow(SecondaryBits(e)), Reversed(codes, s) / 256, Pow(codes[s] - 8))
  }

  /** The secondary slots of `s` are all filled with its entry. */
  ghost predicate LongSlots(codes: seq<byte>, t: seq<u16>, s: nat)
    requires s < |codes| <= 512 && IsLong(codes, s) && |t| == 1024
  {
    var e := t[Reversed(codes, s) % 256];
    && Flagged(e) && SecondaryBits(e) >= codes[s] - 8
    && forall k :: 0 <= k < 1024 && Owns(codes, e, k, s) ==> t[k] == LongEntry(s, codes[s])
  }

  /** Long codes are entered longest first: is `s` before the `n`-th code of length `j`? */
  predicate Entered(codes: seq<byte>, s: nat, j: nat, n: nat)
    requires s < |codes|
  {
    IsLong(codes, s) && (codes[s] > j || (codes[s] == j && Rank(codes, s) < n))
  }

  ghost predicate LongDone(codes: seq<byte>, t: seq<u16>, j: nat, n: nat)
    requires |codes| <= 512 && |t| == 1024
  {
    forall s :: 0 <= s < |codes| && Entered(codes, s, j, n) ==> LongSlots(codes, t, s)
  }

  lemma LongDoneKept(codes: seq<byte>, t: seq<u16>, t': seq<u16>, j: nat, n: nat)
    requires |codes| <= 512 && |t| == 1024 && Extends(t, t') && LongDone(codes, t, j, n)
    ensures LongDone(codes, t', j, n)
  {
    forall s | 0 <= s < |codes| && Entered(codes, s, j, n)
      ensures LongSlots(codes, t', s)
    {
      assert LongSlots(codes, t, s);
    }
  }

  /** Primary entries: still those of the short codes, or pointers where there was none. */
  ghost predicate Pointers(codes: seq<byte>, short: seq<u16>, t: seq<u16>, j: nat, top: nat)
    requires |short| == |t| == 1024
  {
    forall p :: 0 <= p < 256 ==>
      t[p] == short[p] ||
      (short[p] == 0 && PointerOk(t[p], j, top) && (Kraft(codes) ==> End(codes, 8) <= Rev(8, p)))
  }

  predicate PointerOk(e: u16, j: nat, top: nat) {
    && Flagged(e) && 1 <= SecondaryBits(e) && j <= SecondaryBits(e) + 8
    && Secondary(e) + Pow(SecondaryBits(e)) <= top
  }

  /** `k` lies in the secondary table behind primary entry `e`. */
  predicate Behind(e: u16, k: int) {
    Flagged(e) && 256 + Secondary(e) <= k < 256 + Secondary(e) + Pow(SecondaryBits(e))
  }

  /** Secondary tables do not overlap. */
  ghost predicate Apart(t: seq<u16>)
    requires |t| == 1024
  {
    forall p, p', k :: 0 <= p < p' < 256 && 256 <= k < 1024 && Behind(t[p], k) ==> !Behind(t[p'], k)
  }

  /** Every used secondary slot belongs to an entered symbol whose code leads there. */
  ghost predicate Accounted(codes: seq<byte>, t: seq<u16>, j: nat, n: nat)
    requires |t| == 1024
  {
    forall p, k :: 0 <= p < 256 && 256 <= k < 1024 && Behind(t[p], k) && t[k] != 0 ==>
      LeadsTo(codes, t[p], p, k, t[k] % 512, j, n)
  }

  predicate LeadsTo(codes: seq<byte>, e: u16, p: nat, k: int, s: nat, j: nat, n: nat) {
    s < |codes| && Entered(codes, s, j, n) && Reversed(codes, s) % 256 == p && Owns(codes, e, k, s)
  }

  /** The state of the two-level table before the `n`-th code of length `j`. */
  ghost predicate TwoLevel(codes: seq<byte>, short: seq<u16>, t: seq<u16>, j: nat, n: nat, top: nat) {
    && |short| == |t| == 1024 && |codes| <= 316
    && Pointers(codes, short, t, j, top) && Apart(t) && Accounted(codes, t, j, n)
    && (forall k :: 256 + top <= k < 1024 ==> t[k] == 0)
    && LongDone(codes, t, j, n)
    && Primary(codes, short, 8, End(codes, 8))
  }

  /** Dropping the last bits of a code leaves a number beyond every shorter code. */
  lemma TruncatedCode(codes: seq<byte>, j: nat, r: nat)
    requires r < |codes| && 1 <= j <= codes[r] <= 15 && Code(codes, r) < Pow(codes[r])
    ensures Shr(Code(codes, r), codes[r] - j) < Pow(j)
    ensures j < codes[r] ==> End(codes, j) <= Shr(Code(codes, r), codes[r] - j)
  {
    var l: nat, d: nat := codes[r], Code(codes, r);
    var n: nat := l - j;
    var w, p, e := Pow(n), Pow(j), End(codes, j);
    if j < l {
      NextCodeAfter(codes, j, l);
    }
    PowAdd(j, n);
    TruncateBounds(d, w, p, e, j < l);
  }

  lemma TruncateBounds(d: nat, w: nat, p: nat, e: nat, bounded: bool)
    requires w > 0 && p > 0 && d < p * w && (bounded ==> e * w <= d)
    ensures d / w < p && (bounded ==> e <= d / w)
  {
    DivLess(d, w, p);
    if bounded {
      DivAtLeast(d, w, e);
    }
  }

  lemma CodeFits(codes: seq<byte>, s: nat)
    requires s < |codes| && Kraft(codes) && 1 <= codes[s] <= 15
    ensures Code(codes, s) < End(codes, codes[s]) <= Pow(codes[s])
  {
    RankBound(codes, s, |codes|);
    KraftBoundsEnd(codes, codes[s]);
  }

  /** Canonical codes are prefix free: no code starts with the code of another symbol. */
  lemma PrefixFree(codes: seq<byte>, s: nat, r: nat)
    requires s < |codes| && r < |codes| && Kraft(codes) && 1 <= codes[s] <= codes[r] <= 15
    requires Reversed(codes, r) % Pow(codes[s]) == Reversed(codes, s)
    ensures s == r
  {
    CodeFits(codes, s);
    CodeFits(codes, r);
    TruncatedCode(codes, codes[s], r);
    var d := Shr(Code(codes, r), codes[r] - codes[s]);
    assert d == Code(codes, s) by {
      RevLow(codes[r], codes[s], Code(codes, r));
      RevInjective(codes[s], d, Code(codes, s));
    }
    if codes[s] == codes[r] {
      assert d == Code(codes, r) by {
        assert Pow(0) == 1;
      }
      RankInjective(codes, s, r);
    }
  }

  /** The same for any code within one round behind the hidden part. */
  lemma TruncatedVisible(codes: seq<byte>, j: nat, r: nat)
    requires r < |codes| && 1 <= j <= codes[r] <= 15 && VisibleKraft(codes)
    ensures Shr(Code(codes, r), codes[r] - j) < Pow(j) + Hidden(codes, j)
    ensures j < codes[r] ==> End(codes, j) <= Shr(Code(codes, r), codes[r] - j)
  {
    hide VisibleKraft, Hidden, NextCode;
    var l: nat := codes[r];
    var n: nat := l - j;
    RankBound(codes, r, |codes|);
    VisibleBoundsEnd(codes, l);
    if j < l {
      NextCodeAfter(codes, j, l);
    }
    PowAdd(j, n);
    HiddenScaled(codes, j, n);
    MulDistr(Pow(j), Hidden(codes, j), Pow(n));
    TruncateBounds(Code(codes, r), Pow(n), Pow(j) + Hidden(codes, j), End(codes, j), j < l);
  }

  /** Of the codes that mark entries, none starts with another, not even where they wrap around. */
  lemma VisiblePrefixFree(codes: seq<byte>, s: nat, r: nat)
    requires s < |codes| && r < |codes| && VisibleKraft(codes) && 1 <= codes[s] <= codes[r] <= 15
    requires !Invisible(codes, s) && !Invisible(codes, r)
    requires Reversed(codes, r) % Pow(codes[s]) == Reversed(codes, s)
    ensures s == r
  {
    hide VisibleKraft, Hidden, Rev, NextCode, Invisible;
    var j: nat, c := codes[s], Code(codes, r);
    var d := Shr(c, codes[r] - j);
    VisibleCode(codes, s);
    HiddenBelow(codes, r);
    TruncatedVisible(codes, j, r);
    ReversedPrefix(codes[r], j, c);
    if j == codes[r] {
      assert d == c by {
        assert Pow(0) == 1;
      }
    }
    SameCode(j, Hidden(codes, j), d, Code(codes, s));
    if j == codes[r] {
      RankInjective(codes, s, r);
    }
  }

  lemma VisibleCode(codes: seq<byte>, s: nat)
    requires s < |codes| && VisibleKraft(codes) && 1 <= codes[s] <= 15 && !Invisible(codes, s)
    ensures Hidden(codes, codes[s]) <= Code(codes, s) < End(codes, codes[s]) <= Pow(codes[s]) + Hidden(codes, codes[s])
  {
    hide VisibleKraft, Hidden, NextCode;
    HiddenBelow(codes, s);
    RankBound(codes, s, |codes|);
    VisibleBoundsEnd(codes, codes[s]);
  }

  lemma DivAtLeast(x: nat, d: nat, q: nat)
    requires d > 0 && q * d <= x
    ensures q <= x / d
  {
    DivModFacts(x, d);
    MulMono(x / d + 1, if q <= x / d then x / d + 1 else q, d);
    MulDistr(x / d, 1, d);
  }

  /** Splitting off the low byte of a number below `256 * m`. */
  lemma LowByte(x: nat, m: nat)
    requires m > 0
    ensures x % (256 * m) == (x / 256 % m) * 256 + x % 256
    ensures x < 256 * m ==> x / 256 < m
  {
    DivModFacts(x / 256, m);
    var q, r := x / 256 / m, x / 256 % m;
    assert x == (q * m + r) * 256 + x % 256;
    assert (q * m + r) * 256 == q * (256 * m) + r * 256;
    DivModUnique(x, q, r * 256 + x % 256, 256 * m);
    if x < 256 * m {
      DivModUnique(x, 0, x, 256 * m);
    }
  }

  /** Two codes that meet in one secondary slot: the shorter is a prefix of the longer. */
  lemma MeetInSlot(codes: seq<byte>, e: u16, k: int, s: nat, r: nat)
    requires s < |codes| && r < |codes| && IsLong(codes, s) && IsLong(codes, r) && codes[s] <= codes[r]
    requires Owns(codes, e, k, s) && Owns(codes, e, k, r)
    requires Reversed(codes, s) % 256 == Reversed(codes, r) % 256
    ensures Reversed(codes, r) % Pow(codes[s]) == Reversed(codes, s)
  {
    var a: nat, b: nat := codes[s] - 8, codes[r] - 8;
    var x: nat := k - 256 - Secondary(e);
    var u, v := Reversed(codes, s), Reversed(codes, r);
    assert Pow(8) == 256;
    PowAdd(8, a);
    PowAdd(8, b);
    LowByte(u, Pow(a));
    LowByte(v, Pow(b));
    LowByte(v, Pow(a));
    OnGridIff(x, u / 256, Pow(a));
    OnGridIff(x, v / 256, Pow(b));
    ModModPow(x, a, b);
  }

  /** The slots of the next symbol are free unless the visible codes take more than the code space. */
  lemma NoCollision(codes: seq<byte>, t: seq<u16>, s: nat)
    requires s < |codes| && IsLong(codes, s) && |t| == 1024 && VisibleKraft(codes)
    requires Accounted(codes, t, codes[s], Rank(codes, s)) && Flagged(t[Reversed(codes, s) % 256])
    ensures forall k :: 0 <= k < 1024 && Owns(codes, t[Reversed(codes, s) % 256], k, s) ==> t[k] == 0
  {
    hide VisibleKraft, Rev, Code, OnGrid;
    var p := Reversed(codes, s) % 256;
    forall k | 0 <= k < 1024 && Owns(codes, t[p], k, s)
      ensures t[k] == 0
    {
      if t[k] != 0 {
        var r := t[k] % 512;
        assert Behind(t[p], k);
        assert LeadsTo(codes, t[p], p, k, r, codes[s], Rank(codes, s));
        MeetInSlot(codes, t[p], k, s, r);
        VisiblePrefixFree(codes, s, r);
      }
    }
  }

  /** Nor does a long code lead to a slot of a short one. */
  lemma BeyondShort(codes: seq<byte>, short: seq<u16>, s: nat)
    requires s < |codes| && IsLong(codes, s) && VisibleKraft(codes) && Primary(codes, short, 8, End(codes, 8))
    ensures short[Reversed(codes, s) % 256] == 0
    ensures Kraft(codes) ==> End(codes, 8) <= Rev(8, Reversed(codes, s) % 256)
  {
    hide VisibleKraft, Kraft, Hidden, Rev, Pow, NextCode, Shr;
    PowTable();
    var d := Shr(Code(codes, s), codes[s] - 8);
    var p := Reversed(codes, s) % 256;
    ReversedPrefix(codes[s], 8, Code(codes, s));
    RevOfMod(8, d);
    RevInvolution(8, d % 256);
    TruncatedVisible(codes, 8, s);
    HiddenIsLow(codes);
    BeyondRound(d, End(codes, 8), Low(codes));
    assert short[p] != 0 <==> Taken(Rev(8, p), Low(codes), End(codes, 8) * 1);
    if Kraft(codes) {
      CodeFits(codes, s);
      TruncatedCode(codes, 8, s);
    }
  }

  lemma BeyondRound(d: nat, end: nat, low: nat)
    requires end <= d < 256 + low && low <= 128
    ensures !Taken(d % 256, low, end) && (d < 256 ==> d % 256 == d)
  {
  }

  /** Secondary tables end where the unused part of the table starts. */
  lemma BehindBelowTop(codes: seq<byte>, short: seq<u16>, t: seq<u16>, j: nat, top: nat)
    requires |short| == |t| == 1024 && Primary(codes, short, 8, End(codes, 8)) && Pointers(codes, short, t, j, top)
    ensures forall p, k {:trigger Behind(t[p], k)} :: 0 <= p < 256 && Behind(t[p], k) ==> k < 256 + top
  {
    forall p, k {:trigger Behind(t[p], k)} | 0 <= p < 256 && Behind(t[p], k)
      ensures k < 256 + top
    {
      assert short[p] < 4096;
      assert t[p] == short[p] || PointerOk(t[p], j, top);
    }
  }

  /** Starting a secondary table behind an empty primary entry. */
  lemma AddPointer(codes: seq<byte>, short: seq<u16>, t: seq<u16>, s: nat, top: nat, e: u16)
    requires s < |codes| && IsLong(codes, s) && top < 512
    requires TwoLevel(codes, short, t, codes[s], Rank(codes, s), top)
    requires t[Reversed(codes, s) % 256] == 0
    requires Flagged(e) && Secondary(e) == top && SecondaryBits(e) == codes[s] - 8
    ensures TwoLevel(codes, short, t[Reversed(codes, s) % 256 := e], codes[s], Rank(codes, s), top + Pow(codes[s] - 8))
  {
    hide Rev, Code, Kraft, OnGrid, LongDone, Primary;
    var p, top' := Reversed(codes, s) % 256, top + Pow(codes[s] - 8);
    var t' := t[p := e];
    assert Extends(t, t');
    LongDoneKept(codes, t, t', codes[s], Rank(codes, s));
    BehindBelowTop(codes, short, t, codes[s], top);
    if Kraft(codes) {
      KraftIsVisible(codes);
      BeyondShort(codes, short, s);
    }
    assert Pointers(codes, short, t', codes[s], top') by {
      assert t[p] == short[p];
    }
    assert Apart(t');
    assert Accounted(codes, t', codes[s], Rank(codes, s));
  }

  /** Filling the slots of one more symbol. */
  lemma AddSymbol(codes: seq<byte>, short: seq<u16>, t: seq<u16>, t': seq<u16>, s: nat, top: nat)
    requires s < |codes| && IsLong(codes, s) && |t'| == 1024
    requires TwoLevel(codes, short, t, codes[s], Rank(codes, s), top)
    requires var e := t[Reversed(codes, s) % 256];
      && Flagged(e) && SecondaryBits(e) >= codes[s] - 8
      && forall k :: 0 <= k < 1024 ==>
        if Owns(codes, e, k, s) then t[k] == 0 && t'[k] == LongEntry(s, codes[s]) else t'[k] == t[k]
    ensures TwoLevel(codes, short, t', codes[s], Rank(codes, s) + 1, top)
  {
    var j, n, p := codes[s], Rank(codes, s), Reversed(codes, s) % 256;
    var e := t[p];
    assert Extends(t, t');
    LongDoneKept(codes, t, t', j, n);
    SameRank(codes, s);
    BehindBelowTop(codes, short, t, j, top);
    assert LongDone(codes, t', j, n + 1) by {
      assert LongSlots(codes, t', s);
    }
    assert Accounted(codes, t', j, n + 1) by {
      forall q, k | 0 <= q < 256 && 256 <= k < 1024 && Behind(t'[q], k) && t'[k] != 0
        ensures LeadsTo(codes, t'[q], q, k, t'[k] % 512, j, n + 1)
      {
        if Owns(codes, e, k, s) {
          assert Behind(t[p], k);
          assert q == p;
        } else {
          assert LeadsTo(codes, t[q], q, k, t[k] % 512, j, n);
        }
      }
    }
  }

  /** A code entered before the `n`-th of length `j` has the primary entry `p`. */
  predicate EnteredAt(codes: seq<byte>, r: nat, p: nat, j: nat, n: nat)
    requires r < |codes|
  {
    Entered(codes, r, j, n) && Reversed(codes, r) % 256 == p
  }

  /** A long code needs a new secondary table: no code entered before it has the same first eight bits. */
  ghost predicate Opens(codes: seq<byte>, s: nat)
    requires s < |codes|
  {
    && IsLong(codes, s)
    && forall r :: 0 <= r < |codes| ==> !EnteredAt(codes, r, Reversed(codes, s) % 256, codes[s], Rank(codes, s))
  }

  /** Every pointer in the primary table was put there for a code that has been entered. */
  ghost predicate Traced(codes: seq<byte>, short: seq<u16>, t: seq<u16>, j: nat, n: nat)
    requires |short| == |t| == 1024
  {
    forall p :: 0 <= p < 256 && t[p] != short[p] ==> TracedTo(codes, p, j, n)
  }

  ghost predicate TracedTo(codes: seq<byte>, p: nat, j: nat, n: nat) {
    exists r :: 0 <= r < |codes| && EnteredAt(codes, r, p, j, n)
  }

  /** If the visible codes do not overlap, an empty primary entry means that a new table is needed. */
  lemma EmptyIfOpens(codes: seq<byte>, short: seq<u16>, t: seq<u16>, s: nat, top: nat)
    requires s < |codes| && IsLong(codes, s) && VisibleKraft(codes)
    requires TwoLevel(codes, short, t, codes[s], Rank(codes, s), top) && Traced(codes, short, t, codes[s], Rank(codes, s))
    ensures short[Reversed(codes, s) % 256] == 0
    ensures t[Reversed(codes, s) % 256] == 0 <==> Opens(codes, s)
  {
    hide Pointers, Apart, Accounted, Kraft, VisibleKraft, Primary, Rev, Code;
    var p := Reversed(codes, s) % 256;
    BeyondShort(codes, short, s);
    forall r | 0 <= r < |codes| && EnteredAt(codes, r, p, codes[s], Rank(codes, s))
      ensures Flagged(t[p])
    {
      assert LongSlots(codes, t, r);
    }
  }

  /** Entering `s` accounts for the pointer to its table. */
  lemma TracedStep(codes: seq<byte>, short: seq<u16>, t: seq<u16>, t': seq<u16>, s: nat)
    requires s < |codes| && IsLong(codes, s) && |short| == |t| == |t'| == 1024
    requires Traced(codes, short, t, codes[s], Rank(codes, s))
    requires forall q :: 0 <= q < 256 && q != Reversed(codes, s) % 256 ==> t'[q] == t[q]
    ensures Traced(codes, short, t', codes[s], Rank(codes, s) + 1)
  {
    hide Rev, Code;
    forall q | 0 <= q < 256 && t'[q] != short[q]
      ensures TracedTo(codes, q, codes[s], Rank(codes, s) + 1)
    {
      if q == Reversed(codes, s) % 256 {
        assert EnteredAt(codes, s, q, codes[s], Rank(codes, s) + 1);
      } else {
        var r :| 0 <= r < |codes| && EnteredAt(codes, r, q, codes[s], Rank(codes, s));
        assert EnteredAt(codes, r, q, codes[s], Rank(codes, s) + 1);
      }
    }
  }

  /** The C local variables that remember the current secondary table. */
  ghost predicate Cached(t: seq<u16>, primary: nat, secondary: nat, bits: nat)
    requires |t| == 1024
  {
    primary == 256 ||
    (primary < 256 && Flagged(t[primary]) && Secondary(t[primary]) == secondary && SecondaryBits(t[primary]) == bits)
  }

  /** Finds or creates the secondary table for a code. */
  method OpenSecondary(codes: seq<byte>, s: nat, ghost short: seq<u16>, table: array<u16>, code: nat, top0: nat)
    returns (ok: bool, secondary: nat, bits: nat, top: nat)
    requires s < |codes| && IsLong(codes, s) && code == Reversed(codes, s) && table.Length == 1024
    requires TwoLevel(codes, short, table[..], codes[s], Rank(codes, s), top0)
    modifies table
    ensures ok ==> TwoLevel(codes, short, table[..], codes[s], Rank(codes, s), top)
    ensures ok ==> Cached(table[..], code % 256, secondary, bits) && bits >= codes[s] - 8
    ensures forall q :: 0 <= q < 1024 && q != code % 256 ==> table[q] == old(table[q])
    ensures VisibleKraft(codes) && old(Traced(codes, short, table[..], codes[s], Rank(codes, s))) ==>
      && (ok <==> (Opens(codes, s) ==> top0 < 512))
      && (ok ==> top == top0 + if Opens(codes, s) then Pow(codes[s] - 8) else 0)
  {
    hide Rev, Code, Rank, Kraft, VisibleKraft, Opens, Traced, Apart, LongDone, Primary, Accounted;
    var j := codes[s];
    top, secondary, bits := top0, 0, 0;
    var primary := code % 256;
    var tprimary := table[primary];
    ghost var t := table[..];
    assert t[primary] == short[primary] || PointerOk(t[primary], j, top);
    if VisibleKraft(codes) && Traced(codes, short, t, j, Rank(codes, s)) {
      EmptyIfOpens(codes, short, t, s, top);
    }
    if tprimary == 0 {
      if top >= 512 {
        return false, secondary, bits, top;
      }
      secondary := top;
      bits := j - 8;
      top := top + Pow(bits);
      AddPointer(codes, short, t, s, secondary, Pointer(secondary, bits));
      table[primary] := Pointer(secondary, bits);
      assert table[..] == t[primary := Pointer(secondary, bits)];
    } else {
      if !Flagged(tprimary) {
        return false, secondary, bits, top;
      }
      secondary := Secondary(tprimary);
      bits := SecondaryBits(tprimary);
      if bits < j - 8 {
        return false, secondary, bits, top;
      }
    }
    return true, secondary, bits, top;
  }

  /** Fills the slots of a long code in the secondary table that was found for it. */
  method EnterLong(codes: seq<byte>, s: nat, ghost short: seq<u16>, table: array<u16>, code: nat,
                   secondary: nat, bits: nat, ghost top: nat)
    returns (ok: bool)
    requires s < |codes| && IsLong(codes, s) && code == Reversed(codes, s) && table.Length == 1024
    requires TwoLevel(codes, short, table[..], codes[s], Rank(codes, s), top)
    requires Cached(table[..], code % 256, secondary, bits) && bits >= codes[s] - 8
    modifies table
    ensures ok ==> TwoLevel(codes, short, table[..], codes[s], Rank(codes, s) + 1, top)
    ensures ok ==> forall q :: 0 <= q < 256 ==> table[q] == old(table[q])
    ensures VisibleKraft(codes) ==> ok
  {
    hide Rev, Code, VisibleKraft, OnGrid, Pointers, Apart, LongDone, Primary, Accounted;
    ghost var t := table[..];
    var tval := LongEntry(s, codes[s]);
    CodeSplit(codes, s);
    assert PointerInRange(secondary, bits);
    if VisibleKraft(codes) {
      NoCollision(codes, t, s);
    }
    ok := FillSlots(table, secondary + 256, Pow(bits), code / 256, Pow(codes[s] - 8), tval);
    if ok {
      AddSymbol(codes, short, t, table[..], s, top);
    }
  }

  /** The table that is still at hand has room for the code, as no longer code follows a shorter one. */
  lemma AtHand(codes: seq<byte>, short: seq<u16>, t: seq<u16>, s: nat, top: nat, secondary: nat, bits: nat)
    requires s < |codes| && IsLong(codes, s) && |t| == 1024
    requires TwoLevel(codes, short, t, codes[s], Rank(codes, s), top)
    requires Cached(t, Reversed(codes, s) % 256, secondary, bits)
    ensures bits >= codes[s] - 8 && t[Reversed(codes, s) % 256] != 0
  {
    hide Rev, Code, Apart, LongDone, Accounted;
    var p := Reversed(codes, s) % 256;
    assert t[p] == short[p] || PointerOk(t[p], codes[s], top);
    assert short[p] < 4096;
  }

  /** Enters one long code. */
  method PlaceLong(codes: seq<byte>, s: nat, ghost short: seq<u16>, table: array<u16>, code: nat,
                   primary0: nat, secondary0: nat, bits0: nat, top0: nat)
    returns (ok: bool, primary: nat, secondary: nat, bits: nat, top: nat)
    requires s < |codes| && IsLong(codes, s) && code == Reversed(codes, s) && |short| == table.Length == 1024
    requires TwoLevel(codes, short, table[..], codes[s], Rank(codes, s), top0)
    requires Cached(table[..], primary0, secondary0, bits0)
    modifies table
    ensures ok ==> TwoLevel(codes, short, table[..], codes[s], Rank(codes, s) + 1, top)
    ensures ok ==> Cached(table[..], primary, secondary, bits)
    ensures ok && old(Traced(codes, short, table[..], codes[s], Rank(codes, s))) ==>
      Traced(codes, short, table[..], codes[s], Rank(codes, s) + 1)
    ensures VisibleKraft(codes) && old(Traced(codes, short, table[..], codes[s], Rank(codes, s))) ==>
      && (ok <==> (Opens(codes, s) ==> top0 < 512))
      && (ok ==> top == top0 + if Opens(codes, s) then Pow(codes[s] - 8) else 0)
  {
    hide TwoLevel, Rev, Code, VisibleKraft, OnGrid, Opens, Traced, Rank;
    ghost var t0 := table[..];
    ghost var traced := Traced(codes, short, t0, codes[s], Rank(codes, s));
    if VisibleKraft(codes) && traced {
      EmptyIfOpens(codes, short, t0, s, top0);
    }
    primary, secondary, bits, top := primary0, secondary0, bits0, top0;
    if code % 256 != primary {
      primary := code % 256;
      ok, secondary, bits, top := OpenSecondary(codes, s, short, table, code, top0);
      if !ok {
        return;
      }
    } else {
      AtHand(codes, short, t0, s, top0, secondary, bits);
    }
    ok := EnterLong(codes, s, short, table, code, secondary, bits, top);
    if ok && traced {
      TracedStep(codes, short, t0, table[..], s);
    }
  }

  predicate PointerInRange(secondary: nat, bits: nat)
    requires secondary < 512 && bits < 8
    ensures PointerInRange(secondary, bits)
  {
    PowMono(bits, 7);
    assert Pow(7) == 128;
    256 + secondary + Pow(bits) <= 1024
  }

  lemma CodeSplit(codes: seq<byte>, s: nat)
    requires s < |codes| && IsLong(codes, s)
    ensures Reversed(codes, s) / 256 < Pow(codes[s] - 8)
  {
    assert Pow(8) == 256;
    PowAdd(8, codes[s] - 8);
    LowByte(Reversed(codes, s), Pow(codes[s] - 8));
  }
}
