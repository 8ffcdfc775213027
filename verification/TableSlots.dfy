/** The pieces of the Huffman table builder: chaining symbols by length, and filling slots. */
module TableSlots {
  import opened Bits
  import opened Huffman

  ghost predicate Counted(codes: seq<byte>, n: nat, count: seq<u16>)
    requires n <= |codes| && |count| == 16
  {
    forall j :: 0 <= j < 16 ==> count[j] == CountUpTo(codes, j, n)
  }

  /** `at[j]` is a symbol of length `j` and of the given rank, when there is one. */
  ghost predicate HasRank(codes: seq<byte>, n: nat, j: nat, s: nat, rank: int)
    requires n <= |codes|
  {
    s < n && codes[s] == j && Rank(codes, s) == rank
  }

  ghost predicate Started(codes: seq<byte>, n: nat, start: seq<u16>)
    requires n <= |codes| && |start| == 16
  {
    forall j {:trigger start[j]} :: 0 <= j < 16 && CountUpTo(codes, j, n) > 0 ==> HasRank(codes, n, j, start[j], 0)
  }

  /** `prev` holds the last symbol seen of each length. */
  ghost predicate LastSeen(codes: seq<byte>, n: nat, prev: seq<u16>)
    requires n <= |codes| && |prev| == 16
  {
    forall j {:trigger prev[j]} :: 0 <= j < 16 && CountUpTo(codes, j, n) > 0 ==>
      HasRank(codes, n, j, prev[j], CountUpTo(codes, j, n) - 1)
  }

  ghost predicate Linked(codes: seq<byte>, n: nat, next: seq<u16>)
    requires n <= |codes| <= |next|
  {
    forall s {:trigger next[s]} :: 0 <= s < n && Rank(codes, s) + 1 < CountUpTo(codes, codes[s], n) ==>
      HasRank(codes, n, codes[s], next[s], Rank(codes, s) + 1)
  }

  /** `count`, `start` and `next` thread together the first `n` symbols of each code length. */
  ghost predicate Chained(codes: seq<byte>, n: nat, count: seq<u16>, start: seq<u16>, next: seq<u16>)
    requires n <= |codes| <= |next| && |count| == 16 && |start| == 16
  {
    Counted(codes, n, count) && Started(codes, n, start) && Linked(codes, n, next)
  }

  /** Linking symbol `n` behind the last one of its length. */
  lemma LinkStep(codes: seq<byte>, n: u16, next: seq<u16>, prev: seq<u16>)
    requires n < |codes| <= |next| && |prev| == 16 && codes[n] < 16
    requires Linked(codes, n, next) && LastSeen(codes, n, prev)
    ensures CountUpTo(codes, codes[n], n) == 0 ==> Linked(codes, n + 1, next)
    ensures CountUpTo(codes, codes[n], n) > 0 ==>
      prev[codes[n]] < |next| && Linked(codes, n + 1, next[prev[codes[n]] := n])
  {
    var l := codes[n];
    var c := CountUpTo(codes, l, n);
    if c > 0 {
      assert HasRank(codes, n, l, prev[l], c - 1);
      LastOfLength(codes, n, prev[l]);
    }
    var next' := if c > 0 then next[prev[l] := n] else next;
    forall s | 0 <= s < n + 1 && Rank(codes, s) + 1 < CountUpTo(codes, codes[s], n + 1)
      ensures HasRank(codes, n + 1, codes[s], next'[s], Rank(codes, s) + 1)
    {
      if s < n {
        RankBound(codes, s, n);
        if c > 0 && s == prev[l] {
          assert next'[s] == n;
        } else if Rank(codes, s) + 1 < CountUpTo(codes, codes[s], n) {
          assert HasRank(codes, n, codes[s], next[s], Rank(codes, s) + 1);
        }
      }
    }
  }

  /** Counts the codes of each length and links each symbol to the next one of the same length. */
  method ChainLengths(codes: seq<byte>, count: array<u16>, start: array<u16>, next: array<u16>) returns (ok: bool)
    requires |codes| <= next.Length < 0x1_0000 && count.Length == 16 && start.Length == 16
    requires count != start && count != next && start != next
    modifies count, start, next
    ensures ok <==> forall s :: 0 <= s < |codes| ==> codes[s] < 16
    ensures ok ==> Chained(codes, |codes|, count[..], start[..], next[..])
  {
    var prev := new u16[16];
    var j := 0;
    while j < 16
      invariant 0 <= j <= 16
      invariant forall k :: 0 <= k < j ==> count[k] == 0
    {
      count[j] := 0;
      j := j + 1;
    }
    var i: u16 := 0;
    while i < |codes|
      invariant 0 <= i <= |codes|
      invariant forall s :: 0 <= s < i ==> codes[s] < 16
      invariant Chained(codes, i, count[..], start[..], next[..])
      invariant LastSeen(codes, i, prev[..])
    {
      var l := codes[i];
      if l >= 16 {
        return false;
      }
      LinkStep(codes, i, next[..], prev[..]);
      ghost var next0, prev0 := next[..], prev[..];
      if count[l] == 0 {
        start[l] := i;
        prev[l] := i;
      } else {
        next[prev[l]] := i;
        assert next[..] == next0[prev0[l] := i];
        prev[l] := i;
      }
      count[l] := count[l] + 1;
      i := i + 1;
    }
    return true;
  }

  /** Only the last symbol of its length has the highest rank. */
  lemma LastOfLength(codes: seq<byte>, n: nat, p: nat)
    requires p < n < |codes| && codes[n] == codes[p]
    requires Rank(codes, p) == CountUpTo(codes, codes[p], n) - 1
    ensures forall s :: 0 <= s < n && codes[s] == codes[p] && Rank(codes, s) == Rank(codes, p) ==> s == p
  {
    forall s | 0 <= s < n && codes[s] == codes[p] && Rank(codes, s) == Rank(codes, p)
      ensures s == p
    {
      RankInjective(codes, s, p);
    }
  }

  /** `i` is one of `first`, `first + step`, `first + 2 * step`, ... */
  predicate OnGrid(i: nat, first: nat, step: nat)
    requires step > 0
  {
    if i < step then i == first else OnGrid(i - step, first, step)
  }

  lemma {:induction false} OnGridIff(i: nat, first: nat, step: nat)
    requires first < step
    ensures OnGrid(i, first, step) <==> i % step == first
  {
    if i < step {
      DivModUnique(i, 0, i, step);
    } else {
      OnGridIff(i - step, first, step);
      ModAdd(i - step, 1, step);
    }
  }

  /** Table index `k` is one of the slots `first, first + step, ...` of the table part at `base`. */
  predicate InSlot(k: int, base: nat, limit: nat, first: nat, step: nat)
    requires step > 0
  {
    base <= k < base + limit && OnGrid(k - base, first, step)
  }

  /** Between two neighbouring grid points there is no other. */
  lemma {:induction false} GridGap(ind: nat, i: nat, first: nat, step: nat)
    requires first < step && OnGrid(ind, first, step) && OnGrid(i, first, step) && ind <= i < ind + step
    ensures i == ind
    decreases i
  {
    if ind >= step {
      GridGap(ind - step, i - step, first, step);
    }
  }

  /** The grid points below `ind + step` are those below `ind`, and `ind`. */
  lemma SlotAdvance(base: nat, limit: nat, first: nat, step: nat, ind: nat)
    requires first < step && OnGrid(ind, first, step)
    ensures OnGrid(ind + step, first, step)
    ensures forall k :: InSlot(k, base, limit, first, step) && ind <= k - base < ind + step ==> k == base + ind
  {
    forall k | InSlot(k, base, limit, first, step) && ind <= k - base < ind + step
      ensures k == base + ind
    {
      GridGap(ind, k - base, first, step);
    }
  }

  /** Stores `tval` in every slot, unless one of them is already taken. */
  method FillSlots(table: array<u16>, base: nat, limit: nat, first: nat, step: nat, tval: u16) returns (ok: bool)
    requires first < step && base + limit <= table.Length
    modifies table
    ensures ok <==> forall k :: 0 <= k < table.Length && InSlot(k, base, limit, first, step) ==> old(table[k]) == 0
    ensures ok ==> forall k :: 0 <= k < table.Length ==>
      table[k] == if InSlot(k, base, limit, first, step) then tval else old(table[k])
  {
    var ind := first;
    while ind < limit
      invariant 0 <= ind && OnGrid(ind, first, step)
      invariant forall k :: 0 <= k < table.Length ==>
        table[k] == if InSlot(k, base, limit, first, step) && k - base < ind then tval else old(table[k])
      invariant forall k :: 0 <= k < table.Length && InSlot(k, base, limit, first, step) && k - base < ind ==>
        old(table[k]) == 0
      decreases limit - ind
    {
      assert InSlot(base + ind, base, limit, first, step);
      if table[base + ind] != 0 {
        return false;
      }
      table[base + ind] := tval;
      SlotAdvance(base, limit, first, step, ind);
      ind := ind + step;
    }
    return true;
  }
}
