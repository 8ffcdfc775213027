/** Lengths, distances and copies of the inflate loop. */
module InflateMatch {
  import opened Bits
  import opened Deflate
  import opened BitReader

  /** The shift expression for the length codes agrees with the table of section 3.2.5. */
  lemma LengthFormula(lit: nat)
    requires 265 <= lit <= 284
    ensures var l := lit - 265; var extra := l / 4 + 1;
      && LengthExtra(lit) == extra <= 5
      && LengthBase(lit) == l % 4 * Pow(extra) + 11 + (Pow(extra - 1) - 1) * 8
  {
    assert Pow(1) == 2 && Pow(2) == 4 && Pow(3) == 8 && Pow(4) == 16 && Pow(5) == 32;
    if lit <= 268 {
    } else if lit <= 272 {
    } else if lit <= 276 {
    } else if lit <= 280 {
    } else {
    }
  }

  /** The shift expression for the distance codes agrees with the table of section 3.2.5. */
  lemma DistanceFormula(dist: nat)
    requires 4 <= dist <= 29
    ensures var d := dist - 4; var extra := d / 2 + 1;
      && DistanceExtra(dist) == extra <= 13 && DistanceBase(dist) >= 5
      && DistanceBase(dist) == d % 2 * Pow(extra) + 5 + (Pow(extra - 1) - 1) * 4
  {
    assert Pow(1) == 2 && Pow(2) == 4 && Pow(3) == 8 && Pow(4) == 16 && Pow(5) == 32 && Pow(6) == 64;
    assert Pow(7) == 128 && Pow(8) == 256 && Pow(9) == 512 && Pow(10) == 1024 && Pow(11) == 2048;
    assert Pow(12) == 4096 && Pow(13) == 8192;
    if dist <= 5 {
    } else if dist <= 7 {
    } else if dist <= 9 {
    } else if dist <= 11 {
    } else if dist <= 13 {
    } else if dist <= 15 {
    } else if dist <= 17 {
    } else if dist <= 19 {
    } else if dist <= 21 {
    } else if dist <= 23 {
    } else if dist <= 25 {
    } else if dist <= 27 {
    } else {
    }
  }

  lemma NoExtraLength(lit: nat)
    requires 257 <= lit
    ensures lit < 265 ==> LengthExtra(lit) == 0 && LengthBase(lit) == lit - 254
    ensures lit == 285 ==> LengthExtra(lit) == 0 && LengthBase(lit) == 258
  {
  }

  lemma NoExtraDistance(dsym: nat)
    requires dsym < 4
    ensures DistanceExtra(dsym) == 0 && DistanceBase(dsym) == dsym + 1
  {
  }

  /** Converts a literal/length symbol above 256 into a match length. */
  method ReadLength(r: Reader, lit: nat) returns (ok: bool, len: nat)
    requires r.Valid() && 257 <= lit
    modifies r
    ensures r.Valid() && old(r.Pos()) <= r.Pos()
    ensures ok ==> lit <= 285 && r.Pos() == old(r.Pos()) + LengthExtra(lit)
    ensures ok ==> len == LengthBase(lit) + BitsAt(r.input, old(r.Pos()), LengthExtra(lit))
    ensures !ok ==> lit > 285 || (r.Starved() && r.Pos() == old(r.Pos()) && LengthExtra(lit) > 0)
  {
    hide BitsAt, Pow, LengthBase, LengthExtra, Reader.OnWord;
    NoExtraLength(lit);
    NoBitsRead(r.input, r.Pos());
    len := 0;
    if lit < 265 {
      return true, lit - 257 + 3;
    } else if lit == 285 {
      return true, 258;
    } else if lit > 285 {
      return false, 0;
    }
    LengthFormula(lit);
    ok := r.Fetch();
    if ok {
      var l := lit - 265;
      var extra := l / 4 + 1;
      var more := r.Take(extra);
      len := l % 4 * Pow(extra) + 11 + (Pow(extra - 1) - 1) * 8 + more;
    }
  }

  /** Converts a distance symbol other than 0 into a distance. */
  method ReadDistance(r: Reader, dsym: nat) returns (ok: bool, dist: nat)
    requires r.Valid() && 1 <= dsym <= 29
    modifies r
    ensures r.Valid() && old(r.Pos()) <= r.Pos()
    ensures ok ==> dist >= 1 && r.Pos() == old(r.Pos()) + DistanceExtra(dsym)
    ensures ok ==> dist == DistanceBase(dsym) + BitsAt(r.input, old(r.Pos()), DistanceExtra(dsym))
    ensures !ok ==> r.Starved() && r.Pos() == old(r.Pos()) && DistanceExtra(dsym) > 0
  {
    hide BitsAt, Pow, DistanceBase, DistanceExtra, Reader.OnWord;
    NoBitsRead(r.input, r.Pos());
    dist := 0;
    if dsym < 4 {
      NoExtraDistance(dsym);
      return true, dsym + 1;
    }
    DistanceFormula(dsym);
    ok := r.Fetch();
    if ok {
      var d := dsym - 4;
      var extra := d / 2 + 1;
      var more := r.Take(extra);
      dist := d % 2 * Pow(extra) + 5 + (Pow(extra - 1) - 1) * 4 + more;
    }
  }

  /** A sequence that extends `o` by bytes each equal to the byte `dist` before is the copy. */
  lemma {:induction false} CopyUnique(o: seq<byte>, len: nat, dist: nat, c: seq<byte>)
    requires 1 <= dist <= |o| && |c| == |o| + len && c[..|o|] == o
    requires forall i :: |o| <= i < |c| ==> c[i] == c[i - dist]
    ensures CopyBytes(o, len, dist) == c
    decreases len
  {
    if len == 0 {
      assert c == o;
    } else {
      var o' := o + [o[|o| - dist]];
      assert c[|o|] == c[..|o|][|o| - dist];
      assert c[..|o'|] == o';
      CopyUnique(o', len - 1, dist, c);
    }
  }

  lemma {:induction false} CopyLength(o: seq<byte>, len: nat, dist: nat)
    requires 1 <= dist <= |o|
    ensures |CopyBytes(o, len, dist)| == |o| + len
    decreases len
  {
    if len > 0 {
      CopyLength(o + [o[|o| - dist]], len - 1, dist);
    }
  }

  /** A distance of 1: fills with the last byte, as memset does. */
  method RepeatLast(out: array<byte>, pout: nat, len: nat)
    requires 1 <= pout && pout + len <= out.Length
    modifies out
    ensures out[..pout] == old(out[..pout])
    ensures out[..pout + len] == CopyBytes(old(out[..pout]), len, 1)
  {
    var last := out[pout - 1];
    forall k | pout <= k < pout + len {
      out[k] := last;
    }
    CopyUnique(old(out[..pout]), len, 1, out[..pout + len]);
  }

  /** Copies from `dist` back, in chunks that do not overlap their source. */
  method CopyBack(out: array<byte>, pout0: nat, len0: nat, dist: nat)
    requires 1 <= dist <= pout0 && pout0 + len0 <= out.Length
    modifies out
    ensures out[..pout0] == old(out[..pout0])
    ensures out[..pout0 + len0] == CopyBytes(old(out[..pout0]), len0, dist)
  {
    if dist >= len0 {
      forall k | 0 <= k < len0 {
        out[pout0 + k] := out[pout0 - dist + k];
      }
    } else {
      var pout: nat, len: nat := pout0, len0;
      while len > 0
        invariant pout0 <= pout && pout + len == pout0 + len0
        invariant out[..pout0] == old(out[..pout0])
        invariant forall i :: pout0 <= i < pout ==> out[i] == out[i - dist]
        decreases len
      {
        var copy := if len < dist then len else dist;
        ghost var was := out[..pout];
        forall k | 0 <= k < copy {
          out[pout + k] := out[pout - dist + k];
        }
        assert out[..pout] == was;
        forall i | pout0 <= i < pout + copy
          ensures out[i] == out[i - dist]
        {
          if i < pout {
            assert was[i] == was[i - dist];
          }
        }
        assert out[..pout0] == was[..pout0];
        len := len - copy;
        pout := pout + copy;
      }
    }
    CopyUnique(old(out[..pout0]), len0, dist, out[..pout0 + len0]);
  }
}
