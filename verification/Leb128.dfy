/** Variable-length numbers of DWARF 4, section 7.6: seven bits a byte, the least significant first. */
module Leb128 {
  import opened Bits
  import opened DwarfBuf

  const WORD: nat := 0x1_0000_0000_0000_0000

  const HALF: int := 0x8000_0000_0000_0000

  /** The first `n` bytes are one number: all of them but the last have the top bit set. */
  predicate Ends(s: seq<byte>, n: nat) {
    0 < n <= |s| && s[n - 1] < 128 && forall i :: 0 <= i < n - 1 ==> s[i] >= 128
  }

  /** The seven-bit groups of the bytes, put side by side. */
  function Groups(s: seq<byte>): (v: nat)
  {
    if s == [] then 0 else s[0] % 128 + 128 * Groups(s[1..])
  }

  /** As a signed number, the second highest bit of the last byte is the sign. */
  function Signed(s: seq<byte>): int {
    if s == [] then 0
    else if |s| == 1 then (if s[0] % 128 >= 64 then s[0] % 128 - 128 else s[0] % 128)
    else s[0] % 128 + 128 * Signed(s[1..])
  }

  function ToInt64(x: nat): int
    requires x < WORD
  {
    if x < HALF then x else x - WORD
  }

  /** The encodings that DWARF gives. */
  function EncodeUleb(v: nat): seq<byte> {
    if v < 128 then [v] else [v % 128 + 128] + EncodeUleb(v / 128)
  }

  function EncodeSleb(v: int): seq<byte>
    decreases if v < 0 then -v else v
  {
    if -64 <= v < 64 then [v % 128] else [v % 128 + 128] + EncodeSleb(v / 128)
  }

  lemma {:induction false} GroupsAppend(s: seq<byte>, b: byte)
    ensures Groups(s + [b]) == Groups(s) + (b % 128) * Pow(7 * |s|)
  {
    if s == [] {
      assert s + [b] == [b];
      assert Groups([b]) == b % 128 + 128 * Groups([b][1..]);
    } else {
      assert (s + [b])[1..] == s[1..] + [b];
      GroupsAppend(s[1..], b);
      PowSeven(7 * (|s| - 1));
      var p := Pow(7 * (|s| - 1));
      assert 128 * ((b % 128) * p) == (b % 128) * (128 * p);
    }
  }

  lemma PowSeven(n: nat)
    ensures Pow(n + 7) == 128 * Pow(n)
  {
    PowAdd(n, 7);
    PowTable();
    assert Pow(n) * 128 == 128 * Pow(n);
  }

  lemma {:induction false} GroupsBound(s: seq<byte>)
    ensures Groups(s) < Pow(7 * |s|)
  {
    if s != [] {
      GroupsBound(s[1..]);
      PowSeven(7 * (|s| - 1));
    }
  }

  /** The sign takes away the power of two that the groups end at. */
  lemma {:induction false} SignedOfGroups(s: seq<byte>)
    requires s != []
    ensures Signed(s) == Groups(s) - if s[|s| - 1] % 128 >= 64 then Pow(7 * |s|) else 0
  {
    if |s| == 1 {
      assert s[1..] == [];
      PowTable();
    } else {
      SignedOfGroups(s[1..]);
      PowSeven(7 * (|s| - 1));
    }
  }

  /** A power of at least 64 leaves no bits in a 64-bit word. */
  lemma HighPow(n: nat, g: int)
    requires n >= 64
    ensures (g * Pow(n)) % WORD == 0
  {
    PowAdd(n - 64, 64);
    PowWord();
    var p := Pow(n - 64);
    MulAssoc(g, p, WORD);
    var q := g * p;
    DivModUnique(q * WORD, q, 0, WORD);
  }

  lemma PowWord()
    ensures Pow(64) == WORD && Pow(63) == HALF
  {
    PowTable();
    PowAdd(16, 16);
    PowAdd(32, 32);
    assert Pow(64) == 2 * Pow(63);
  }

  lemma AddModWord(x: int, y: int)
    ensures (x % WORD + y) % WORD == (x + y) % WORD
  {
  }

  /** One more byte into the word, as long as the shift is less than 64; later ones add nothing. */
  lemma WordStep(s: seq<byte>, b: byte)
    ensures 7 * |s| < 64 ==> (Groups(s) % WORD + (b % 128) * Pow(7 * |s|)) % WORD == Groups(s + [b]) % WORD
    ensures 7 * |s| >= 64 ==> Groups(s) % WORD == Groups(s + [b]) % WORD
  {
    hide Pow, Groups;
    GroupsAppend(s, b);
    var n: nat := 7 * |s|;
    var x := Groups(s);
    var g := (b % 128) * Pow(n);
    AddModWord(x, g);
    if n >= 64 {
      HighPow(n, b % 128);
      DropMultiple(x, g);
    }
  }

  lemma DropMultiple(x: int, g: int)
    requires g % WORD == 0
    ensures (x + g) % WORD == x % WORD
  {
  }

  /** Ones above the last group, if there is room for any, make the word the signed number. */
  lemma SignStep(s: seq<byte>)
    requires s != []
    ensures var w := Groups(s) % WORD; var n := 7 * |s|;
            (if s[|s| - 1] % 128 >= 64 && n < 64 then w + WORD - Pow(n) else w) == Signed(s) % WORD
  {
    hide Groups, Signed, Pow;
    var n: nat := 7 * |s|;
    SignedOfGroups(s);
    GroupsBound(s);
    PowWord();
    if n < 64 {
      PowMono(n, 63);
    } else {
      HighPow(n, -1);
      DropMultiple(Groups(s), -1 * Pow(n));
    }
  }

  /** The word holds the groups of the bytes read so far, reduced to 64 bits. */
  ghost predicate Reading(b: Buf, start: seq<byte>, k: nat, word: nat, shift: nat)
    requires b.Valid()
    reads b
  {
    && k <= |start| && b.Rest() == start[k..]
    && (forall i :: 0 <= i < k - 1 ==> start[i] >= 128)
    && word == Groups(start[..k]) % WORD
    && shift == 7 * k && word < WORD
  }

  lemma ReadingStarts(b: Buf)
    requires b.Valid()
    ensures Reading(b, b.Rest(), 0, 0, 0)
  {
  }

  /** One more byte has been read. */
  lemma ReadingStep(b: Buf, start: seq<byte>, k: nat, word: nat, word': nat)
    requires b.Valid() && k < |start| && b.Rest() == start[k + 1..] && word == Groups(start[..k]) % WORD
    requires forall i :: 0 <= i < k ==> start[i] >= 128
    requires word' == if 7 * k < 64 then (word + start[k] % 128 * Pow(7 * k)) % WORD else word
    ensures Reading(b, start, k + 1, word', 7 * k + 7)
  {
    hide Groups, Pow;
    assert start[..k + 1] == start[..k] + [start[k]];
    WordStep(start[..k], start[k]);
  }

  /** What has been read is the number that the bytes start with. */
  lemma ReadingEnds(b: Buf, start: seq<byte>, k: nat, word: nat, shift: nat)
    requires b.Valid() && Reading(b, start, k, word, shift) && 0 < k && start[k - 1] < 128
    ensures Ends(start, k) && forall n: nat :: Ends(start, n) ==> n == k
    ensures word == Groups(start[..k]) % WORD && b.Rest() == start[k..] && shift == 7 * k
  {
    hide Groups;
    EndsOnce(start, k);
  }

  lemma ReadingHolds(b: Buf, start: seq<byte>, k: nat, word: nat, shift: nat)
    requires b.Valid() && Reading(b, start, k, word, shift) && (k > 0 ==> start[k - 1] >= 128)
    ensures forall i :: 0 <= i < k ==> start[i] >= 128
    ensures word == Groups(start[..k]) % WORD && b.Rest() == start[k..] && shift == 7 * k
    ensures |b.Rest()| == 0 ==> forall n: nat :: !Ends(start, n)
  {
    hide Groups;
    if |b.Rest()| == 0 {
      EndsNowhere(start);
    }
  }

  /** One report for a number that is longer than ten bytes. */
  function Overflow(n: nat, r: Report): seq<Report> {
    if n > 10 then [r] else []
  }

  ghost predicate UlebRead(before: seq<Report>, after: seq<Report>, ret: nat, number: seq<byte>) {
    ret == Groups(number) % WORD && after == before + Overflow(|number|, UlebOverflow)
  }

  ghost predicate SlebRead(before: seq<Report>, after: seq<Report>, ret: int, number: seq<byte>) {
    ret == ToInt64(Signed(number) % WORD) && after == before + Overflow(|number|, SlebOverflow)
  }

  lemma EndsOnce(s: seq<byte>, k: nat)
    requires Ends(s, k)
    ensures forall n: nat :: Ends(s, n) ==> n == k
  {
  }

  lemma EndsNowhere(s: seq<byte>)
    requires forall i :: 0 <= i < |s| ==> s[i] >= 128
    ensures forall n: nat :: !Ends(s, n)
  {
  }

  /**
   * `read_uleb128`. However long the number is, and whatever bytes it is padded with, the result is the
   * number modulo 2^64; a report is made exactly when it is longer than ten bytes.
   */
  method ReadUleb(b: Buf) returns (ret: nat)
    requires b.Valid()
    modifies b
    ensures b.Valid() && b.left <= old(b.left) && ret < WORD
    ensures forall n: nat :: Ends(old(b.Rest()), n) ==> UlebRead(old(b.reports), b.reports, ret, old(b.Rest())[..n])
    ensures forall n: nat :: Ends(old(b.Rest()), n) ==> b.Rest() == old(b.Rest())[n..] && b.pos == old(b.pos) + n
    ensures forall n: nat :: Ends(old(b.Rest()), n) ==> b.reportedUnderflow == old(b.reportedUnderflow)
    ensures (forall n: nat :: !Ends(old(b.Rest()), n)) ==> ret == 0 && b.left == 0 && b.reportedUnderflow
  {
    hide Groups, Pow, Reading, Ends;
    ghost var s := b.Rest();
    ghost var k: nat := 0;
    var shift: nat := 0;
    var overflow := false;
    var c: byte := 0x80;
    ret := 0;
    ReadingStarts(b);
    while c >= 128
      invariant b.Valid() && Reading(b, s, k, ret, shift) && b.pos == old(b.pos) + k && b.left <= old(b.left)
      invariant k <= |s| && if k == 0 then c >= 128 else c == s[k - 1]
      invariant overflow == (k > 10)
      invariant b.reports == old(b.reports) + Overflow(k, UlebOverflow)
      invariant b.reportedUnderflow == old(b.reportedUnderflow)
      decreases b.left
    {
      ReadingHolds(b, s, k, ret, shift);
      ghost var word := ret;
      var at := b.pos;
      var ok := b.Advance(1);
      if !ok {
        return 0;
      }
      c := b.data[at];
      assert c == s[k] && b.Rest() == s[k + 1..];
      if shift < 64 {
        ret := (ret + c % 128 * Pow(shift)) % WORD;
      } else if !overflow {
        b.Report(UlebOverflow);
        overflow := true;
      }
      ReadingStep(b, s, k, word, ret);
      shift := shift + 7;
      k := k + 1;
    }
    ReadingEnds(b, s, k, ret, shift);
  }

  /** `read_sleb128`: the result is the signed number, reduced to 64 bits. */
  method ReadSleb(b: Buf) returns (ret: int)
    requires b.Valid()
    modifies b
    ensures b.Valid() && b.left <= old(b.left)
    ensures forall n: nat :: Ends(old(b.Rest()), n) ==> SlebRead(old(b.reports), b.reports, ret, old(b.Rest())[..n])
    ensures forall n: nat :: Ends(old(b.Rest()), n) ==> b.Rest() == old(b.Rest())[n..] && b.pos == old(b.pos) + n
    ensures forall n: nat :: Ends(old(b.Rest()), n) ==> b.reportedUnderflow == old(b.reportedUnderflow)
    ensures (forall n: nat :: !Ends(old(b.Rest()), n)) ==> ret == 0 && b.left == 0 && b.reportedUnderflow
  {
    hide Groups, Pow, Signed, Reading, Ends;
    ghost var s := b.Rest();
    ghost var k: nat := 0;
    var val: nat := 0;
    var shift: nat := 0;
    var overflow := false;
    var c: byte := 0x80;
    ReadingStarts(b);
    while c >= 128
      invariant b.Valid() && Reading(b, s, k, val, shift) && b.pos == old(b.pos) + k && b.left <= old(b.left)
      invariant k <= |s| && if k == 0 then c >= 128 else c == s[k - 1]
      invariant overflow == (k > 10)
      invariant b.reports == old(b.reports) + Overflow(k, SlebOverflow)
      invariant b.reportedUnderflow == old(b.reportedUnderflow)
      decreases b.left
    {
      ReadingHolds(b, s, k, val, shift);
      ghost var word := val;
      var at := b.pos;
      var ok := b.Advance(1);
      if !ok {
        return 0;
      }
      c := b.data[at];
      assert c == s[k] && b.Rest() == s[k + 1..];
      if shift < 64 {
        val := (val + c % 128 * Pow(shift)) % WORD;
      } else if !overflow {
        b.Report(SlebOverflow);
        overflow := true;
      }
      ReadingStep(b, s, k, word, val);
      shift := shift + 7;
      k := k + 1;
    }
    ReadingEnds(b, s, k, val, shift);
    SignStep(s[..k]);
    if c % 128 >= 64 && shift < 64 {
      val := val + WORD - Pow(shift);
    }
    ret := ToInt64(val);
  }

  /** The unsigned encoding has the groups of the number, and at most `n` of them if it fits in `n`. */
  lemma {:induction false} EncodedUleb(v: nat, n: nat)
    requires n > 0 && v < Pow(7 * n)
    ensures var e := EncodeUleb(v); Ends(e, |e|) && Groups(e) == v && |e| <= n
  {
    if v >= 128 {
      var m: nat := n - 1;
      PowTable();
      assert n > 1;
      PowSeven(7 * m);
      EncodedUleb(v / 128, m);
      var e := EncodeUleb(v / 128);
      assert EncodeUleb(v)[1..] == e;
    } else {
      assert EncodeUleb(v)[1..] == [];
    }
  }

  lemma Div128(v: int, p: int)
    requires 0 <= v + 128 * p && v < 128 * p
    ensures 0 <= v / 128 + p && v / 128 < p
  {
  }

  /** The signed encoding, likewise. */
  lemma {:induction false} EncodedSleb(v: int, n: nat)
    requires n > 0 && 0 <= v + Pow(7 * n - 1) && v < Pow(7 * n - 1)
    ensures var e := EncodeSleb(v); Ends(e, |e|) && Signed(e) == v && |e| <= n
    decreases n
  {
    hide Pow, Signed, Ends;
    if -64 <= v < 64 {
      OneGroup(v);
    } else {
      var m: nat := n - 1;
      PowTable();
      assert n > 1;
      PowSeven(7 * m - 1);
      Div128(v, Pow(7 * m - 1));
      EncodedSleb(v / 128, m);
      OneGroupMore(v, EncodeSleb(v / 128));
    }
  }

  lemma OneGroup(v: int)
    requires -64 <= v < 64
    ensures Ends([v % 128], 1) && Signed([v % 128]) == v
  {
    assert v % 128 == if v < 0 then v + 128 else v;
  }

  lemma OneGroupMore(v: int, e: seq<byte>)
    requires Ends(e, |e|) && Signed(e) == v / 128
    ensures var s := [v % 128 + 128] + e; Ends(s, |s|) && Signed(s) == v
  {
    var s := [v % 128 + 128] + e;
    assert s[1..] == e;
    assert (v % 128 + 128) % 128 == v % 128;
  }

  /** The examples of section 7.6 of DWARF 4. */
  lemma FigureExamples()
    ensures EncodeUleb(2) == [2] && EncodeUleb(127) == [127] && EncodeUleb(128) == [0x80, 1]
    ensures EncodeUleb(129) == [0x81, 1] && EncodeUleb(130) == [0x82, 1] && EncodeUleb(12857) == [0xb9, 0x64]
    ensures EncodeSleb(2) == [2] && EncodeSleb(-2) == [0x7e] && EncodeSleb(127) == [0xff, 0] && EncodeSleb(-127) == [0x81, 0x7f]
    ensures EncodeSleb(128) == [0x80, 1] && EncodeSleb(-128) == [0x80, 0x7f]
    ensures EncodeSleb(129) == [0x81, 1] && EncodeSleb(-129) == [0xff, 0x7e]
  {
  }

  lemma EndsInFront(e: seq<byte>, tail: seq<byte>)
    requires Ends(e, |e|)
    ensures Ends(e + tail, |e|) && (e + tail)[..|e|] == e && (e + tail)[|e|..] == tail
  {
  }

  /** Reading an encoded number gives the number back, takes exactly its encoding and reports nothing. */
  method ReadEncodedUleb(b: Buf, ghost v: nat, ghost tail: seq<byte>) returns (ret: nat)
    requires b.Valid() && v < WORD && b.Rest() == EncodeUleb(v) + tail
    modifies b
    ensures b.Valid() && ret == v && b.Rest() == tail
    ensures b.reports == old(b.reports) && b.reportedUnderflow == old(b.reportedUnderflow)
  {
    hide Groups, Pow;
    ghost var e := EncodeUleb(v);
    PowWord();
    PowMono(64, 70);
    EncodedUleb(v, 10);
    EndsInFront(e, tail);
    ret := ReadUleb(b);
  }

  method ReadEncodedSleb(b: Buf, ghost v: int, ghost tail: seq<byte>) returns (ret: int)
    requires b.Valid() && -HALF <= v < HALF && b.Rest() == EncodeSleb(v) + tail
    modifies b
    ensures b.Valid() && ret == v && b.Rest() == tail
    ensures b.reports == old(b.reports) && b.reportedUnderflow == old(b.reportedUnderflow)
  {
    hide Groups, Pow, Signed;
    ghost var e := EncodeSleb(v);
    PowWord();
    PowMono(63, 69);
    EncodedSleb(v, 10);
    EndsInFront(e, tail);
    ret := ReadSleb(b);
  }
}
