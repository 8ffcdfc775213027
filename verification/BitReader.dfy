/** The decoder's bit buffer over the compressed bytes. */
module BitReader {
  import opened Bits
  import opened Huffman
  import opened LongCodes

  class Reader {
    const input: seq<byte>  // the stream, and the three bytes the alignment loop may look at beyond it
    const pinend: nat       // where the stream ends
    const align: nat        // the address of the first byte, for the alignment loops
    var pin: nat
    var val: nat
    var bits: nat

    /** The buffered bits are the unread bits of the bytes before `pin`. */
    ghost predicate Buffered()
      reads this
    {
      && pinend + 3 <= |input| && pin <= pinend + 3
      && bits <= 46 && bits <= 8 * pin
      && val == BitsAt(input, 8 * pin - bits, bits)
    }

    /** The next word starts on a 32-bit boundary; past the end of the stream only a few bits are buffered. */
    ghost predicate OnWord()
      reads this
    {
      Aligned(align + pin) && (pin > pinend ==> 8 * pin - bits + 16 >= 8 * pinend)
    }

    /** What holds between the steps of the decoder, except inside a stored block. */
    ghost predicate Valid()
      reads this
    {
      Buffered() && OnWord()
    }

    /** The position of the next unread bit. */
    ghost function Pos(): nat
      reads this
      requires Buffered()
    {
      8 * pin - bits
    }

    /** The buffer needs a refill that the end of the stream does not allow. */
    ghost predicate Starved()
      reads this
    {
      Valid() && bits < 15 && pinend - pin < 4
    }

    constructor (input: seq<byte>, pinend: nat, align: nat, pin: nat)
      requires pin <= pinend && pinend + 3 <= |input|
      ensures this.input == input && this.pinend == pinend && this.align == align
      ensures Buffered() && this.pin == pin && Pos() == 8 * pin && bits == 0
    {
      this.input, this.pinend, this.align := input, pinend, align;
      this.pin, val, bits := pin, 0, 0;
    }

    /** elf_zlib_fetch: makes at least 15 bits available, or fails near the end of the stream. */
    method Fetch() returns (ok: bool)
      requires Valid()
      modifies this
      ensures Valid() && Pos() == old(Pos())
      ensures ok ==> bits >= 15
      ensures !ok ==> Starved() && old(Starved())
    {
      hide BitsAt, Word, Pow, Aligned;
      if bits >= 15 {
        return true;
      }
      if pinend - pin < 4 {
        return false;
      }
      WordBits(input, pin);
      NextWord(align + pin);
      val := ShiftIn(input, 8 * pin - bits, bits, 32, val, Word(input, pin));
      bits := bits + 32;
      pin := pin + 4;
      return true;
    }

    /** Takes the low `n` bits out of the buffer. */
    method Take(n: nat) returns (v: nat)
      requires Valid() && n <= bits
      modifies this
      ensures Valid() && Pos() == old(Pos()) + n && pin == old(pin) && bits == old(bits) - n
      ensures v == BitsAt(input, old(Pos()), n) < Pow(n)
    {
      hide BitsAt, Pow, Aligned;
      BitsAtSplit(input, Pos(), n, bits);
      v := val % Pow(n);
      val := val / Pow(n);
      bits := bits - n;
    }

    /** Reads one whole byte ahead. */
    method NextByte()
      requires Buffered() && pin < pinend + 3 && bits + 8 <= 46
      modifies this
      ensures Buffered() && Pos() == old(Pos()) && pin == old(pin) + 1 && bits == old(bits) + 8
    {
      ByteBits(input, pin);
      val := ShiftIn(input, 8 * pin - bits, bits, 8, val, input[pin]);
      bits := bits + 8;
      pin := pin + 1;
    }

    /** Reads whole bytes until the next byte's address is a multiple of 4. */
    method Align()
      requires Buffered() && bits == 0 && pin <= pinend
      modifies this
      ensures Valid() && Pos() == old(Pos()) && bits <= 24
    {
      ghost var n := ToAligned(align + pin);
      while !Aligned(align + pin)
        invariant Buffered() && Pos() == old(Pos())
        invariant bits == 8 * (pin - old(pin)) && old(pin) <= pin <= old(pin) + n
        decreases old(pin) + 3 - pin
      {
        AlignedAfter(align + old(pin), pin - old(pin));
        NextByte();
      }
    }

    /** Gives back read-ahead bytes so that `pin` is where a stored block's length should be. */
    method BackUp()
      requires Buffered() && 1 <= bits
      modifies this
      ensures Buffered() && bits == 0
      ensures Pos() == old(StoredLengthAt(Pos()))
    {
      ghost var p := Pos();
      while bits > 8
        invariant 1 <= bits <= 46 && bits <= 8 * pin && 8 * pin - bits == p && pin <= old(pin)
      {
        pin := pin - 1;
        bits := bits - 8;
      }
      WholeBytesBack(p, pin, bits);
      val := 0;
      bits := 0;
    }

    /** Moves past whole bytes when nothing is buffered. */
    method Skip(n: nat)
      requires Buffered() && bits == 0 && pin + n <= pinend
      modifies this
      ensures Buffered() && bits == 0 && pin == old(pin) + n && Pos() == old(Pos()) + 8 * n
    {
      pin := pin + n;
    }

    /** Decodes one symbol with a two-level table. */
    method Symbol(table: array<u16>) returns (sym: nat)
      requires Valid() && bits >= 15 && table.Length == 1024
      modifies this
      ensures Valid() && bits >= old(bits) - 15
      ensures (sym, Pos() - old(Pos())) == Lookup(table[..], old(val))
      ensures old(Pos()) < Pos() && sym < 512 && pin == old(pin)
    {
      var t := table[val % 256];
      var b := SecondaryBits(t);
      if !Flagged(t) {
        sym := t % 512;
        var _ := Take(b + 1);
      } else {
        t := table[SecondaryIndex(t, val)];
        b := SecondaryBits(t);
        sym := t % 512;
        var _ := Take(b + 8);
      }
    }
  }

  /** An address on a 32-bit boundary. */
  predicate Aligned(address: nat) {
    if address < 4 then address == 0 else Aligned(address - 4)
  }

  lemma NextWord(address: nat)
    requires Aligned(address)
    ensures Aligned(address + 4)
  {
  }

  /** How many bytes there are to the next 32-bit boundary. */
  ghost function ToAligned(address: nat): (n: nat)
    ensures n <= 3
  {
    if address < 4 then (if address == 0 then 0 else 4 - address) else ToAligned(address - 4)
  }

  lemma {:induction false} AlignedAfter(address: nat, i: nat)
    requires i <= ToAligned(address)
    ensures Aligned(address + i) <==> i == ToAligned(address)
  {
    if address >= 4 {
      AlignedAfter(address - 4, i);
    }
  }

  lemma {:induction false} ToAlignedIs(address: nat)
    ensures ToAligned(address) == (3 - (address + 3) % 4)
  {
    if address >= 4 {
      ToAlignedIs(address - 4);
    }
  }

  /** Two addresses on 32-bit boundaries are at least a word apart. */
  lemma {:induction false} AlignedGap(a: nat, b: nat)
    requires Aligned(a) && Aligned(b) && a < b
    ensures a + 4 <= b
    decreases b
  {
    if a >= 4 {
      AlignedGap(a - 4, b - 4);
    }
  }

  /**
   * Where the words end that the decoder has read when 15 bits are buffered at bit `q`: the first
   * word boundary with 15 bits between `q` and itself.
   */
  ghost function WordEnd(align: nat, q: nat): nat {
    var a := (q + 22) / 8;
    a + ToAligned(align + a)
  }

  lemma WordEndIs(align: nat, q: nat)
    ensures WordEnd(align, q) == (q + 22) / 8 + 3 - (align + (q + 22) / 8 + 3) % 4
  {
    ToAlignedIs(align + (q + 22) / 8);
  }

  lemma WordEndAligned(align: nat, q: nat)
    ensures Aligned(align + WordEnd(align, q)) && 8 * WordEnd(align, q) >= q + 15
  {
    var a := (q + 22) / 8;
    AlignedAfter(align + a, ToAligned(align + a));
    assert align + a + ToAligned(align + a) == align + WordEnd(align, q);
  }

  lemma WordEndLeast(align: nat, q: nat, pin: nat)
    requires Aligned(align + pin)
    ensures 8 * pin >= q + 15 <==> WordEnd(align, q) <= pin
  {
    hide Aligned, ToAligned;
    WordEndAligned(align, q);
    var a := (q + 22) / 8;
    var n := ToAligned(align + a);
    var i := if a <= pin < a + n then pin - a else n;
    AlignedAfter(align + a, i);
    assert a <= pin < a + n ==> align + a + i == align + pin;
  }

  lemma WordEndMono(align: nat, q: nat, q': nat)
    requires q <= q'
    ensures WordEnd(align, q) <= WordEnd(align, q')
  {
    hide Aligned, WordEnd;
    WordEndAligned(align, q');
    WordEndLeast(align, q, WordEnd(align, q'));
  }

  /** A refill is only refused when it would need bytes beyond the end of the stream. */
  lemma StarvedPastEnd(r: Reader)
    requires r.Starved()
    ensures r.pinend < WordEnd(r.align, r.Pos())
  {
    hide Aligned, WordEnd, BitsAt;
    WordEndAligned(r.align, r.Pos());
    WordEndLeast(r.align, r.Pos(), r.pin);
    AlignedGap(r.align + r.pin, r.align + WordEnd(r.align, r.Pos()));
  }

  /** Where the decoder looks for the length of a stored block whose header ends at bit `p`. */
  ghost function StoredLengthAt(p: nat): nat {
    8 * (p / 8 + 1)
  }

  /** Where section 3.2.4 of RFC 1951 puts it: on the next byte boundary. */
  ghost function NextByteBoundary(p: nat): nat {
    (p + 7) / 8 * 8
  }

  /** The decoder looks in the right place unless the header ends on a byte boundary. */
  lemma StoredLengthPlace(p: nat)
    ensures StoredLengthAt(p) == NextByteBoundary(p) <==> p % 8 != 0
  {
  }

  /** `val | (w << k)`: puts `n` more bits above the `k` bits in the buffer. */
  method ShiftIn(ghost s: seq<byte>, ghost p: nat, k: nat, ghost n: nat, val: nat, w: nat) returns (v: nat)
    requires p + k + n <= 8 * |s| && val == BitsAt(s, p, k) && w == BitsAt(s, p + k, n)
    ensures v == BitsAt(s, p, k + n) < Pow(k + n)
  {
    AppendBits(s, p, k, n);
    v := val + w * Pow(k);
  }

  lemma WholeBytesBack(p: nat, pin: nat, bits: nat)
    requires 8 * pin - bits == p && 1 <= bits <= 8
    ensures 8 * pin == StoredLengthAt(p)
  {
  }

  lemma AppendBits(s: seq<byte>, p: nat, k: nat, n: nat)
    requires p + k + n <= 8 * |s|
    ensures BitsAt(s, p, k + n) == BitsAt(s, p, k) + BitsAt(s, p + k, n) * Pow(k)
  {
    BitsAtSplit(s, p, k, k + n);
  }

  /** A 32-bit little-endian load. */
  function Word(s: seq<byte>, i: nat): nat
    requires i + 4 <= |s|
  {
    var b0: nat, b1: nat, b2: nat, b3: nat := s[i], s[i + 1], s[i + 2], s[i + 3];
    b0 + b1 * 0x100 + b2 * 0x1_0000 + b3 * 0x100_0000
  }

  /** Four bytes in little-endian order are 32 bits of the stream. */
  lemma WordBits(s: seq<byte>, i: nat)
    requires i + 4 <= |s|
    ensures BitsAt(s, 8 * i, 32) == Word(s, i)
  {
    ByteBits(s, i);
    ByteBits(s, i + 1);
    ByteBits(s, i + 2);
    ByteBits(s, i + 3);
    AppendBits(s, 8 * i, 8, 8);
    AppendBits(s, 8 * i, 16, 8);
    AppendBits(s, 8 * i, 24, 8);
    assert Pow(8) == 0x100 && Pow(16) == 0x1_0000 && Pow(24) == 0x100_0000;
  }
}
