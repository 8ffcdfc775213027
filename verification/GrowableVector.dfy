/** Growing arrays whose finished parts stay in place while the rest of the block is used again. */
module GrowableVector {
  import opened Freelist
  import opened Mmap

  /** The number of bytes to allocate for `n` more: sixteen times as many, or twice what is needed. */
  function NewSize(size: nat, n: nat, pagesize: nat): nat
    requires pagesize > 0
  {
    if size == 0 then 16 * n
    else if size + n < pagesize then
      if 2 * (size + n) > pagesize then pagesize else 2 * (size + n)
    else RoundUp(2 * (size + n), pagesize)
  }

  lemma NewSizeIsEnough(size: nat, n: nat, pagesize: nat)
    requires pagesize > 0
    ensures size + n <= NewSize(size, n, pagesize)
  {
  }

  /** A first block holds sixteen such requests; later ones twice what is used, in whole pages from the first page on. */
  lemma NewSizeIs(size: nat, n: nat, pagesize: nat)
    requires pagesize > 0
    ensures size == 0 ==> NewSize(size, n, pagesize) == n + 15 * n
    ensures size > 0 && size + n < pagesize && 2 * (size + n) <= pagesize ==> NewSize(size, n, pagesize) == 2 * (size + n)
    ensures size > 0 && size + n < pagesize < 2 * (size + n) ==> NewSize(size, n, pagesize) == pagesize
    ensures size > 0 && size + n >= pagesize ==>
      NewSize(size, n, pagesize) % pagesize == 0 && 0 <= NewSize(size, n, pagesize) - 2 * (size + n) < pagesize
  {
    hide RoundUp;
  }

  /** The allocator has a block of the new size. */
  predicate CanGrow(p: Platform, list: seq<Block>, mapped: set<nat>, size: nat, n: nat, answers: Answers)
    requires PlatformOk(p)
  {
    CanAllocate(p, list, mapped, NewSize(size, n, p.pagesize), answers)
  }

  /** The words of a block of memory. */
  function WordsAt(w: Words, addr: nat, size: nat): (r: seq<nat>)
    ensures |r| == size / 8
  {
    seq(size / 8, i requires 0 <= i < size / 8 => w(addr + 8 * i))
  }

  /** Bytes that were the program's still are, with what it stored in them. */
  ghost predicate Kept(before: Words, after: Words, bytes: set<nat>, live: set<nat>) {
    bytes <= live && Untouched(before, after, bytes)
  }

  lemma KeptPart(a: Words, b: Words, live: set<nat>, part: set<nat>, later: set<nat>)
    requires Untouched(a, b, live) && live <= later
    ensures Kept(a, b, live - part, later)
  {
  }

  lemma Prefix(addr: nat, size: nat, more: nat)
    ensures Bytes(addr, size) <= Bytes(addr, size + more)
    ensures Bytes(addr + size, more) <= Bytes(addr, size + more)
    ensures Bytes(addr, size) !! Bytes(addr + size, more)
    ensures Bytes(addr, size) + Bytes(addr + size, more) == Bytes(addr, size + more)
  {
  }

  /** Copy `n` bytes, a multiple of 8, to a block that the program owns and that does not overlap. */
  method CopyWords(s: State, to: nat, from: nat, n: nat)
    requires s.Valid() && n % 8 == 0
    requires Bytes(to, n) <= s.memory.live && Bytes(to, n) !! Bytes(from, n)
    modifies s`words
    ensures s.Valid()
    ensures WordsAt(s.words, to, n) == WordsAt(old(s.words), from, n)
    ensures Untouched(old(s.words), s.words, s.memory.live - Bytes(to, n))
  {
    hide Safe, Linked, Mapped, Bytes;
    var count: nat := n / 8;
    var k: nat := 0;
    while k < count
      invariant k <= count && s.Valid()
      invariant forall i :: 0 <= i < k ==> s.words(to + 8 * i) == old(s.words)(from + 8 * i)
      invariant forall x :: x !in Bytes(to, n) ==> s.words(x) == old(s.words)(x)
    {
      ElementByte(to, n, 0, k);
      ElementByte(from, n, 0, k);
      s.Write(to + 8 * k, s.words(from + 8 * k));
      k := k + 1;
    }
  }

  /** Copy what a block holds to a new block, and free it. */
  method CopyOver(s: State, base: nat, size: nat, all: nat, newBase: nat, newSize: nat, unmaps: bool, locked: bool,
                  ghost w0: Words, ghost live0: set<nat>)
    requires s.Valid() && size % 8 == 0 && base % 8 == 0 && size <= all && size <= newSize
    requires Moving(base, all, live0, newBase, newSize, s.memory.live) && Untouched(w0, s.words, live0)
    modifies s
    ensures s.Valid() && s.memory.live == old(s.memory.live) - Bytes(base, all)
    ensures Bytes(newBase, newSize) <= s.memory.live
    ensures WordsAt(s.words, newBase, size) == WordsAt(w0, base, size)
    ensures Kept(w0, s.words, live0 - Bytes(base, all), s.memory.live)
  {
    hide Safe, Linked, Mapped, Bytes, WordsAt, Untouched, Freed, Moving, Kept;
    ghost var live, w1 := s.memory.live, s.words;
    MovedBytes(base, size, all, live0, newBase, newSize, live);
    CopyWords(s, newBase, base, size);
    ghost var w2 := s.words;
    FreedSafe(s.platform, s.memory, base, all, unmaps, locked);
    s.Free(base, all, unmaps, locked);
    MovedWords(w0, w1, w2, s.words, base, size, all, live0, newBase, newSize, live);
  }

  /** One vector; `finished` collects the bytes of the parts that have been finished. */
  class Vector {
    var base: nat
    var size: nat
    var alc: nat
    ghost var finished: set<nat>

    ghost predicate Valid(s: State)
      reads this, s
    {
      && s.Valid()
      && size % 8 == 0 && base % 8 == 0
      && (base == 0 ==> size == 0 && alc == 0)
      && Bytes(base, size + alc) <= s.memory.live
      && finished <= s.memory.live
      && finished !! Bytes(base, size + alc)
    }

    ghost function Contents(s: State): seq<nat>
      reads this, s
    {
      WordsAt(s.words, base, size)
    }

    constructor (s: State)
      requires s.Valid()
      ensures Valid(s) && base == 0 && size == 0 && alc == 0 && finished == {}
    {
      base, size, alc, finished := 0, 0, 0, {};
    }

    /** Move to a block with room for `n` more bytes; 0 if there is none. */
    method Move(s: State, n: nat, answers: Answers, unmaps: bool, locked: bool) returns (moved: bool)
      requires Valid(s) && n > alc && n % 8 == 0
      modifies this, s
      ensures Valid(s) && size == old(size) && finished == old(finished)
      ensures moved <==> CanGrow(s.platform, old(s.memory.list), old(s.mapped), old(size), n, answers)
      ensures moved ==> base > 0 && n <= alc && size + alc == NewSize(old(size), n, s.platform.pagesize)
      ensures !moved ==> base == old(base) && alc == old(alc) && s.memory == old(s.memory)
      ensures Contents(s) == old(Contents(s))
      ensures Kept(old(s.words), s.words, old(s.memory.live) - Bytes(old(base), old(size + alc)), s.memory.live)
    {
      hide Safe, Linked, Mapped, RoundUp, Bytes, WordsAt, Untouched, NewSize, Allocated, HandedOut, Freed,
        CanAllocate, Chosen;
      ghost var m, w0 := s.memory, s.words;
      var newSize := NewSize(size, n, s.platform.pagesize);
      NewSizeIsEnough(size, n, s.platform.pagesize);
      AllocatedSafe(s.platform, m, newSize, answers);
      var newBase := s.Alloc(newSize, answers);
      assert newBase == 0 ==> Allocated(s.platform, m, newSize, answers).1.None?;
      assert newBase == 0 ==> s.memory == m;
      assert newBase > 0 ==> HandedOut(m, s.memory, newBase, newSize);
      AllocKeepsLive(s.platform, m, newSize, answers);
      ghost var live, w1 := s.memory.live, s.words;
      KeptPart(w0, w1, m.live, Bytes(base, size + alc), live);
      if newBase == 0 {
        Prefix(base, size, alc);
        SameWords(w0, w1, base, size, m.live);
        moved := false;
        return;
      }
      NewBlock(m, s.memory, newBase, newSize);
      if base != 0 {
        CopyOver(s, base, size, size + alc, newBase, newSize, unmaps, locked, w0, m.live);
      }
      base := newBase;
      alc := newSize - size;
      moved := true;
    }

    /** `backtrace_vector_grow`: the address of `n` new bytes, or 0 if there is no memory for them. */
    method Grow(s: State, n: nat, answers: Answers, unmaps: bool, locked: bool) returns (ret: nat)
      requires Valid(s) && n % 8 == 0
      modifies this, s
      ensures Valid(s) && finished == old(finished)
      ensures n <= old(alc) ==> ret == base + old(size) && base == old(base) && size + alc == old(size + alc)
      ensures n > old(alc) ==> (ret > 0 <==> CanGrow(s.platform, old(s.memory.list), old(s.mapped), old(size), n, answers))
      ensures n > old(alc) && ret > 0 ==> size + alc == NewSize(old(size), n, s.platform.pagesize)
      ensures ret == 0 && n > 0 ==> size == old(size) && base == old(base) && alc == old(alc)
      ensures ret == 0 || n <= old(alc) ==> s.memory == old(s.memory)
      ensures ret == 0 ==> Contents(s) == old(Contents(s))
      ensures ret > 0 || n <= old(alc) ==> size == old(size) + n && ret == base + old(size)
      ensures ret > 0 ==> Bytes(ret, n) <= s.memory.live && Contents(s)[..old(size) / 8] == old(Contents(s))
      ensures Kept(old(s.words), s.words, old(s.memory.live) - Bytes(old(base), old(size + alc)), s.memory.live)
    {
      hide Safe, Linked, Mapped, Bytes, NewSize, CanAllocate;
      if n > alc {
        var moved := Move(s, n, answers, unmaps, locked);
        if !moved {
          return 0;
        }
      }
      ret := base + size;
      Prefix(base, size, n);
      Prefix(base, size + n, alc - n);
      GrownContents(s.words, base, size, n);
      size := size + n;
      alc := alc - n;
    }

    /** `backtrace_vector_finish`: the vector goes on behind the part that is finished. */
    method Finish(s: State) returns (ret: nat)
      requires Valid(s)
      modifies this
      ensures Valid(s) && ret == old(base) && size == 0 && alc == old(alc)
      ensures finished == old(finished) + Bytes(ret, old(size))
      ensures WordsAt(s.words, ret, old(size)) == old(Contents(s))
    {
      hide Safe, Linked, Mapped, Bytes, WordsAt;
      Prefix(base, size, alc);
      ret := base;
      finished := finished + Bytes(base, size);
      base := base + size;
      size := 0;
    }

    /** `backtrace_vector_release`: give back the bytes that were allocated and not used. */
    method Release(s: State, unmaps: bool, locked: bool)
      requires Valid(s)
      modifies this, s
      ensures Valid(s) && base == old(base) && size == old(size) && alc == 0 && finished == old(finished)
      ensures Contents(s) == old(Contents(s))
      ensures s.memory.live == old(s.memory.live) - Bytes(base + size, old(alc))
      ensures Untouched(old(s.words), s.words, s.memory.live)
    {
      hide Safe, Linked, Mapped, Bytes, WordsAt, Untouched, Freed, RoundUp;
      ghost var w := s.words;
      var aligned := RoundUp(size, 8);
      RoundUpOfAligned(size);
      Prefix(base, size, alc);
      AlignedSum(base, size);
      FreedSafe(s.platform, s.memory, base + aligned, alc - (aligned - size), unmaps, locked);
      s.Free(base + aligned, alc - (aligned - size), unmaps, locked);
      alc := 0;
      SameWords(w, s.words, base, size, s.memory.live);
    }
  }

  lemma RoundUpOfAligned(size: nat)
    requires size % 8 == 0
    ensures RoundUp(size, 8) == size
  {
  }

  lemma GrownContents(w: Words, base: nat, size: nat, n: nat)
    requires size % 8 == 0
    ensures WordsAt(w, base, size + n)[..size / 8] == WordsAt(w, base, size)
  {
  }

  lemma SameWords(a: Words, b: Words, addr: nat, size: nat, live: set<nat>)
    requires Untouched(a, b, live) && Bytes(addr, size) <= live
    ensures WordsAt(a, addr, size) == WordsAt(b, addr, size)
  {
    forall i | 0 <= i < size / 8
      ensures a(addr + 8 * i) == b(addr + 8 * i)
    {
      assert Within(addr + 8 * i, addr, size);
    }
  }

  lemma AllocKeepsLive(p: Platform, m: Memory, size: nat, a: Answers)
    requires PlatformOk(p) && Safe(p, m)
    ensures m.live <= Allocated(p, m, size, a).0.live
  {
    AllocatedSafe(p, m, size, a);
    hide Safe, Allocated;
  }

  lemma NewBlock(before: Memory, after: Memory, addr: nat, size: nat)
    requires HandedOut(before, after, addr, size)
    ensures addr > 0 && addr % 8 == 0 && before.live <= after.live && Bytes(addr, size) <= after.live
    ensures Bytes(addr, size) !! before.live
  {
  }

  /** A vector's block, and a new block that no one had: the two do not overlap. */
  ghost predicate Moving(base: nat, all: nat, live0: set<nat>, newBase: nat, newSize: nat, live1: set<nat>) {
    && Bytes(base, all) <= live0 <= live1
    && Bytes(newBase, newSize) <= live1 && Bytes(newBase, newSize) !! live0
  }

  lemma MovedBytes(base: nat, size: nat, all: nat, live0: set<nat>, newBase: nat, newSize: nat, live1: set<nat>)
    requires Moving(base, all, live0, newBase, newSize, live1) && size <= all && size <= newSize
    ensures Bytes(newBase, size) <= live1 && Bytes(newBase, size) !! Bytes(base, size)
    ensures Bytes(base, all) <= live1
    ensures Bytes(newBase, newSize) <= live1 - Bytes(base, all)
  {
    assert Bytes(newBase, size) <= Bytes(newBase, newSize) && Bytes(base, size) <= Bytes(base, all);
  }

  lemma MovedWords(w0: Words, w1: Words, w2: Words, w3: Words, base: nat, size: nat, all: nat, live0: set<nat>,
                   newBase: nat, newSize: nat, live1: set<nat>)
    requires Moving(base, all, live0, newBase, newSize, live1) && size <= all && size <= newSize
    requires Untouched(w0, w1, live0) && Untouched(w1, w2, live1 - Bytes(newBase, size))
    requires Untouched(w2, w3, live1 - Bytes(base, all))
    requires WordsAt(w2, newBase, size) == WordsAt(w1, base, size)
    ensures WordsAt(w3, newBase, size) == WordsAt(w0, base, size)
    ensures Kept(w0, w3, live0 - Bytes(base, all), live1 - Bytes(base, all))
  {
    assert Bytes(newBase, size) <= Bytes(newBase, newSize) && Bytes(base, size) <= Bytes(base, all);
    SameWords(w0, w1, base, size, live0);
    SameWords(w2, w3, newBase, size, live1 - Bytes(base, all));
  }

  /** What a program does with a vector, and what the system answers. */
  datatype Use =
    | Growing(elements: nat, answers: Answers, unmaps: bool, locked: bool)
    | Storing(index: nat, value: nat)
    | Finishing
    | Releasing(unmaps: bool, locked: bool)

  /** Whatever is done to the vector, the parts finished before stay live and keep their words. */
  method Run(s: State, v: Vector, uses: seq<Use>)
    requires v.Valid(s)
    modifies s, v
    ensures v.Valid(s) && old(v.finished) <= v.finished
    ensures Kept(old(s.words), s.words, old(v.finished), s.memory.live)
  {
    hide Safe, Linked, Mapped, Bytes;
    for k := 0 to |uses|
      invariant v.Valid(s) && old(v.finished) <= v.finished
      invariant Untouched(old(s.words), s.words, old(v.finished))
    {
      match uses[k] {
        case Growing(elements, answers, unmaps, locked) =>
          var ret := v.Grow(s, 8 * elements, answers, unmaps, locked);
        case Storing(index, value) =>
          if index < v.size / 8 {
            ElementByte(v.base, v.size, v.alc, index);
            s.Write(v.base + 8 * index, value);
          }
        case Finishing =>
          var ret := v.Finish(s);
        case Releasing(unmaps, locked) =>
          v.Release(s, unmaps, locked);
      }
    }
  }

  lemma ElementByte(base: nat, size: nat, alc: nat, index: nat)
    requires index < size / 8
    ensures base + 8 * index in Bytes(base, size + alc)
  {
    assert Within(base + 8 * index, base, size + alc);
  }
}
