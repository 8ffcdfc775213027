/** The allocator over anonymous pages: the free list is linked through the free blocks themselves. */
module Mmap {
  import opened Freelist
  import opened Wrappers

  /** Memory, as the 8-byte word at each address. */
  type Words = nat -> nat

  function Store(w: Words, addr: nat, v: nat): Words {
    x => if x == addr then v else w(x)
  }

  /** Where the pointer to entry `i` is kept: the head, or the `next` field that starts the block before. */
  function Link(head: nat, list: seq<Block>, i: nat): nat
    requires i <= |list|
  {
    if i == 0 then head else list[i - 1].addr
  }

  function Target(list: seq<Block>, i: nat): nat
    requires i <= |list|
  {
    if i < |list| then list[i].addr else 0
  }

  /** The words at the head and in the blocks spell the list; `size` is the second word of a block. */
  ghost predicate Linked(w: Words, head: nat, list: seq<Block>) {
    && (forall i :: 0 <= i <= |list| ==> w(Link(head, list, i)) == Target(list, i))
    && (forall i :: 0 <= i < |list| ==> w(list[i].addr + 8) == list[i].size)
  }

  /** No word of the list is shared between two blocks or with the head. */
  ghost predicate WordsApart(head: nat, list: seq<Block>) {
    && (forall i :: 0 <= i < |list| ==> list[i].addr != head && list[i].addr + 8 != head && list[i].addr > 0)
    && (forall i, j :: 0 <= i < j < |list| ==> list[i].addr != list[j].addr && list[i].addr + 8 != list[j].addr + 8)
    && (forall i, j :: 0 <= i < |list| && 0 <= j < |list| ==> list[i].addr != list[j].addr + 8)
  }

  lemma HeaderBytes(list: seq<Block>, i: nat)
    requires i < |list| && Usable(list[i])
    ensures list[i].addr in FreeBytes(list) && list[i].addr + 8 in FreeBytes(list)
    ensures list[i].addr in BlockBytes(list[i]) && list[i].addr + 8 in BlockBytes(list[i])
  {
    var b := list[i];
    BlockIsFree(list, i);
    assert Within(b.addr, b.addr, b.size) && Within(b.addr + 8, b.addr, b.size);
  }

  lemma SafeWordsApart(p: Platform, m: Memory)
    requires Safe(p, m)
    ensures WordsApart(p.head, m.list)
  {
    hide FreeBytes, BlockBytes;
    forall i | 0 <= i < |m.list|
      ensures m.list[i].addr != p.head && m.list[i].addr + 8 != p.head && m.list[i].addr > 0
    {
      assert m.list[i] in m.list;
      HeaderBytes(m.list, i);
    }
    forall i, j | 0 <= i < |m.list| && 0 <= j < |m.list|
      ensures m.list[i].addr != m.list[j].addr + 8
      ensures i != j ==> m.list[i].addr != m.list[j].addr
    {
      if i != j {
        HeadersApart(m.list, i, j);
      }
    }
  }

  lemma HeadersApart(list: seq<Block>, i: nat, j: nat)
    requires i < |list| && j < |list| && i != j && Apart(list) && (forall b :: b in list ==> Usable(b))
    ensures list[i].addr != list[j].addr && list[i].addr != list[j].addr + 8
  {
    hide FreeBytes, BlockBytes;
    assert list[i] in list && list[j] in list;
    HeaderBytes(list, i);
    HeaderBytes(list, j);
    assert BlockBytes(list[if i < j then i else j]) !! BlockBytes(list[if i < j then j else i]);
  }

  /** Where an entry of the shorter list was. */
  function Was(i: nat, k: nat): nat {
    if k < i then k else k + 1
  }

  lemma WithoutAt(list: seq<Block>, i: nat, k: nat)
    requires i < |list| && k < |list|
    ensures k < |list| - 1 ==> Without(list, i)[k] == list[Was(i, k)]
    ensures k > 0 ==> Without(list, i)[k - 1] == list[Was(i, k - 1)]
  {
  }

  /** Where the pointers of the shorter list are, and what they point to. */
  lemma RestLinks(head: nat, list: seq<Block>, i: nat, k: nat)
    requires i < |list| && k < |list|
    ensures Link(head, Without(list, i), k) == Link(head, list, if k <= i then k else k + 1)
    ensures Target(Without(list, i), k) == Target(list, if k < i then k else k + 1)
  {
    hide Without;
    WithoutAt(list, i, k);
  }

  /** The pointer to an entry is no word of another pointer or of a block's size. */
  lemma LinkApart(head: nat, list: seq<Block>, i: nat, j: nat)
    requires WordsApart(head, list) && i < |list| && j <= |list|
    ensures j != i ==> Link(head, list, j) != Link(head, list, i)
    ensures j < |list| ==> list[j].addr + 8 != Link(head, list, i)
  {
  }

  lemma UnlinkedAt(w: Words, head: nat, list: seq<Block>, i: nat, k: nat)
    requires Linked(w, head, list) && WordsApart(head, list) && i < |list| && k < |list|
    ensures var w' := Store(w, Link(head, list, i), w(list[i].addr));
            var rest := Without(list, i);
            && w'(Link(head, rest, k)) == Target(rest, k)
            && (k < |rest| ==> w'(rest[k].addr + 8) == rest[k].size)
  {
    hide Without, WordsApart, Target;
    RestLinks(head, list, i, k);
    WithoutAt(list, i, k);
    LinkApart(head, list, i, if k <= i then k else k + 1);
    assert w(list[i].addr) == w(Link(head, list, i + 1)) == Target(list, i + 1);
    if k < |list| - 1 {
      LinkApart(head, list, i, Was(i, k));
      assert w(list[Was(i, k)].addr + 8) == list[Was(i, k)].size;
    }
  }

  /** Storing an entry's `next` over the pointer to it takes it out of the list. */
  lemma Unlinked(w: Words, head: nat, list: seq<Block>, i: nat)
    requires Linked(w, head, list) && WordsApart(head, list) && i < |list|
    ensures Linked(Store(w, Link(head, list, i), w(list[i].addr)), head, Without(list, i))
  {
    hide WordsApart, Without, Target, Link, Store;
    var rest := Without(list, i);
    var w' := Store(w, Link(head, list, i), w(list[i].addr));
    forall k | 0 <= k < |list|
      ensures w'(Link(head, rest, k)) == Target(rest, k)
      ensures k < |rest| ==> w'(rest[k].addr + 8) == rest[k].size
    {
      UnlinkedAt(w, head, list, i, k);
    }
  }

  /** Writing a header that points at the first entry, and the head, puts a block in front. */
  lemma Pushed(w: Words, head: nat, list: seq<Block>, b: Block)
    requires Linked(w, head, list) && WordsApart(head, [b] + list)
    ensures Linked(Store(Store(Store(w, b.addr, w(head)), b.addr + 8, b.size), head, b.addr), head, [b] + list)
  {
    var longer := [b] + list;
    var w' := Store(Store(Store(w, b.addr, w(head)), b.addr + 8, b.size), head, b.addr);
    assert longer[0] == b;
    assert forall k :: 0 < k < |longer| ==> longer[k] == list[k - 1];
    forall k | 0 <= k <= |longer|
      ensures w'(Link(head, longer, k)) == Target(longer, k)
    {
      if k > 0 {
        var j: nat := k - 1;
        assert w(Link(head, list, j)) == Target(list, j) == Target(longer, k);
        if k > 1 {
          assert longer[k - 1] == list[j - 1];
        }
      }
    }
    forall k | 0 <= k < |longer|
      ensures w'(longer[k].addr + 8) == longer[k].size
    {
      if k > 0 {
        assert w(list[k - 1].addr + 8) == list[k - 1].size;
      }
    }
  }

  /** The two words agree with the old ones wherever a program's own data is. */
  ghost predicate Untouched(before: Words, after: Words, live: set<nat>) {
    forall x :: x in live ==> after(x) == before(x)
  }

  lemma LastBytesLive(m: Memory, page: nat, n: nat, ask: nat)
    ensures n < ask ==> Bytes(page + n, ask - n) <= Taken(m, page, ask).live
  {
  }

  lemma HandedOutKeeps(before: Memory, after: Memory, addr: nat, size: nat)
    requires HandedOut(before, after, addr, size)
    ensures before.live <= after.live
  {
  }

  lemma UntouchedThrough(a: Words, b: Words, c: Words, live: set<nat>, more: set<nat>)
    requires (a == b || Untouched(a, b, live)) && (b == c || Untouched(b, c, more)) && live <= more
    ensures Untouched(a, c, live)
  {
  }

  lemma LinkStart(head: nat, list: seq<Block>)
    ensures Link(head, list, 0) == head
  {
  }

  /** What the words at an entry say. */
  lemma LinkAt(p: Platform, m: Memory, w: Words, i: nat)
    requires Safe(p, m) && Linked(w, p.head, m.list) && i <= |m.list|
    ensures i < |m.list| ==>
      && w(Link(p.head, m.list, i)) == m.list[i].addr > 0 && w(m.list[i].addr + 8) == m.list[i].size
      && Link(p.head, m.list, i + 1) == m.list[i].addr
    ensures i == |m.list| ==> w(Link(p.head, m.list, i)) == 0
  {
    hide Safe;
    SafeWordsApart(p, m);
  }

  /** What a caller of the allocator shares: the words, the system's record of pages, and the list. */
  class State {
    const platform: Platform
    var words: Words
    var mapped: set<nat>
    ghost var memory: Memory

    ghost predicate Valid()
      reads this
    {
      && PlatformOk(platform)
      && Safe(platform, memory)
      && Linked(words, platform.head, memory.list)
      && mapped == Mapped(memory)
    }

    constructor (platform: Platform)
      requires PlatformOk(platform)
      ensures Valid() && this.platform == platform && memory == Memory([], {}, {}, {})
    {
      this.platform := platform;
      words := x => 0;
      mapped := {};
      memory := Memory([], {}, {}, {});
    }

    /** The pointer at `pp` is to the first of the smallest blocks. */
    ghost predicate SmallestAt(pp: nat)
      requires memory.list != []
      reads this
    {
      var b := memory.list[Smallest(memory.list)];
      pp == Link(platform.head, memory.list, Smallest(memory.list)) && words(pp) == b.addr && words(b.addr + 8) == b.size
    }

    /** Walk the list by the addresses of its pointers, counting, for the pointer to the smallest block. */
    method FindSmallest() returns (c: nat, ppsmall: Option<nat>)
      requires Valid()
      ensures c == |memory.list|
      ensures c == 0 <==> ppsmall.None?
      ensures c > 0 ==> SmallestAt(ppsmall.value)
    {
      hide Safe, Linked, IsSmallest, Smallest, Link, Mapped;
      ghost var list := memory.list;
      c := 0;
      ppsmall := None;
      var pp := platform.head;
      ghost var s: nat := 0;
      LinkStart(platform.head, list);
      while words(pp) != 0
        invariant s <= c <= |list| && pp == Link(platform.head, list, c)
        invariant c == 0 <==> ppsmall.None?
        invariant c > 0 ==> s < c && IsSmallest(list[..c], s) && ppsmall == Some(Link(platform.head, list, s))
        decreases |list| - c
      {
        LinkAt(platform, memory, words, c);
        LinkAt(platform, memory, words, s);
        SmallestStep(list, c, s);
        if ppsmall.None? || words(words(pp) + 8) < words(words(ppsmall.value) + 8) {
          ppsmall := Some(pp);
          s := c;
        }
        pp := words(pp);
        c := c + 1;
      }
      LinkAt(platform, memory, words, c);
      assert list[..c] == list;
      if c > 0 {
        SmallestUnique(list, s, Smallest(list));
        LinkAt(platform, memory, words, s);
      }
    }

    /** Unlink the smallest block, which is then lost. */
    method Drop(ppsmall: nat)
      requires Valid() && memory.list != [] && SmallestAt(ppsmall)
      modifies `words, `memory
      ensures Valid() && memory == Dropped(old(memory))
      ensures Untouched(old(words), words, memory.live)
    {
      SafeWordsApart(platform, memory);
      SafeListNotLive(platform, memory);
      DroppedSafe(platform, memory);
      hide Safe, Smallest, Mapped, Linked, WordsApart;
      Unlinked(words, platform.head, memory.list, Smallest(memory.list));
      words := Store(words, ppsmall, words(words(ppsmall)));
      memory := Dropped(memory);
    }

    /** Write a block's header and make it the first of the list. */
    method Push(addr: nat, size: nat)
      requires Valid() && |memory.list| < MAX_ENTRIES
      requires addr % 8 == 0 && size >= HEADER && Bytes(addr, size) <= memory.live
      modifies `words, `memory
      ensures Valid() && memory == Put(old(memory), addr, size)
      ensures Untouched(old(words), words, memory.live)
    {
      hide Safe, Mapped, Linked, WordsApart, ListNotLive, Bytes;
      ghost var list := memory.list;
      PutSafe(platform, memory, addr, size);
      SafeWordsApart(platform, Put(memory, addr, size));
      SafeListNotLive(platform, Put(memory, addr, size));
      memory := Put(memory, addr, size);
      FirstNotLive(platform.head, memory);
      Pushed(words, platform.head, list, Block(addr, size));
      words := Store(words, addr, words(platform.head));
      words := Store(words, addr + 8, size);
      words := Store(words, platform.head, addr);
    }

    /** `backtrace_free_locked`: push the block, dropping the smallest of a full list. */
    method FreeLocked(addr: nat, size: nat)
      requires Valid() && addr % 8 == 0 && Bytes(addr, size) <= memory.live
      modifies `words, `memory
      ensures Valid() && memory == FreedLocked(old(memory), addr, size)
      ensures Untouched(old(words), words, memory.live)
    {
      FreedLockedSafe(platform, memory, addr, size);
      hide Safe, Mapped, Linked, Bytes, Smallest;
      if size >= HEADER {
        var c, ppsmall := FindSmallest();
        if c >= 16 {
          if size <= words(words(ppsmall.value) + 8) {
            memory := Leaked(memory, addr, size);
            return;
          }
          Drop(ppsmall.value);
        }
        Push(addr, size);
      } else {
        memory := Leaked(memory, addr, size);
      }
    }

    /** `backtrace_free`, with what the system answers to `munmap` and to the attempt to lock. */
    method Free(addr: nat, size: nat, unmaps: bool, locked: bool)
      requires Valid() && addr % 8 == 0 && Bytes(addr, size) <= memory.live
      modifies this
      ensures Valid() && memory == Freed(platform, old(memory), addr, size, unmaps, locked)
      ensures Untouched(old(words), words, memory.live)
    {
      FreedSafe(platform, memory, addr, size, unmaps, locked);
      hide Safe, Mapped, Linked, Bytes;
      if size >= 16 * 4096 {
        if addr % platform.pagesize == 0 && size % platform.pagesize == 0 {
          if unmaps {
            memory := Freed(platform, memory, addr, size, unmaps, locked);
            mapped := mapped - Bytes(addr, size);
            return;
          }
        }
      }
      if locked {
        FreeLocked(addr, size);
      } else {
        memory := Leaked(memory, addr, size);
      }
    }

    /** Walk the list for the pointer to the first block that is large enough, or to the end. */
    method FindFit(size: nat) returns (pp: nat, ghost i: nat)
      requires Valid()
      ensures i == FirstFit(memory.list, size) && pp == Link(platform.head, memory.list, i)
      ensures words(pp) == Target(memory.list, i)
      ensures i < |memory.list| <==> words(pp) != 0
      ensures i < |memory.list| ==> words(words(pp) + 8) == memory.list[i].size
    {
      ghost var list := memory.list;
      SafeWordsApart(platform, memory);
      assert forall k :: 0 <= k < |list| ==> Target(list, k) > 0;
      hide Safe, WordsApart;
      pp := platform.head;
      i := 0;
      while words(pp) != 0 && words(words(pp) + 8) < size
        invariant i <= |list| && pp == Link(platform.head, list, i)
        invariant forall k :: 0 <= k < i ==> list[k].size < size
        decreases |list| - i
      {
        assert words(pp) == Target(list, i);
        assert words(words(pp) + 8) == list[i].size;
        pp := words(pp);
        i := i + 1;
      }
      assert words(pp) == Target(list, i);
      assert i < |list| ==> words(words(pp) + 8) == list[i].size;
      FirstFitUnique(list, size, i, FirstFit(list, size));
    }

    /** Take the entry at `pp` out of the list and hand it out. */
    method Unlink(pp: nat, ghost i: nat)
      requires Valid() && i < |memory.list| && pp == Link(platform.head, memory.list, i)
      requires words(pp) == memory.list[i].addr
      modifies `words, `memory
      ensures Valid() && memory == Removed(old(memory), i)
      ensures Untouched(old(words), words, old(memory.live))
      ensures words(old(memory.list)[i].addr + 8) == old(words)(old(memory.list)[i].addr + 8)
    {
      SafeWordsApart(platform, memory);
      SafeListNotLive(platform, memory);
      RemovedSafe(platform, memory, i);
      assert pp != memory.list[i].addr + 8;
      hide Safe, Mapped, Linked, WordsApart;
      Unlinked(words, platform.head, memory.list, i);
      words := Store(words, pp, words(words(pp)));
      memory := Removed(memory, i);
    }

    /** Take the entry at `pp`, and free what is left of it after `size` bytes, rounded up. */
    method Split(pp: nat, ghost i: nat, size: nat)
      requires Valid() && i < |memory.list| && pp == Link(platform.head, memory.list, i)
      requires words(pp) == memory.list[i].addr && words(words(pp) + 8) == memory.list[i].size
      modifies `words, `memory
      ensures Valid() && memory == AllocatedFromList(old(memory), i, size)
      ensures Untouched(old(words), words, old(memory.live))
    {
      hide Safe, Mapped, EverMapped, FreeBytes, Linked, Bytes, BlockBytes, RoundUp, FreedLocked, Without, Untouched;
      ghost var m := memory;
      var n := RoundUp(size, 8);
      var p := words(pp);
      RemovedSafe(platform, m, i);
      RestIsLive(platform, m, i, n);
      Unlink(pp, i);
      if n < words(p + 8) {
        AlignedSum(p, n);
        ghost var w := words;
        FreeLocked(p + n, words(p + 8) - n);
        UntouchedThrough(old(words), w, words, m.live, memory.live);
      }
    }

    /** Take the first block of the list that is large enough. */
    method AllocFromList(size: nat) returns (ret: nat)
      requires Valid()
      modifies `words, `memory
      ensures Valid()
      ensures var i := FirstFit(old(memory.list), size);
              if i < |old(memory.list)| then
                memory == AllocatedFromList(old(memory), i, size) && ret == old(memory.list)[i].addr && ret > 0
              else memory == old(memory) && ret == 0
      ensures Untouched(old(words), words, old(memory.live))
    {
      hide Safe, Mapped, Linked, FirstFit, AllocatedFromList;
      var pp, i := FindFit(size);
      ret := words(pp);
      if ret != 0 {
        Split(pp, i, size);
      }
    }

    /** Map whole pages for `size` bytes, and free what is left of the last one. */
    method AllocPages(size: nat, answers: Answers)
      requires Valid() && answers.page.Some?
      requires Grants(platform, mapped, answers.page, RoundUp(size, platform.pagesize))
      modifies this
      ensures Valid() && memory == AllocatedPage(platform, old(memory), size, answers.page.value, answers)
      ensures Untouched(old(words), words, old(memory.live))
    {
      hide Safe, Mapped, Linked, RoundUp, FreeBytes, Freed, Grants, EverMapped, Bytes, HandedOut, Untouched;
      ghost var m := memory;
      var page := answers.page.value;
      var ask := RoundUp(size, platform.pagesize);
      assert answers.page == Some(page);
      TakenSafe(platform, m, page, ask);
      AllocatedPageSafe(platform, m, size, page, answers);
      LastBytesLive(m, page, RoundUp(size, 8), ask);
      mapped := mapped + Bytes(page, ask);
      memory := Taken(memory, page, ask);
      var n := RoundUp(size, 8);
      if n < ask {
        AlignedSum(page, n);
        Free(page + n, ask - n, answers.unmaps, answers.lockedToFree);
      }
      HandedOutKeeps(m, memory, page, size);
      UntouchedThrough(old(words), old(words), words, m.live, memory.live);
    }

    /** `backtrace_alloc`: from the list if the lock is free, else whole new pages; 0 if there are none. */
    method Alloc(size: nat, answers: Answers) returns (ret: nat)
      requires Valid()
      modifies this
      ensures Valid()
      ensures var (m, addr) := Allocated(platform, old(memory), size, answers);
              memory == m && ret == if addr.Some? then addr.value else 0
      ensures ret != 0 <==> CanAllocate(platform, old(memory.list), old(mapped), size, answers)
      ensures forall k: nat :: Chosen(old(memory.list), size, answers, k) ==>
        ret == old(memory.list)[k].addr && mapped == old(mapped)
      ensures ret != 0 && (forall k: nat :: !Chosen(old(memory.list), size, answers, k)) ==>
        answers.page == Some(ret) && mapped == old(mapped) + Bytes(ret, RoundUp(size, platform.pagesize))
      ensures Untouched(old(words), words, old(memory.live))
    {
      hide Safe, Mapped, Linked, FirstFit, RoundUp, AllocatedFromList, AllocatedPage, CanAllocate, Chosen, Bytes, HandedOut;
      AllocatedIff(platform, memory, size, answers);
      AllocatedSafe(platform, memory, size, answers);
      ret := 0;
      if answers.locked {
        ret := AllocFromList(size);
      }
      if ret == 0 {
        if Grants(platform, mapped, answers.page, RoundUp(size, platform.pagesize)) {
          AllocPages(size, answers);
          ret := answers.page.value;
        }
      }
    }

    /** A program writes a word of its own. */
    method Write(addr: nat, v: nat)
      requires Valid() && addr in memory.live
      modifies `words
      ensures Valid() && words(addr) == v
      ensures forall x :: x != addr ==> words(x) == old(words)(x)
    {
      hide Safe, Linked, Mapped;
      StoreKeepsList(platform, memory, words, addr, v);
      words := Store(words, addr, v);
    }
  }

  /** Makes the calls one after the other; the memory is then that of the run, and all it keeps holds of the words. */
  method RunCalls(s: State, calls: seq<Call>)
    requires s.Valid() && AllAllowed(s.platform, s.memory, calls)
    modifies s
    ensures s.Valid() && s.memory == Run(s.platform, old(s.memory), calls)
  {
    hide Safe, Linked, Mapped, Bytes, Allocated, Freed, CanAllocate, Chosen;
    assert calls[0..] == calls;
    for k := 0 to |calls|
      invariant s.Valid() && AllAllowed(s.platform, s.memory, calls[k..])
      invariant Run(s.platform, s.memory, calls[k..]) == Run(s.platform, old(s.memory), calls)
    {
      assert calls[k..] != [] && calls[k..][0] == calls[k] && calls[k..][1..] == calls[k + 1..];
      match calls[k] {
        case Alloc(size, answers) =>
          var ret := s.Alloc(size, answers);
        case Free(addr, size, unmaps, locked) =>
          s.Free(addr, size, unmaps, locked);
      }
    }
  }

  /** A store to a word the program owns leaves the list as it is. */
  lemma StoreKeepsList(p: Platform, m: Memory, w: Words, addr: nat, v: nat)
    requires Safe(p, m) && Linked(w, p.head, m.list) && addr in m.live
    ensures Linked(Store(w, addr, v), p.head, m.list)
  {
    SafeListNotLive(p, m);
    var w' := Store(w, addr, v);
    hide Safe, Link, Target;
    forall i | 0 <= i <= |m.list|
      ensures w'(Link(p.head, m.list, i)) == Target(m.list, i)
    {
      assert w(Link(p.head, m.list, i)) == Target(m.list, i);
    }
  }

  lemma RestIsLive(p: Platform, m: Memory, i: nat, n: nat)
    requires i < |m.list| && Safe(p, m)
    ensures var b := m.list[i]; n < b.size ==> Bytes(b.addr + n, b.size - n) <= Removed(m, i).live
    ensures m.live <= Removed(m, i).live && m.live !! BlockBytes(m.list[i])
    ensures var b := m.list[i]; n < b.size ==> m.live <= FreedLocked(Removed(m, i), b.addr + n, b.size - n).live
  {
    BlockIsFree(m.list, i);
    hide FreeBytes, Smallest;
  }

  /** The words of the list are in no live byte. */
  ghost predicate ListNotLive(head: nat, m: Memory) {
    && (forall i :: 0 <= i <= |m.list| ==> Link(head, m.list, i) !in m.live)
    && (forall i :: 0 <= i < |m.list| ==> m.list[i].addr + 8 !in m.live)
  }

  /** A word of the list's first entry is not a program's own. */
  lemma FirstNotLive(head: nat, m: Memory)
    requires ListNotLive(head, m) && m.list != []
    ensures head !in m.live && m.list[0].addr !in m.live && m.list[0].addr + 8 !in m.live
  {
    assert Link(head, m.list, 0) == head && Link(head, m.list, 1) == m.list[0].addr;
  }

  lemma SafeListNotLive(p: Platform, m: Memory)
    requires Safe(p, m)
    ensures ListNotLive(p.head, m)
  {
    hide FreeBytes;
    forall i | 0 <= i < |m.list|
      ensures m.list[i].addr !in m.live && m.list[i].addr + 8 !in m.live
    {
      assert m.list[i] in m.list;
      HeaderBytes(m.list, i);
    }
  }
}
