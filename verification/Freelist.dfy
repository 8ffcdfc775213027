/** The allocator's memory as a value: blocks on the free list, and where every mapped byte is. */
module Freelist {
  import opened Bits
  import opened Wrappers

  /** The size of the header that a block on the free list holds. */
  const HEADER: nat := 16

  const MAX_ENTRIES: nat := 16

  datatype Block = Block(addr: nat, size: nat)

  predicate Within(x: nat, addr: nat, size: nat) {
    addr <= x < addr + size
  }

  function Bytes(addr: nat, size: nat): set<nat> {
    set x: nat | addr <= x < addr + size && Within(x, addr, size)
  }

  function BlockBytes(b: Block): set<nat> {
    Bytes(b.addr, b.size)
  }

  function FreeBytes(list: seq<Block>): set<nat> {
    set b, x | b in list && x in BlockBytes(b) :: x
  }

  predicate Apart(list: seq<Block>) {
    forall i, j :: 0 <= i < j < |list| ==> BlockBytes(list[i]) !! BlockBytes(list[j])
  }

  function Without(list: seq<Block>, i: nat): (r: seq<Block>)
    requires i < |list|
    ensures |r| == |list| - 1
  {
    list[..i] + list[i + 1..]
  }

  /** The first block of the least size. */
  predicate IsSmallest(list: seq<Block>, i: nat) {
    && i < |list|
    && (forall k :: 0 <= k < i ==> list[i].size < list[k].size)
    && (forall k :: i <= k < |list| ==> list[i].size <= list[k].size)
  }

  function Smallest(list: seq<Block>): (i: nat)
    requires list != []
    ensures IsSmallest(list, i)
  {
    if |list| == 1 then 0
    else
      var i := Smallest(list[..|list| - 1]);
      if list[|list| - 1].size < list[i].size then |list| - 1 else i
  }

  lemma SmallestStep(list: seq<Block>, c: nat, s: nat)
    requires c < |list| && (c > 0 ==> IsSmallest(list[..c], s))
    ensures IsSmallest(list[..c + 1], if c == 0 || list[c].size < list[s].size then c else s)
  {
  }

  lemma SmallestUnique(list: seq<Block>, i: nat, j: nat)
    requires IsSmallest(list, i) && IsSmallest(list, j)
    ensures i == j
  {
    var x, y := list[i].size, list[j].size;
    assert i < j ==> y < x;
    assert j < i ==> x < y;
  }

  /** The first block that holds `size` bytes, or the length of the list. */
  predicate IsFirstFit(list: seq<Block>, size: nat, i: nat) {
    && i <= |list|
    && (forall k :: 0 <= k < i ==> list[k].size < size)
    && (i < |list| ==> size <= list[i].size)
  }

  function FirstFit(list: seq<Block>, size: nat): (i: nat)
    ensures IsFirstFit(list, size, i)
  {
    if list == [] then 0 else if size <= list[0].size then 0 else 1 + FirstFit(list[1..], size)
  }

  lemma FirstFitUnique(list: seq<Block>, size: nat, i: nat, j: nat)
    requires IsFirstFit(list, size, i) && IsFirstFit(list, size, j)
    ensures i == j
  {
    var x := if i < |list| then list[i].size else 0;
    var y := if j < |list| then list[j].size else 0;
    assert i < j ==> x < size;
    assert j < i ==> y < size;
  }

  lemma BlockIsFree(list: seq<Block>, i: nat)
    requires i < |list|
    ensures BlockBytes(list[i]) <= FreeBytes(list)
  {
    assert list[i] in list;
  }

  lemma FreeBytesOfCons(b: Block, list: seq<Block>)
    ensures FreeBytes([b] + list) == BlockBytes(b) + FreeBytes(list)
    ensures Apart(list) && BlockBytes(b) !! FreeBytes(list) ==> Apart([b] + list)
  {
    var whole := [b] + list;
    forall x
      ensures x in FreeBytes(whole) <==> x in BlockBytes(b) + FreeBytes(list)
    {
      if x in FreeBytes(whole) {
        var c :| c in whole && x in BlockBytes(c);
        assert c == b || c in list;
      }
      if x in FreeBytes(list) {
        var c :| c in list && x in BlockBytes(c);
        assert c in whole;
      }
      assert b == whole[0];
    }
    if Apart(list) && BlockBytes(b) !! FreeBytes(list) {
      forall i, j | 0 <= i < j < |whole|
        ensures BlockBytes(whole[i]) !! BlockBytes(whole[j])
      {
        assert whole[j] == list[j - 1] && list[j - 1] in list;
        assert BlockBytes(list[j - 1]) <= FreeBytes(list);
      }
    }
  }

  lemma FreeBytesWithout(list: seq<Block>, i: nat)
    requires i < |list| && Apart(list)
    ensures FreeBytes(list) == BlockBytes(list[i]) + FreeBytes(Without(list, i))
    ensures BlockBytes(list[i]) !! FreeBytes(Without(list, i))
    ensures Apart(Without(list, i))
    ensures forall b :: b in Without(list, i) ==> b in list
  {
    hide BlockBytes;
    var rest := Without(list, i);
    forall x
      ensures x in FreeBytes(list) <==> x in BlockBytes(list[i]) + FreeBytes(rest)
      ensures !(x in BlockBytes(list[i]) && x in FreeBytes(rest))
    {
      if x in FreeBytes(list) {
        var c :| c in list && x in BlockBytes(c);
        assert c == list[i] || c in rest;
      }
      if x in FreeBytes(rest) {
        var c :| c in rest && x in BlockBytes(c);
        OtherBlock(list, i, c, x);
      }
      assert list[i] in list;
    }
    forall j, k | 0 <= j < k < |rest|
      ensures BlockBytes(rest[j]) !! BlockBytes(rest[k])
    {
      var j' := if j < i then j else j + 1;
      var k' := if k < i then k else k + 1;
      assert rest[j] == list[j'] && rest[k] == list[k'];
    }
  }

  lemma OtherBlock(list: seq<Block>, i: nat, c: Block, x: nat)
    requires i < |list| && Apart(list) && c in Without(list, i) && x in BlockBytes(c)
    ensures c in list && x !in BlockBytes(list[i])
  {
    hide BlockBytes;
    var k :| 0 <= k < |list| && k != i && list[k] == c;
    assert BlockBytes(list[if k < i then k else i]) !! BlockBytes(list[if k < i then i else k]);
  }

  /** Where each byte that was ever mapped is: on the free list, handed out, leaked or given back. */
  datatype Memory = Memory(list: seq<Block>, live: set<nat>, leaked: set<nat>, unmapped: set<nat>)

  function Mapped(m: Memory): set<nat> {
    m.live + FreeBytes(m.list) + m.leaked
  }

  function EverMapped(m: Memory): set<nat> {
    Mapped(m) + m.unmapped
  }

  predicate Usable(b: Block) {
    b.size >= HEADER && b.addr % 8 == 0
  }

  /** The pages of the system, and the address of the head of the list, which is in none of them. */
  datatype Platform = Platform(pagesize: nat, head: nat)

  predicate PlatformOk(p: Platform) {
    p.pagesize > 0 && p.pagesize % 8 == 0 && p.head > 0 && p.head % 8 == 0
  }

  predicate Disjoint(m: Memory) {
    && m.live !! FreeBytes(m.list)
    && m.live !! m.leaked
    && FreeBytes(m.list) !! m.leaked
    && m.unmapped !! Mapped(m)
  }

  /** What the allocator keeps true. */
  predicate Safe(p: Platform, m: Memory) {
    && |m.list| <= MAX_ENTRIES
    && (forall b :: b in m.list ==> Usable(b))
    && Apart(m.list)
    && Disjoint(m)
    && 0 !in EverMapped(m) && p.head !in EverMapped(m)
  }

  /** A block the list has no room for is lost until the program ends. */
  function Leaked(m: Memory, addr: nat, size: nat): Memory {
    m.(live := m.live - Bytes(addr, size), leaked := m.leaked + Bytes(addr, size))
  }

  /** The smallest block makes room. */
  function Dropped(m: Memory): Memory
    requires m.list != []
  {
    var i := Smallest(m.list);
    m.(list := Without(m.list, i), leaked := m.leaked + BlockBytes(m.list[i]))
  }

  function Put(m: Memory, addr: nat, size: nat): Memory {
    m.(list := [Block(addr, size)] + m.list, live := m.live - Bytes(addr, size))
  }

  function FreedLocked(m: Memory, addr: nat, size: nat): Memory {
    if size < HEADER then Leaked(m, addr, size)
    else if |m.list| < MAX_ENTRIES then Put(m, addr, size)
    else if size <= m.list[Smallest(m.list)].size then Leaked(m, addr, size)
    else Put(Dropped(m), addr, size)
  }

  lemma DroppedSafe(p: Platform, m: Memory)
    requires Safe(p, m) && m.list != []
    ensures Safe(p, Dropped(m)) && Mapped(Dropped(m)) == Mapped(m)
  {
    FreeBytesWithout(m.list, Smallest(m.list));
    hide FreeBytes, BlockBytes, Apart, Smallest;
  }

  lemma PutSafe(p: Platform, m: Memory, addr: nat, size: nat)
    requires Safe(p, m) && |m.list| < MAX_ENTRIES && addr % 8 == 0 && size >= HEADER && Bytes(addr, size) <= m.live
    ensures Safe(p, Put(m, addr, size)) && Mapped(Put(m, addr, size)) == Mapped(m)
  {
    FreeBytesOfCons(Block(addr, size), m.list);
    hide FreeBytes, Bytes, Apart;
  }

  /** Freeing moves bytes out of the live ones and loses track of none. */
  lemma FreedLockedSafe(p: Platform, m: Memory, addr: nat, size: nat)
    requires Safe(p, m) && addr % 8 == 0 && Bytes(addr, size) <= m.live
    ensures var r := FreedLocked(m, addr, size);
            && Safe(p, r) && Mapped(r) == Mapped(m) && EverMapped(r) == EverMapped(m)
            && r.live == m.live - Bytes(addr, size) && r.unmapped == m.unmapped
  {
    hide FreeBytes, Bytes, Apart;
    if size >= HEADER {
      if |m.list| < MAX_ENTRIES {
        PutSafe(p, m, addr, size);
      } else if size > m.list[Smallest(m.list)].size {
        DroppedSafe(p, m);
        PutSafe(p, Dropped(m), addr, size);
      }
    }
  }

  /** A full list and the block being freed: the sixteen largest of the seventeen stay. */
  lemma KeepsSixteenLargest(m: Memory, addr: nat, size: nat) returns (dropped: Block)
    requires |m.list| == MAX_ENTRIES && size >= HEADER
    ensures var r := FreedLocked(m, addr, size).list;
            && |r| == MAX_ENTRIES
            && multiset(r) + multiset{dropped} == multiset(m.list) + multiset{Block(addr, size)}
            && forall b :: b in r ==> dropped.size <= b.size
  {
    var i := Smallest(m.list);
    var b := Block(addr, size);
    assert m.list == m.list[..i] + [m.list[i]] + m.list[i + 1..];
    if size <= m.list[i].size {
      dropped := b;
    } else {
      dropped := m.list[i];
      var r := [b] + Without(m.list, i);
      forall c | c in r
        ensures dropped.size <= c.size
      {
        assert c == b || c in m.list;
      }
    }
  }

  function RoundUp(n: nat, unit: nat): (r: nat)
    requires unit > 0
    ensures n <= r < n + unit && r % unit == 0
  {
    var q := (n + unit - 1) / unit;
    RoundUpBounds(n, unit);
    q * unit
  }

  lemma RoundUpBounds(n: nat, unit: nat)
    requires unit > 0
    ensures var r := (n + unit - 1) / unit * unit; n <= r < n + unit && r % unit == 0
  {
    var s := n + unit - 1;
    DivModFacts(s, unit);
    ModAdd(0, s / unit, unit);
  }

  /** What the system answers during one call: whether it unmaps, and whether the lock was free. */
  datatype Answers = Answers(locked: bool, page: Option<nat>, unmaps: bool, lockedToFree: bool)

  const LARGE: nat := 16 * 4096

  predicate GivesBack(p: Platform, addr: nat, size: nat, unmaps: bool)
    requires p.pagesize > 0
  {
    size >= LARGE && addr % p.pagesize == 0 && size % p.pagesize == 0 && unmaps
  }

  function Freed(p: Platform, m: Memory, addr: nat, size: nat, unmaps: bool, locked: bool): Memory
    requires PlatformOk(p)
  {
    if GivesBack(p, addr, size, unmaps) then
      m.(live := m.live - Bytes(addr, size), unmapped := m.unmapped + Bytes(addr, size))
    else if locked then FreedLocked(m, addr, size)
    else Leaked(m, addr, size)
  }

  lemma FreedSafe(p: Platform, m: Memory, addr: nat, size: nat, unmaps: bool, locked: bool)
    requires PlatformOk(p) && Safe(p, m) && addr % 8 == 0 && Bytes(addr, size) <= m.live
    ensures var r := Freed(p, m, addr, size, unmaps, locked);
            && Safe(p, r) && r.live == m.live - Bytes(addr, size) && EverMapped(r) == EverMapped(m)
            && Mapped(r) == if GivesBack(p, addr, size, unmaps) then Mapped(m) - Bytes(addr, size) else Mapped(m)
  {
    FreedLockedSafe(p, m, addr, size);
    hide FreedLocked, FreeBytes, Bytes, Apart;
  }

  /** The system grants only whole pages that are not mapped, never at NULL or over the state. */
  predicate Grants(p: Platform, mapped: set<nat>, page: Option<nat>, size: nat)
    requires PlatformOk(p)
  {
    && page.Some? && page.value % p.pagesize == 0 && page.value > 0
    && Bytes(page.value, size) !! mapped
    && 0 !in Bytes(page.value, size) && p.head !in Bytes(page.value, size)
  }

  /** New pages are handed out. */
  function Taken(m: Memory, addr: nat, size: nat): Memory {
    m.(live := m.live + Bytes(addr, size), unmapped := m.unmapped - Bytes(addr, size))
  }

  /** Entry `i` of the list is handed out. */
  function Removed(m: Memory, i: nat): Memory
    requires i < |m.list|
  {
    m.(list := Without(m.list, i), live := m.live + BlockBytes(m.list[i]))
  }

  function AllocatedFromList(m: Memory, i: nat, size: nat): Memory
    requires i < |m.list|
  {
    var b := m.list[i];
    var n := RoundUp(size, 8);
    var taken := Removed(m, i);
    if n < b.size then FreedLocked(taken, b.addr + n, b.size - n) else taken
  }

  function AllocatedPage(p: Platform, m: Memory, size: nat, page: nat, a: Answers): Memory
    requires PlatformOk(p)
  {
    var ask := RoundUp(size, p.pagesize);
    var n := RoundUp(size, 8);
    var taken := Taken(m, page, ask);
    if n < ask then Freed(p, taken, page + n, ask - n, a.unmaps, a.lockedToFree) else taken
  }

  /** The memory after an allocation, and the address, unless the system has no more pages. */
  function Allocated(p: Platform, m: Memory, size: nat, a: Answers): (Memory, Option<nat>)
    requires PlatformOk(p)
  {
    var i := FirstFit(m.list, size);
    if a.locked && i < |m.list| then
      (AllocatedFromList(m, i, size), Some(m.list[i].addr))
    else if Grants(p, Mapped(m), a.page, RoundUp(size, p.pagesize)) then
      (AllocatedPage(p, m, size, a.page.value, a), a.page)
    else
      (m, None)
  }

  /** The block handed out: aligned, long enough, and no part of it was in use. */
  predicate HandedOut(before: Memory, after: Memory, addr: nat, size: nat) {
    && addr > 0 && addr % 8 == 0
    && before.live <= after.live
    && Bytes(addr, size) <= after.live
    && Bytes(addr, size) !! before.live
    && Bytes(addr, size) !! before.leaked
    && (forall x :: x in after.live - before.live ==> addr <= x < addr + RoundUp(size, 8))
  }

  lemma AllocatedFromListSafe(p: Platform, m: Memory, i: nat, size: nat)
    requires PlatformOk(p) && Safe(p, m) && i < |m.list| && size <= m.list[i].size
    ensures var r := AllocatedFromList(m, i, size);
            && m.list[i].addr > 0 && Safe(p, r) && HandedOut(m, r, m.list[i].addr, size) && EverMapped(r) == EverMapped(m)
  {
    hide FreedLocked, FreeBytes, Apart, RoundUp, Safe, EverMapped, Mapped, Without;
    var b := m.list[i];
    var taken := Removed(m, i);
    var n := RoundUp(size, 8);
    RemovedSafe(p, m, i);
    if n < b.size {
      FreedLockedSafe(p, taken, b.addr + n, b.size - n);
    }
    ListHandedOut(m, AllocatedFromList(m, i, size), b, size, n);
  }

  lemma RemovedSafe(p: Platform, m: Memory, i: nat)
    requires Safe(p, m) && i < |m.list|
    ensures var b := m.list[i];
            var r := Removed(m, i);
            && Safe(p, r) && EverMapped(r) == EverMapped(m) && Mapped(r) == Mapped(m) && b.addr > 0 && b.addr % 8 == 0
            && BlockBytes(b) !! m.live && BlockBytes(b) !! m.leaked
  {
    assert m.list[i] in m.list;
    FreeBytesWithout(m.list, i);
    assert Within(m.list[i].addr, m.list[i].addr, m.list[i].size) && m.list[i].addr in BlockBytes(m.list[i]);
    hide FreeBytes, BlockBytes, Bytes, Apart, Without;
  }

  lemma ListHandedOut(m: Memory, r: Memory, b: Block, size: nat, n: nat)
    requires n == RoundUp(size, 8) && size <= b.size && b.addr > 0 && b.addr % 8 == 0
    requires BlockBytes(b) !! m.live && BlockBytes(b) !! m.leaked
    requires r.live == if n < b.size then m.live + BlockBytes(b) - Bytes(b.addr + n, b.size - n) else m.live + BlockBytes(b)
    ensures HandedOut(m, r, b.addr, size)
  {
    hide RoundUp;
  }

  /** What is left of a block is put back on the list, where there is always room, if a header fits in it. */
  lemma SplitKeepsRest(p: Platform, m: Memory, i: nat, size: nat)
    requires PlatformOk(p) && Safe(p, m) && i < |m.list|
    requires RoundUp(size, 8) + HEADER <= m.list[i].size
    ensures var b, n := m.list[i], RoundUp(size, 8);
            AllocatedFromList(m, i, size).list == [Block(b.addr + n, b.size - n)] + Without(m.list, i)
  {
    hide RoundUp;
    assert |Removed(m, i).list| < MAX_ENTRIES;
  }

  lemma AllocatedPageSafe(p: Platform, m: Memory, size: nat, page: nat, a: Answers)
    requires PlatformOk(p) && Safe(p, m) && Grants(p, Mapped(m), Some(page), RoundUp(size, p.pagesize))
    ensures var r := AllocatedPage(p, m, size, page, a);
            && page > 0 && Safe(p, r) && HandedOut(m, r, page, size)
            && EverMapped(r) == EverMapped(m) + Bytes(page, RoundUp(size, p.pagesize))
  {
    hide RoundUp, Freed, FreeBytes, Apart, Grants, Safe, EverMapped, Mapped;
    var ask := RoundUp(size, p.pagesize);
    var n := RoundUp(size, 8);
    var taken := Taken(m, page, ask);
    RoundIsEnough(size, p.pagesize);
    TakenSafe(p, m, page, ask);
    AlignedSum(page, n);
    if n < ask {
      FreedSafe(p, taken, page + n, ask - n, a.unmaps, a.lockedToFree);
    }
    PageHandedOut(p, m, AllocatedPage(p, m, size, page, a), page, size, n, ask);
  }

  lemma AlignedSum(a: nat, b: nat)
    requires a % 8 == 0 && b % 8 == 0
    ensures (a + b) % 8 == 0
  {
  }

  lemma TakenSafe(p: Platform, m: Memory, page: nat, ask: nat)
    requires PlatformOk(p) && Safe(p, m) && Grants(p, Mapped(m), Some(page), ask)
    ensures var r := Taken(m, page, ask); Safe(p, r) && EverMapped(r) == EverMapped(m) + Bytes(page, ask)
    ensures Mapped(Taken(m, page, ask)) == Mapped(m) + Bytes(page, ask)
    ensures page > 0 && page % 8 == 0 && Bytes(page, ask) !! Mapped(m)
  {
    PageAligned(page, p.pagesize);
    hide FreeBytes, Bytes, Apart;
  }

  lemma PageHandedOut(p: Platform, m: Memory, r: Memory, page: nat, size: nat, n: nat, ask: nat)
    requires n == RoundUp(size, 8) <= ask && page > 0 && page % 8 == 0 && Bytes(page, ask) !! Mapped(m)
    requires r.live == if n < ask then m.live + Bytes(page, ask) - Bytes(page + n, ask - n) else m.live + Bytes(page, ask)
    ensures HandedOut(m, r, page, size)
  {
    hide FreeBytes, RoundUp;
  }

  lemma PageAligned(page: nat, pagesize: nat)
    requires pagesize > 0 && pagesize % 8 == 0 && page % pagesize == 0
    ensures page % 8 == 0
  {
    ModMod(page, 8, pagesize / 8);
  }

  lemma RoundIsEnough(size: nat, pagesize: nat)
    requires pagesize > 0 && pagesize % 8 == 0
    ensures RoundUp(size, 8) <= RoundUp(size, pagesize)
  {
    hide RoundUp;
    PageAligned(RoundUp(size, pagesize), pagesize);
    LeastMultiple(size, RoundUp(size, 8), RoundUp(size, pagesize));
  }

  lemma LeastMultiple(size: nat, n: nat, m: nat)
    requires n % 8 == 0 && m % 8 == 0 && n < size + 8 && size <= m
    ensures n <= m
  {
  }

  /** An allocation hands out memory that no one had, or changes nothing. */
  lemma AllocatedSafe(p: Platform, m: Memory, size: nat, a: Answers)
    requires PlatformOk(p) && Safe(p, m)
    ensures var (r, addr) := Allocated(p, m, size, a);
            && Safe(p, r)
            && (addr.Some? ==> addr.value > 0 && HandedOut(m, r, addr.value, size))
            && (addr.None? ==> r == m)
            && EverMapped(m) <= EverMapped(r)
  {
    var i := FirstFit(m.list, size);
    if a.locked && i < |m.list| {
      AllocatedFromListSafe(p, m, i, size);
    } else if Grants(p, Mapped(m), a.page, RoundUp(size, p.pagesize)) {
      AllocatedPageSafe(p, m, size, a.page.value, a);
    }
    hide Safe, HandedOut, EverMapped, AllocatedFromList, AllocatedPage;
  }

  /** A request can be met: by a listed block, if the lock is free, or by new pages. */
  predicate CanAllocate(p: Platform, list: seq<Block>, mapped: set<nat>, size: nat, a: Answers)
    requires PlatformOk(p)
  {
    || (a.locked && exists k :: 0 <= k < |list| && size <= list[k].size)
    || Grants(p, mapped, a.page, RoundUp(size, p.pagesize))
  }

  /** Entry `k` is the one to be taken: none before it is large enough. */
  predicate Chosen(list: seq<Block>, size: nat, a: Answers, k: nat) {
    a.locked && k < |list| && size <= list[k].size && forall j :: 0 <= j < k ==> list[j].size < size
  }

  /** A page may be granted exactly where no byte of it is mapped, is NULL or holds the state. */
  lemma GrantsIff(p: Platform, mapped: set<nat>, page: nat, size: nat)
    requires PlatformOk(p)
    ensures Grants(p, mapped, Some(page), size) <==>
      page > 0 && page % p.pagesize == 0 && forall x: nat :: page <= x < page + size ==> x !in mapped && x != p.head
  {
    hide Bytes;
    InBytes(page, size);
    if Grants(p, mapped, Some(page), size) {
      forall x: nat | page <= x < page + size
        ensures x !in mapped && x != p.head
      {
        assert x in Bytes(page, size);
      }
    } else if page > 0 && page % p.pagesize == 0 {
      assert 0 !in Bytes(page, size);
      if p.head !in Bytes(page, size) {
        var x :| x in Bytes(page, size) && x in mapped;
        assert page <= x < page + size;
      } else {
        assert page <= p.head < page + size && (p.head in mapped || p.head !in mapped);
      }
    }
  }

  lemma InBytes(addr: nat, size: nat)
    ensures forall x: nat :: x in Bytes(addr, size) <==> addr <= x < addr + size
  {
    assert forall x: nat :: Within(x, addr, size) <==> addr <= x < addr + size;
  }

  /** Requests are met exactly if they can be: the first large enough block, before any new page. */
  lemma AllocatedIff(p: Platform, m: Memory, size: nat, a: Answers)
    requires PlatformOk(p) && Safe(p, m)
    ensures var (r, addr) := Allocated(p, m, size, a);
      && (addr.Some? <==> CanAllocate(p, m.list, Mapped(m), size, a))
      && (forall k: nat :: Chosen(m.list, size, a, k) ==> addr == Some(m.list[k].addr) && Mapped(r) == Mapped(m))
      && ((forall k: nat :: !Chosen(m.list, size, a, k)) && addr.Some? ==>
            addr == a.page && Mapped(r) == Mapped(m) + Bytes(addr.value, RoundUp(size, p.pagesize)))
  {
    hide Safe, Mapped, AllocatedFromList, AllocatedPage, FirstFit, RoundUp, Bytes, EverMapped;
    var i := FirstFit(m.list, size);
    assert forall k: nat :: Chosen(m.list, size, a, k) ==> IsFirstFit(m.list, size, k);
    forall k: nat | Chosen(m.list, size, a, k)
      ensures k == i
    {
      FirstFitUnique(m.list, size, i, k);
    }
    if a.locked && i < |m.list| {
      assert Chosen(m.list, size, a, i);
      ListMapsNothing(p, m, i, size);
    } else if Grants(p, Mapped(m), a.page, RoundUp(size, p.pagesize)) {
      PageMapsItself(p, m, size, a.page.value, a);
    }
  }

  lemma ListMapsNothing(p: Platform, m: Memory, i: nat, size: nat)
    requires PlatformOk(p) && Safe(p, m) && i < |m.list|
    ensures Mapped(AllocatedFromList(m, i, size)) == Mapped(m)
  {
    hide FreedLocked, FreeBytes, Apart, RoundUp, Safe, EverMapped, Mapped, Without;
    var b, n := m.list[i], RoundUp(size, 8);
    RemovedSafe(p, m, i);
    if n < b.size {
      FreedLockedSafe(p, Removed(m, i), b.addr + n, b.size - n);
    }
  }

  /** Less than a page is left behind the bytes that are asked for, and so it is not given back. */
  lemma PageMapsItself(p: Platform, m: Memory, size: nat, page: nat, a: Answers)
    requires PlatformOk(p) && Safe(p, m) && Grants(p, Mapped(m), Some(page), RoundUp(size, p.pagesize))
    ensures Mapped(AllocatedPage(p, m, size, page, a)) == Mapped(m) + Bytes(page, RoundUp(size, p.pagesize))
  {
    hide RoundUp, Freed, FreeBytes, Apart, Grants, Safe, EverMapped, Mapped;
    var ask, n := RoundUp(size, p.pagesize), RoundUp(size, 8);
    RoundIsEnough(size, p.pagesize);
    TakenSafe(p, m, page, ask);
    AlignedSum(page, n);
    if n < ask {
      FreedSafe(p, Taken(m, page, ask), page + n, ask - n, a.unmaps, a.lockedToFree);
      assert ask - n < p.pagesize;
      PartOfPage(ask - n, p.pagesize);
    }
  }

  lemma PartOfPage(n: nat, pagesize: nat)
    requires 0 < n < pagesize
    ensures n % pagesize != 0
  {
  }

  /** What is left of a block or of a page is too small for a header, and is lost. */
  lemma SmallRestIsLost(m: Memory, i: nat, size: nat)
    requires i < |m.list| && RoundUp(size, 8) < m.list[i].size < RoundUp(size, 8) + HEADER
    ensures var b, r, n := m.list[i], AllocatedFromList(m, i, size), RoundUp(size, 8);
            r.list == Without(m.list, i) && r.leaked == m.leaked + Bytes(b.addr + n, b.size - n)
  {
    hide RoundUp;
  }

  /** Where the bytes of a freed block go: back to the system, to the front of the list, or nowhere. */
  lemma WhereFreed(p: Platform, m: Memory, addr: nat, size: nat, unmaps: bool, locked: bool)
    requires PlatformOk(p) && Safe(p, m)
    ensures var r := Freed(p, m, addr, size, unmaps, locked);
      var whole := 65536 <= size && addr % p.pagesize == 0 && size % p.pagesize == 0 && unmaps;
      var listed := !whole && locked && 16 <= size && (|m.list| < 16 || exists b :: b in m.list && b.size < size);
      && r.unmapped == (if whole then m.unmapped + Bytes(addr, size) else m.unmapped)
      && (listed ==> r.list != [] && r.list[0] == Block(addr, size))
      && (listed && |m.list| < 16 ==> r.list[1..] == m.list && r.leaked == m.leaked)
      && (!listed ==> r.list == m.list && r.leaked == if whole then m.leaked else m.leaked + Bytes(addr, size))
  {
    hide Safe, Bytes, Without;
    if m.list != [] {
      var i := Smallest(m.list);
      assert m.list[i] in m.list;
      assert forall b :: b in m.list ==> m.list[i].size <= b.size;
    }
  }

  /** An allocation gives back the block that was freed last, and leaves the memory as it was before. */
  lemma FreeThenAlloc(p: Platform, m: Memory, addr: nat, size: nat, a: Answers)
    requires PlatformOk(p) && Safe(p, m) && Bytes(addr, size) <= m.live
    requires |m.list| < 16 <= size && size % 8 == 0 && a.locked
    ensures size < 65536 || size % p.pagesize != 0 || !a.unmaps ==>
      Allocated(p, Freed(p, m, addr, size, a.unmaps, true), size, a) == (m, Some(addr))
  {
    if size < 65536 || size % p.pagesize != 0 || !a.unmaps {
      hide Safe, Bytes, RoundUp;
      var r := Freed(p, m, addr, size, a.unmaps, true);
      assert r.list[0] == Block(addr, size);
      SameWhenRounded(size);
      assert Without(r.list, 0) == m.list;
      assert m.live - Bytes(addr, size) + Bytes(addr, size) == m.live;
    }
  }

  lemma SameWhenRounded(size: nat)
    requires size % 8 == 0
    ensures RoundUp(size, 8) == size
  {
  }

  /** The first request of a program, for 100 bytes, with pages of 4096 bytes. */
  lemma FirstRequest(a: Answers)
    requires a.page == Some(0x4000) && a.lockedToFree
    ensures var p, m := Platform(4096, 0x1000), Memory([], {}, {}, {});
            var (r, addr) := Allocated(p, m, 100, a);
            && PlatformOk(p) && Safe(p, m) && addr == Some(0x4000) && r.list == [Block(0x4068, 3992)] && r.leaked == {}
            && r.live == Bytes(0x4000, 104)
  {
    var p, m := Platform(4096, 0x1000), Memory([], {}, {}, {});
    hide Bytes;
    assert Mapped(m) == {};
    GrantsIff(p, {}, 0x4000, 4096);
    InBytes(0x4000, 4096);
    InBytes(0x4000, 104);
    InBytes(0x4068, 3992);
    assert Bytes(0x4000, 4096) - Bytes(0x4068, 3992) == Bytes(0x4000, 104);
  }

  predicate InBlock(b: Block, x: nat) {
    b.addr <= x < b.addr + b.size
  }

  lemma InBlockBytes(b: Block, x: nat)
    ensures x in BlockBytes(b) <==> InBlock(b, x)
  {
    InBytes(b.addr, b.size);
  }

  lemma InFreeBytes(list: seq<Block>, x: nat)
    ensures x in FreeBytes(list) <==> exists k :: 0 <= k < |list| && InBlock(list[k], x)
  {
    hide BlockBytes;
    forall b
      ensures x in BlockBytes(b) <==> InBlock(b, x)
    {
      InBlockBytes(b, x);
    }
    if x in FreeBytes(list) {
      var b :| b in list && x in BlockBytes(b);
      var k :| 0 <= k < |list| && list[k] == b;
    } else if exists k :: 0 <= k < |list| && InBlock(list[k], x) {
      var k :| 0 <= k < |list| && InBlock(list[k], x);
      assert list[k] in list && x in BlockBytes(list[k]);
    }
  }

  /** What being safe says of a byte: it is in one place at most, and in one block of the list at most. */
  lemma OnePlace(p: Platform, m: Memory, x: nat)
    requires Safe(p, m)
    ensures |m.list| <= 16 && forall k :: 0 <= k < |m.list| ==> 16 <= m.list[k].size && m.list[k].addr % 8 == 0
    ensures forall i, j :: 0 <= i < j < |m.list| ==> !(InBlock(m.list[i], x) && InBlock(m.list[j], x))
    ensures forall k :: 0 <= k < |m.list| && InBlock(m.list[k], x) ==> x !in m.live && x !in m.leaked && x !in m.unmapped
    ensures x in m.live ==> x !in m.leaked && x !in m.unmapped
    ensures x in m.leaked ==> x !in m.unmapped
    ensures x == 0 || x == p.head ==> x !in EverMapped(m)
    ensures x in EverMapped(m) <==>
      x in m.live || x in m.leaked || x in m.unmapped || exists k :: 0 <= k < |m.list| && InBlock(m.list[k], x)
  {
    hide FreeBytes, BlockBytes;
    InFreeBytes(m.list, x);
    forall k | 0 <= k < |m.list|
      ensures 16 <= m.list[k].size && m.list[k].addr % 8 == 0 && (x in BlockBytes(m.list[k]) <==> InBlock(m.list[k], x))
    {
      assert m.list[k] in m.list && Usable(m.list[k]);
      InBlockBytes(m.list[k], x);
    }
    forall i, j | 0 <= i < j < |m.list|
      ensures !(InBlock(m.list[i], x) && InBlock(m.list[j], x))
    {
      assert BlockBytes(m.list[i]) !! BlockBytes(m.list[j]);
    }
  }

  /** A call that a program makes. */
  datatype Call = Alloc(size: nat, answers: Answers) | Free(addr: nat, size: nat, unmaps: bool, locked: bool)

  function After(p: Platform, m: Memory, call: Call): Memory
    requires PlatformOk(p)
  {
    match call
    case Alloc(size, a) => Allocated(p, m, size, a).0
    case Free(addr, size, unmaps, locked) => Freed(p, m, addr, size, unmaps, locked)
  }

  /** A program frees only aligned parts of what it has been given. */
  predicate Allowed(m: Memory, call: Call) {
    call.Free? ==> call.addr % 8 == 0 && Bytes(call.addr, call.size) <= m.live
  }

  predicate AllAllowed(p: Platform, m: Memory, calls: seq<Call>)
    requires PlatformOk(p)
    decreases |calls|
  {
    calls == [] || (Allowed(m, calls[0]) && AllAllowed(p, After(p, m, calls[0]), calls[1..]))
  }

  function Run(p: Platform, m: Memory, calls: seq<Call>): Memory
    requires PlatformOk(p)
    decreases |calls|
  {
    if calls == [] then m else Run(p, After(p, m, calls[0]), calls[1..])
  }

  /** Any run of calls keeps the memory safe and forgets no byte that was ever mapped. */
  lemma {:induction false} EveryRunIsSafe(p: Platform, m: Memory, calls: seq<Call>)
    requires PlatformOk(p) && Safe(p, m) && AllAllowed(p, m, calls)
    ensures Safe(p, Run(p, m, calls)) && EverMapped(m) <= EverMapped(Run(p, m, calls))
    decreases |calls|
  {
    if calls != [] {
      var call := calls[0];
      if call.Alloc? {
        AllocatedSafe(p, m, call.size, call.answers);
      } else {
        FreedSafe(p, m, call.addr, call.size, call.unmaps, call.locked);
      }
      hide Safe, EverMapped, HandedOut;
      EveryRunIsSafe(p, After(p, m, call), calls[1..]);
    }
  }

  /** One of the calls frees part of the `size` bytes at `addr`. */
  predicate Releases(calls: seq<Call>, addr: nat, size: nat) {
    exists k :: 0 <= k < |calls| && calls[k].Free? && !(Bytes(calls[k].addr, calls[k].size) !! Bytes(addr, size))
  }

  /** Memory stays with the program until a call of its own frees part of it. */
  lemma {:induction false} LiveUntilFreed(p: Platform, m: Memory, calls: seq<Call>, addr: nat, size: nat)
    requires PlatformOk(p) && Safe(p, m) && AllAllowed(p, m, calls)
    requires Bytes(addr, size) <= m.live && !Releases(calls, addr, size)
    ensures Bytes(addr, size) <= Run(p, m, calls).live
    decreases |calls|
  {
    if calls != [] {
      var call := calls[0];
      hide Safe, EverMapped, Bytes;
      if call.Alloc? {
        AllocatedSafe(p, m, call.size, call.answers);
        assert m.live <= After(p, m, call).live;
      } else {
        FreedSafe(p, m, call.addr, call.size, call.unmaps, call.locked);
        assert Bytes(call.addr, call.size) !! Bytes(addr, size);
      }
      var rest := calls[1..];
      forall k | 0 <= k < |rest| && rest[k].Free?
        ensures Bytes(rest[k].addr, rest[k].size) !! Bytes(addr, size)
      {
        assert rest[k] == calls[k + 1];
      }
      assert !Releases(rest, addr, size);
      assert Bytes(addr, size) <= After(p, m, call).live;
      LiveUntilFreed(p, After(p, m, call), rest, addr, size);
    }
  }
}
