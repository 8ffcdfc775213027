/** The doubly linked list of sections of a binary, and the test whether a section is still in it. */
module SectionList {

  class Section {
    var next: Section?
    var prev: Section?

    constructor ()
      ensures next == null && prev == null
    {
      next, prev := null, null;
    }
  }

  predicate Distinct(list: seq<Section>) {
    forall i, j :: 0 <= i < j < |list| ==> list[i] != list[j]
  }

  function At(list: seq<Section>, i: int): Section? {
    if 0 <= i < |list| then list[i] else null
  }

  /** Forward and backward links spell `list`. */
  ghost predicate Linked(list: seq<Section>)
    reads list
  {
    forall i :: 0 <= i < |list| ==> list[i].next == At(list, i + 1) && list[i].prev == At(list, i - 1)
  }

  function Index(list: seq<Section>, s: Section): (i: nat)
    requires s in list
    ensures i < |list| && list[i] == s
  {
    if list[0] == s then 0 else 1 + Index(list[1..], s)
  }

  function Without(list: seq<Section>, i: nat): seq<Section>
    requires i < |list|
  {
    list[..i] + list[i + 1..]
  }

  function With(list: seq<Section>, i: nat, s: Section): seq<Section>
    requires i <= |list|
  {
    list[..i] + [s] + list[i..]
  }

  /** The two sequences have the same members, apart from `s`. */
  ghost predicate SameBut(before: seq<Section>, after: seq<Section>, s: Section) {
    && (forall x :: x in before ==> x in after || x == s)
    && (forall x :: x in after ==> x in before || x == s)
  }

  lemma WithoutEnds(list: seq<Section>, i: nat)
    requires i < |list|
    ensures var r := Without(list, i);
            && At(r, 0) == At(list, if i == 0 then 1 else 0)
            && At(r, |r| - 1) == At(list, if i == |list| - 1 then i - 1 else |list| - 1)
            && SameBut(list, r, list[i])
  {
    assert list == list[..i] + [list[i]] + list[i + 1..];
  }

  lemma WithEnds(list: seq<Section>, i: nat, s: Section)
    requires i <= |list|
    ensures var r := With(list, i, s);
            && At(r, 0) == (if i == 0 then s else At(list, 0))
            && At(r, |r| - 1) == (if i == |list| then s else At(list, |list| - 1))
            && s in r && SameBut(list, r, s)
  {
    assert list == list[..i] + list[i..];
  }

  lemma WithEnd(list: seq<Section>, s: Section)
    ensures With(list, |list|, s) == list + [s]
  {
  }

  lemma WithFront(list: seq<Section>, s: Section)
    ensures With(list, 0, s) == [s] + list
  {
  }

  /** What a caller does to the list. */
  datatype Op =
    | Append(s: Section)
    | Prepend(s: Section)
    | InsertAfter(a: Section, s: Section)
    | InsertBefore(a: Section, s: Section)
    | Remove(s: Section)

  /** Sections are put in once, next to sections that are there, and taken out when they are there. */
  predicate WellPlaced(list: seq<Section>, op: Op) {
    match op
    case Append(s) => s !in list
    case Prepend(s) => s !in list
    case InsertAfter(a, s) => a in list && s !in list
    case InsertBefore(a, s) => a in list && s !in list
    case Remove(s) => s in list
  }

  function Apply(list: seq<Section>, op: Op): seq<Section>
    requires WellPlaced(list, op)
  {
    match op
    case Append(s) => list + [s]
    case Prepend(s) => [s] + list
    case InsertAfter(a, s) => With(list, Index(list, a) + 1, s)
    case InsertBefore(a, s) => With(list, Index(list, a), s)
    case Remove(s) => Without(list, Index(list, s))
  }

  predicate AllWellPlaced(list: seq<Section>, ops: seq<Op>)
    decreases |ops|
  {
    ops == [] || (WellPlaced(list, ops[0]) && AllWellPlaced(Apply(list, ops[0]), ops[1..]))
  }

  function ApplyAll(list: seq<Section>, ops: seq<Op>): seq<Section>
    requires AllWellPlaced(list, ops)
    decreases |ops|
  {
    if ops == [] then list else ApplyAll(Apply(list, ops[0]), ops[1..])
  }

  /** A section that was taken out is not the one that its old neighbour points back to. */
  ghost predicate Stale(s: Section, known: set<Section>)
    reads known, s
  {
    s.next != null ==> s.next in known && s.next.prev != s
  }

  ghost predicate AllStale(list: seq<Section>, known: set<Section>)
    reads known
  {
    forall s :: s in known && s !in list ==> Stale(s, known)
  }

  /** What is next to a member. */
  lemma Around(list: seq<Section>, i: nat)
    requires Linked(list) && Distinct(list) && i < |list|
    ensures list[i].next == At(list, i + 1) && list[i].prev == At(list, i - 1) && At(list, i) == list[i]
    ensures At(list, i - 1) == null <==> i == 0
    ensures At(list, i + 1) == null <==> i + 1 == |list|
    ensures At(list, i + 1) != null ==> At(list, i + 1) in list && At(list, i + 1) != list[i]
    ensures At(list, i - 1) != null ==> At(list, i - 1) in list && At(list, i - 1) != list[i]
    ensures At(list, i - 1) != null ==> At(list, i - 1) != At(list, i + 1)
  {
  }

  lemma Known(list: seq<Section>, known: set<Section>, i: int)
    requires Covers(known, list)
    ensures At(list, i) != null ==> At(list, i) in known && At(list, i) in list
    ensures At(list, i + 1) != null ==> At(list, i + 1) in known
    ensures At(list, i - 1) != null ==> At(list, i - 1) in known
  {
  }

  lemma WithAt(list: seq<Section>, i: nat, s: Section, k: int)
    requires i <= |list|
    ensures At(With(list, i, s), k) == if k < i then At(list, k) else if k == i then s else At(list, k - 1)
    ensures |With(list, i, s)| == |list| + 1
  {
  }

  lemma WithoutAt(list: seq<Section>, i: nat, k: int)
    requires i < |list|
    ensures At(Without(list, i), k) == if k < i then At(list, k) else if 0 <= k then At(list, k + 1) else null
    ensures |Without(list, i)| == |list| - 1
  {
  }

  lemma WithDistinct(list: seq<Section>, i: nat, s: Section)
    requires i <= |list| && Distinct(list) && s !in list
    ensures Distinct(With(list, i, s))
  {
    var longer := With(list, i, s);
    forall j, k | 0 <= j < k < |longer|
      ensures longer[j] != longer[k]
    {
      WithAt(list, i, s, j);
      WithAt(list, i, s, k);
    }
  }

  lemma WithoutDistinct(list: seq<Section>, i: nat)
    requires i < |list| && Distinct(list)
    ensures Distinct(Without(list, i))
  {
    var rest := Without(list, i);
    forall j, k | 0 <= j < k < |rest|
      ensures rest[j] != rest[k]
    {
      WithoutAt(list, i, j);
      WithoutAt(list, i, k);
    }
  }

  /** The links of every section in the domain, as they were at some moment. */
  datatype Links = Links(next: map<Section, Section?>, prev: map<Section, Section?>)

  ghost function Now(known: set<Section>): (l: Links)
    reads known
    ensures l.next.Keys == known && l.prev.Keys == known
    ensures forall s :: s in known ==> l.next[s] == s.next && l.prev[s] == s.prev
  {
    Links(map s | s in known :: s.next, map s | s in known :: s.prev)
  }

  ghost predicate Covers(known: set<Section>, list: seq<Section>) {
    forall s :: s in list ==> s in known
  }

  ghost predicate WereLinked(l: Links, list: seq<Section>) {
    && Covers(l.next.Keys, list) && Covers(l.prev.Keys, list)
    && forall i :: 0 <= i < |list| ==> l.next[list[i]] == At(list, i + 1) && l.prev[list[i]] == At(list, i - 1)
  }

  /** Only the links to and from `s` differ from before. */
  ghost predicate LinkedIn(l: Links, list: seq<Section>, i: nat, s: Section)
    requires WereLinked(l, list)
    reads list, s
  {
    && s.next == At(list, i) && s.prev == At(list, i - 1)
    && (forall k :: 0 <= k < |list| ==> list[k].next == if k == i - 1 then s else l.next[list[k]])
    && (forall k :: 0 <= k < |list| ==> list[k].prev == if k == i then s else l.prev[list[k]])
  }

  lemma OldLinks(l: Links, list: seq<Section>, i: nat, s: Section, j: nat)
    requires WereLinked(l, list) && LinkedIn(l, list, i, s) && j < |list|
    ensures list[j].next == if j == i - 1 then s else At(list, j + 1)
    ensures list[j].prev == if j == i then s else At(list, j - 1)
  {
  }

  /** The links then spell the list with `s` at `i`. */
  lemma Inserted(l: Links, list: seq<Section>, i: nat, s: Section)
    requires Distinct(list) && WereLinked(l, list) && i <= |list| && s !in list && LinkedIn(l, list, i, s)
    ensures Linked(With(list, i, s)) && Distinct(With(list, i, s))
  {
    hide Distinct, With, WereLinked;
    WithDistinct(list, i, s);
    var longer := With(list, i, s);
    WithAt(list, i, s, 0);
    forall k | 0 <= k < |longer|
      ensures longer[k].next == At(longer, k + 1) && longer[k].prev == At(longer, k - 1)
    {
      hide LinkedIn;
      WithAt(list, i, s, k);
      WithAt(list, i, s, k + 1);
      WithAt(list, i, s, k - 1);
      if k != i {
        OldLinks(l, list, i, s, if k < i then k else k - 1);
      }
    }
  }

  /** The links around `list[i]` skip it. */
  ghost predicate LinkedOut(l: Links, list: seq<Section>, i: nat)
    requires WereLinked(l, list)
    reads list
  {
    && (forall k :: 0 <= k < |list| ==> list[k].next == if k == i - 1 then At(list, i + 1) else l.next[list[k]])
    && (forall k :: 0 <= k < |list| ==> list[k].prev == if k == i + 1 then At(list, i - 1) else l.prev[list[k]])
  }

  lemma OtherLinks(l: Links, list: seq<Section>, i: nat, j: nat)
    requires WereLinked(l, list) && LinkedOut(l, list, i) && j < |list|
    ensures list[j].next == if j == i - 1 then At(list, i + 1) else At(list, j + 1)
    ensures list[j].prev == if j == i + 1 then At(list, i - 1) else At(list, j - 1)
  {
  }

  lemma Removed(l: Links, list: seq<Section>, i: nat)
    requires Distinct(list) && WereLinked(l, list) && i < |list| && LinkedOut(l, list, i)
    ensures Linked(Without(list, i)) && Distinct(Without(list, i))
  {
    hide Distinct, Without, WereLinked, LinkedOut;
    WithoutDistinct(list, i);
    var rest := Without(list, i);
    WithoutAt(list, i, 0);
    forall k | 0 <= k < |rest|
      ensures rest[k].next == At(rest, k + 1) && rest[k].prev == At(rest, k - 1)
    {
      WithoutAt(list, i, k);
      WithoutAt(list, i, k + 1);
      WithoutAt(list, i, k - 1);
      OtherLinks(l, list, i, if k < i then k else k + 1);
    }
  }

  ghost predicate WereStale(l: Links, list: seq<Section>, known: set<Section>)
    requires l.next.Keys == known && l.prev.Keys == known
  {
    forall s :: s in known && s !in list && l.next[s] != null ==> l.next[s] in known && l.prev[l.next[s]] != s
  }

  /** Every backward link that changed is to a section of the list, so it is to no stale one. */
  lemma StillStale(l: Links, before: seq<Section>, after: seq<Section>, known: set<Section>, s: Section)
    requires l.next.Keys == known && l.prev.Keys == known && WereStale(l, before, known)
    requires forall x :: x in known && x !in after ==> x.next == l.next[x]
    requires forall x :: x in known ==> x.prev == l.prev[x] || x.prev == null || x.prev in after
    requires SameBut(before, after, s) && Covers(known, before)
    requires s in after || Stale(s, known)
    ensures AllStale(after, known + {s}) && Covers(known + {s}, after)
  {
  }

  /** Of the links from known sections other than `s`, only one forward and one backward one were set to `s`. */
  ghost predicate PutIn(l: Links, known: set<Section>, s: Section, before: Section?, behind: Section?)
    requires l.next.Keys == known && l.prev.Keys == known
    reads known
  {
    && (forall x :: x in known && x != s ==> x.next == if x == before then s else l.next[x])
    && (forall x :: x in known && x != s ==> x.prev == if x == behind then s else l.prev[x])
  }

  /** The effect of an insertion at `i`. */
  lemma InsertedAt(l: Links, known: set<Section>, list: seq<Section>, i: nat, s: Section)
    requires l.next.Keys == known && l.prev.Keys == known
    requires Distinct(list) && Covers(known, list) && WereLinked(l, list) && WereStale(l, list, known)
    requires i <= |list| && s !in list && PutIn(l, known, s, At(list, i - 1), At(list, i))
    requires s.next == At(list, i) && s.prev == At(list, i - 1)
    ensures var r := With(list, i, s);
            && Linked(r) && Distinct(r) && AllStale(r, known + {s}) && Covers(known + {s}, r)
            && At(r, 0) == (if i == 0 then s else At(list, 0))
            && At(r, |r| - 1) == if i == |list| then s else At(list, |list| - 1)
  {
    hide Linked, AllStale, With, WereLinked, WereStale;
    forall k | 0 <= k < |list|
      ensures list[k] in known && (At(list, i - 1) == list[k] <==> k == i - 1) && (At(list, i) == list[k] <==> k == i)
    {
    }
    WithEnds(list, i, s);
    Inserted(l, list, i, s);
    StillStale(l, list, With(list, i, s), known, s);
  }

  /** Of the links from known sections only one forward and one backward one were set to skip a section. */
  ghost predicate TakenOut(l: Links, known: set<Section>, before: Section?, behind: Section?)
    requires l.next.Keys == known && l.prev.Keys == known
    reads known
  {
    && (forall x :: x in known ==> x.next == if x == before then behind else l.next[x])
    && (forall x :: x in known ==> x.prev == if x == behind then before else l.prev[x])
  }

  /** A place next to `list[i]` holds another member, or none. */
  lemma Neighbour(list: seq<Section>, i: nat, j: int)
    requires Distinct(list) && i < |list| && j != i
    ensures At(list, j) != list[i] && (At(list, j) != null ==> At(list, j) in list)
  {
  }

  lemma Place(list: seq<Section>, i: int, k: nat)
    requires Distinct(list) && k < |list|
    ensures At(list, i) == list[k] <==> k == i
  {
  }

  lemma TakenOutLinks(l: Links, known: set<Section>, list: seq<Section>, i: nat)
    requires l.next.Keys == known && l.prev.Keys == known
    requires Distinct(list) && Covers(known, list) && WereLinked(l, list)
    requires i < |list| && TakenOut(l, known, At(list, i - 1), At(list, i + 1))
    ensures Linked(Without(list, i)) && Distinct(Without(list, i))
  {
    hide Linked, Without, Distinct, At, WereLinked;
    forall k | 0 <= k < |list|
      ensures list[k].next == if k == i - 1 then At(list, i + 1) else l.next[list[k]]
      ensures list[k].prev == if k == i + 1 then At(list, i - 1) else l.prev[list[k]]
    {
      assert list[k] in known;
      Place(list, i - 1, k);
      Place(list, i + 1, k);
    }
    Removed(l, list, i);
  }

  lemma TakenOutStale(l: Links, known: set<Section>, list: seq<Section>, i: nat)
    requires l.next.Keys == known && l.prev.Keys == known
    requires Distinct(list) && Covers(known, list) && WereLinked(l, list) && WereStale(l, list, known)
    requires i < |list| && TakenOut(l, known, At(list, i - 1), At(list, i + 1))
    ensures AllStale(Without(list, i), known) && Covers(known, Without(list, i))
  {
    hide Linked, AllStale, Without, WereStale, Distinct, At;
    var s := list[i];
    Neighbour(list, i, i - 1);
    Neighbour(list, i, i + 1);
    WithoutEnds(list, i);
    assert known + {s} == known;
    StillStale(l, list, Without(list, i), known, s);
  }

  /** The effect of taking out the section at `i`. */
  lemma RemovedAt(l: Links, known: set<Section>, list: seq<Section>, i: nat)
    requires l.next.Keys == known && l.prev.Keys == known
    requires Distinct(list) && Covers(known, list) && WereLinked(l, list) && WereStale(l, list, known)
    requires i < |list| && TakenOut(l, known, At(list, i - 1), At(list, i + 1))
    ensures var r := Without(list, i);
            && Linked(r) && Distinct(r) && AllStale(r, known) && Covers(known, r)
            && At(r, 0) == At(list, if i == 0 then 1 else 0)
            && At(r, |r| - 1) == At(list, if i == |list| - 1 then i - 1 else |list| - 1)
  {
    hide Linked, AllStale, Without, WereStale, WereLinked, Distinct, Covers, TakenOut;
    TakenOutLinks(l, known, list, i);
    TakenOutStale(l, known, list, i);
    WithoutEnds(list, i);
  }

  lemma NowFacts(list: seq<Section>, known: set<Section>)
    requires Linked(list) && AllStale(list, known) && Covers(known, list)
    ensures WereLinked(Now(known), list) && WereStale(Now(known), list, known)
  {
  }

  function Placed(ops: seq<Op>): set<Section> {
    set op | op in ops :: op.s
  }

  class Bfd {
    var sections: Section?
    var section_last: Section?
    ghost var list: seq<Section>
    ghost var known: set<Section>  // every section that has ever been in the list

    ghost predicate Valid()
      reads this, known
    {
      && Distinct(list)
      && Covers(known, list)
      && Linked(list)
      && sections == At(list, 0)
      && section_last == At(list, |list| - 1)
      && AllStale(list, known)
    }

    constructor ()
      ensures Valid() && list == [] && known == {}
    {
      sections, section_last, list, known := null, null, [], {};
    }

    /** bfd_section_list_append */
    method Append(s: Section)
      requires Valid() && s !in list
      modifies this, known, s
      ensures Valid() && list == old(list) + [s] && known == old(known) + {s}
    {
      hide Linked, AllStale, With, Without, WereLinked, WereStale, Now, SameBut, Distinct, PutIn, Covers;
      ghost var l, was, knew := Now(known), list, known;
      NowFacts(list, known);
      Known(list, known, |list| - 1);
      WithEnd(was, s);
      list, known := was + [s], knew + {s};
      LinkLast(s, l, knew);
      InsertedAt(l, knew, was, |was|, s);
    }

    method LinkLast(s: Section, ghost l: Links, ghost knew: set<Section>)
      requires l == Now(knew) && section_last != s && (section_last != null ==> section_last in knew)
      modifies this`sections, this`section_last, knew, s
      ensures PutIn(l, knew, s, old(section_last), null) && s.prev == old(section_last) && s.next == null
      ensures section_last == s && sections == if old(section_last) == null then s else old(sections)
    {
      hide Now;
      s.next := null;
      if section_last != null {
        s.prev := section_last;
        section_last.next := s;
      } else {
        s.prev := null;
        sections := s;
      }
      section_last := s;
    }

    /** bfd_section_list_prepend */
    method Prepend(s: Section)
      requires Valid() && s !in list
      modifies this, known, s
      ensures Valid() && list == [s] + old(list) && known == old(known) + {s}
    {
      hide Linked, AllStale, With, Without, WereLinked, WereStale, Now, SameBut, Distinct, PutIn, Covers;
      ghost var l, was, knew := Now(known), list, known;
      NowFacts(list, known);
      Known(list, known, 0);
      WithFront(was, s);
      list, known := [s] + was, knew + {s};
      LinkFirst(s, l, knew);
      InsertedAt(l, knew, was, 0, s);
    }

    method LinkFirst(s: Section, ghost l: Links, ghost knew: set<Section>)
      requires l == Now(knew) && sections != s && (sections != null ==> sections in knew)
      modifies this`sections, this`section_last, knew, s
      ensures PutIn(l, knew, s, null, old(sections)) && s.next == old(sections) && s.prev == null
      ensures sections == s && section_last == if old(sections) == null then s else old(section_last)
    {
      hide Now;
      s.prev := null;
      if sections != null {
        s.next := sections;
        sections.prev := s;
      } else {
        s.next := null;
        section_last := s;
      }
      sections := s;
    }

    /** bfd_section_list_insert_after */
    method InsertAfter(a: Section, s: Section)
      requires Valid() && a in list && s !in list
      modifies this, known, s
      ensures Valid() && list == With(old(list), Index(old(list), a) + 1, s) && known == old(known) + {s}
    {
      hide Linked, AllStale, With, Without, WereLinked, WereStale, Now, Index, SameBut, Distinct, At, PutIn, Covers;
      ghost var l, i: nat, was, knew := Now(known), Index(list, a), list, known;
      NowFacts(list, known);
      Around(list, i);
      Known(list, known, i);
      list, known := With(was, i + 1, s), knew + {s};
      LinkAfter(a, s, l, knew);
      InsertedAt(l, knew, was, i + 1, s);
    }

    method LinkAfter(a: Section, s: Section, ghost l: Links, ghost knew: set<Section>)
      requires l == Now(knew) && a in knew && s != a && s != a.next && (a.next != null ==> a.next in knew)
      modifies this`section_last, knew, s
      ensures PutIn(l, knew, s, a, old(a.next)) && s.next == old(a.next) && s.prev == a
      ensures section_last == if old(a.next) == null then s else old(section_last)
    {
      hide Now;
      var next := a.next;
      s.next := next;
      s.prev := a;
      a.next := s;
      if next != null {
        next.prev := s;
      } else {
        section_last := s;
      }
    }

    /** bfd_section_list_insert_before */
    method InsertBefore(b: Section, s: Section)
      requires Valid() && b in list && s !in list
      modifies this, known, s
      ensures Valid() && list == With(old(list), Index(old(list), b), s) && known == old(known) + {s}
    {
      hide Linked, AllStale, With, Without, WereLinked, WereStale, Now, Index, SameBut, Distinct, At, PutIn, Covers;
      ghost var l, i: nat, was, knew := Now(known), Index(list, b), list, known;
      NowFacts(list, known);
      Around(list, i);
      Known(list, known, i);
      list, known := With(was, i, s), knew + {s};
      LinkBefore(b, s, l, knew);
      InsertedAt(l, knew, was, i, s);
    }

    method LinkBefore(b: Section, s: Section, ghost l: Links, ghost knew: set<Section>)
      requires l == Now(knew) && b in knew && s != b && s != b.prev && (b.prev != null ==> b.prev in knew)
      modifies this`sections, knew, s
      ensures PutIn(l, knew, s, old(b.prev), b) && s.prev == old(b.prev) && s.next == b
      ensures sections == if old(b.prev) == null then s else old(sections)
    {
      hide Now;
      var prev := b.prev;
      s.prev := prev;
      s.next := b;
      b.prev := s;
      if prev != null {
        prev.next := s;
      } else {
        sections := s;
      }
    }

    /** The links of `s` itself are left as they are. */
    method Remove(s: Section)
      requires Valid() && s in list
      modifies this, known
      ensures Valid() && list == Without(old(list), Index(old(list), s)) && known == old(known)
      ensures s.next == old(s.next) && s.prev == old(s.prev)
    {
      hide Linked, AllStale, With, Without, WereLinked, WereStale, Now, Index, SameBut, Distinct, At;
      ghost var l := Now(known);
      NowFacts(list, known);
      ghost var i: nat := Index(list, s);
      Around(list, i);
      var next := s.next;
      var prev := s.prev;
      if prev != null {
        prev.next := next;
      } else {
        sections := next;
      }
      if next != null {
        next.prev := prev;
      } else {
        section_last := prev;
      }
      ghost var was := list;
      list := Without(was, i);
      RemovedAt(l, known, was, i);
    }

    /** `bfd_section_removed_from_list`: false exactly for the sections that are in the list now. */
    predicate RemovedFromList(s: Section)
      requires Valid() && (s in known || s.next == null)
      reads this, known, s
      ensures RemovedFromList(s) <==> s !in list
    {
      if s.next == null then section_last != s else s.next.prev != s
    }

    /** Following `next` from the first section visits exactly the list. */
    lemma ForwardWalk(path: seq<Section>)
      requires Valid()
      requires At(path, 0) == sections && forall i :: 0 <= i < |path| ==> path[i].next == At(path, i + 1)
      ensures path == list
    {
      var i: nat := 0;
      while At(path, i) != null
        invariant i <= |path| && At(path, i) == At(list, i)
        invariant forall k :: 0 <= k < i ==> path[k] == At(list, k)
        decreases |path| - i
      {
        assert path[i].next == At(path, i + 1);
        i := i + 1;
      }
    }

    /** Following `prev` from the last section visits the list backward. */
    lemma BackwardWalk(path: seq<Section>)
      requires Valid()
      requires At(path, 0) == section_last && forall i :: 0 <= i < |path| ==> path[i].prev == At(path, i + 1)
      ensures |path| == |list| && forall i :: 0 <= i < |list| ==> path[i] == list[|list| - 1 - i]
    {
      hide Linked, AllStale, Covers;
      var i: nat := 0;
      while At(path, i) != null
        invariant i <= |path| && At(path, i) == At(list, |list| - 1 - i)
        invariant i <= |list| && forall k :: 0 <= k < i ==> path[k] == list[|list| - 1 - k]
        decreases |path| - i
      {
        Around(list, |list| - 1 - i);
        assert path[i].prev == At(path, i + 1);
        i := i + 1;
      }
    }

    method Perform(op: Op)
      requires Valid() && WellPlaced(list, op)
      modifies this, known, op.s
      ensures Valid() && list == Apply(old(list), op) && known == old(known) + {op.s}
    {
      hide Linked, AllStale, Distinct, With, Without, Index;
      match op {
        case Append(s) => Append(s);
        case Prepend(s) => Prepend(s);
        case InsertAfter(a, s) => InsertAfter(a, s);
        case InsertBefore(a, s) => InsertBefore(a, s);
        case Remove(s) => Remove(s);
      }
    }

    /** Any run of operations leaves the links spelling what the operations on sequences give. */
    method Run(ops: seq<Op>)
      requires Valid() && AllWellPlaced(list, ops)
      modifies this, known, Placed(ops)
      ensures Valid() && list == ApplyAll(old(list), ops)
      ensures old(known) <= known <= old(known) + Placed(ops)
    {
      hide Linked, AllStale, Distinct, Apply, At;
      var k: nat := 0;
      assert ops[0..] == ops;
      while k < |ops|
        invariant k <= |ops| && Valid()
        invariant old(known) <= known <= old(known) + Placed(ops)
        invariant AllWellPlaced(list, ops[k..]) && ApplyAll(list, ops[k..]) == ApplyAll(old(list), ops)
      {
        var op := ops[k];
        assert ops[k..][1..] == ops[k + 1..] && ops[k..][0] == op;
        assert op.s in Placed(ops);
        Perform(op);
        k := k + 1;
      }
      assert ops[k..] == [];
    }
  }
}
