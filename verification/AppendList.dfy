/** Lock-free append to a module list: any number of threads, any interleaving of atomic steps. */
module AppendList {

  /** A pointer location: the head of the list, or the `next` field of a node. */
  datatype Location = Head | Next(node: nat)

  /** Where a thread is in the append loop; its own node is named after it. */
  datatype Writer =
    | Loading(pp: Location)  // about to load `*pp`
    | Tail(pp: Location)     // loaded NULL from `*pp`, about to compare and swap
    | Finished

  /** A thread walking the list; `seen` are the nodes it has visited. */
  datatype Walker =
    | Walking(pp: Location, seen: seq<nat>)
    | AtEnd(seen: seq<nat>)

  /**
   * Shared memory and the threads.  A location that is not in `memory` holds NULL.  The last two
   * components record what happened: the order of the successful swaps, and each writer's failures.
   */
  datatype State = State(
    memory: map<Location, nat>,
    writers: map<nat, Writer>,
    walkers: map<nat, Walker>,
    order: seq<nat>,
    failures: map<nat, nat>
  )

  /** One atomic step of one thread. */
  datatype Action =
    | Call(w: nat)       // a thread enters the append with a fresh node
    | Load(w: nat)       // atomic load of `*pp`
    | Swap(w: nat)       // compare and swap of `*pp` from NULL to the node
    | Enter(r: nat)      // a reader starts at the head
    | Visit(r: nat)      // atomic load by a reader

  const INITIAL := State(map[], map[], map[], [], map[])

  /** The effect of a step; a step that its thread is not ready for changes nothing. */
  function Step(s: State, a: Action): State {
    match a
    case Call(w) =>
      if w in s.writers then s
      else s.(writers := s.writers[w := Loading(Head)], failures := s.failures[w := 0])
    case Load(w) =>
      if w in s.writers && s.writers[w].Loading? then
        var pp := s.writers[w].pp;
        s.(writers := s.writers[w := if pp in s.memory then Loading(Next(s.memory[pp])) else Tail(pp)])
      else s
    case Swap(w) =>
      if w in s.writers && s.writers[w].Tail? && w in s.failures then
        var pp := s.writers[w].pp;
        if pp in s.memory then
          s.(writers := s.writers[w := Loading(Head)], failures := s.failures[w := s.failures[w] + 1])
        else
          s.(memory := s.memory[pp := w], writers := s.writers[w := Finished], order := s.order + [w])
      else s
    case Enter(r) =>
      if r in s.walkers then s else s.(walkers := s.walkers[r := Walking(Head, [])])
    case Visit(r) =>
      if r in s.walkers && s.walkers[r].Walking? then
        var pp, seen := s.walkers[r].pp, s.walkers[r].seen;
        s.(walkers := s.walkers[r := if pp in s.memory then Walking(Next(s.memory[pp]), seen + [s.memory[pp]])
                                     else AtEnd(seen)])
      else s
  }

  /** The state after a run. */
  function Run(s: State, run: seq<Action>): State
    decreases |run|
  {
    if run == [] then s else Run(Step(s, run[0]), run[1..])
  }

  /** The location that holds element `i` of the list, or NULL if `i` is its length. */
  function Slot(list: seq<nat>, i: nat): Location
    requires i <= |list|
  {
    if i == 0 then Head else Next(list[i - 1])
  }

  ghost predicate Distinct(list: seq<nat>) {
    forall i, j :: 0 <= i < j < |list| ==> list[i] != list[j]
  }

  /** Following pointers from the head spells exactly `list`: in particular the chain is acyclic. */
  ghost predicate Spells(memory: map<Location, nat>, list: seq<nat>) {
    && Distinct(list)
    && (forall i {:trigger Slot(list, i)} :: 0 <= i < |list| ==> Slot(list, i) in memory && memory[Slot(list, i)] == list[i])
    && (forall l :: l in memory ==> exists i {:trigger Slot(list, i)} :: 0 <= i < |list| && l == Slot(list, i))
  }

  /** `pp` is the location of element `i`. */
  ghost predicate Reaches(list: seq<nat>, pp: Location, i: nat) {
    i <= |list| && pp == Slot(list, i)
  }

  /** A writer is on the list's locations, and has failed no more often than others have appended. */
  ghost predicate WriterOk(s: State, w: nat)
    requires w in s.writers
  {
    && w in s.failures && s.failures[w] <= |s.order|
    && (s.writers[w].Finished? <==> w in s.order)
    && (s.writers[w].Loading? ==> exists i: nat :: Reaches(s.order, s.writers[w].pp, i))
    && (s.writers[w].Tail? ==> exists i: nat :: Reaches(s.order, s.writers[w].pp, i) && s.failures[w] <= i)
  }

  ghost predicate WalkerOk(s: State, r: nat)
    requires r in s.walkers
  {
    && s.walkers[r].seen <= s.order
    && (s.walkers[r].Walking? ==> Reaches(s.order, s.walkers[r].pp, |s.walkers[r].seen|))
  }

  ghost predicate Inv(s: State) {
    && Spells(s.memory, s.order)
    && (forall n :: n in s.order ==> n in s.writers)
    && (forall w :: w in s.writers ==> WriterOk(s, w))
    && (forall r :: r in s.walkers ==> WalkerOk(s, r))
  }

  /** A location of the list holds NULL exactly when it is the last one. */
  lemma TailIffNull(s: State, i: nat)
    requires Spells(s.memory, s.order) && i <= |s.order|
    ensures Slot(s.order, i) !in s.memory <==> i == |s.order|
    ensures i < |s.order| ==> s.memory[Slot(s.order, i)] == s.order[i]
  {
  }

  lemma SlotKept(list: seq<nat>, n: nat, i: nat)
    requires i <= |list|
    ensures Slot(list + [n], i) == Slot(list, i)
  {
  }

  /** Swapping a new node into the last location appends it. */
  lemma Appended(memory: map<Location, nat>, list: seq<nat>, n: nat)
    requires Spells(memory, list) && n !in list
    ensures Spells(memory[Slot(list, |list|) := n], list + [n])
  {
    var memory', list' := memory[Slot(list, |list|) := n], list + [n];
    forall i | 0 <= i < |list'|
      ensures Slot(list', i) in memory' && memory'[Slot(list', i)] == list'[i]
    {
      SlotKept(list, n, i);
      if i < |list| {
        assert Slot(list, i) in memory && memory[Slot(list, i)] == list[i];
        assert Slot(list, i) != Slot(list, |list|);
      }
    }
    forall l | l in memory'
      ensures exists i {:trigger Slot(list', i)} :: 0 <= i < |list'| && l == Slot(list', i)
    {
      if l in memory {
        var i :| 0 <= i < |list| && l == Slot(list, i);
        SlotKept(list, n, i);
        assert l == Slot(list', i);
      } else {
        SlotKept(list, n, |list|);
        assert l == Slot(list', |list|);
      }
    }
  }

  /** Appending keeps every location that a thread may be holding. */
  lemma ReachesKept(list: seq<nat>, n: nat, pp: Location, i: nat)
    requires Reaches(list, pp, i)
    ensures Reaches(list + [n], pp, i)
  {
    SlotKept(list, n, i);
  }

  lemma OthersKept(s: State, s': State, n: nat)
    requires Inv(s) && s'.order == s.order + [n]
    requires s'.writers.Keys == s.writers.Keys && s'.failures == s.failures && s'.walkers == s.walkers
    requires forall w :: w in s.writers && w != n ==> s'.writers[w] == s.writers[w]
    ensures forall w :: w in s.writers && w != n ==> WriterOk(s', w)
    ensures forall r :: r in s.walkers ==> WalkerOk(s', r)
  {
    forall w | w in s.writers && w != n
      ensures WriterOk(s', w)
    {
      assert WriterOk(s, w);
      if s.writers[w].Loading? {
        var i: nat :| Reaches(s.order, s.writers[w].pp, i);
        ReachesKept(s.order, n, s.writers[w].pp, i);
      } else if s.writers[w].Tail? {
        var i: nat :| Reaches(s.order, s.writers[w].pp, i) && s.failures[w] <= i;
        ReachesKept(s.order, n, s.writers[w].pp, i);
      }
    }
    forall r | r in s.walkers
      ensures WalkerOk(s', r)
    {
      assert WalkerOk(s, r);
      if s.walkers[r].Walking? {
        ReachesKept(s.order, n, s.walkers[r].pp, |s.walkers[r].seen|);
      }
    }
  }

  lemma LoadKeeps(s: State, w: nat)
    requires Inv(s) && w in s.writers && s.writers[w].Loading?
    ensures Inv(Step(s, Load(w)))
  {
    var s' := Step(s, Load(w));
    assert WriterOk(s, w);
    var i: nat :| Reaches(s.order, s.writers[w].pp, i);
    TailIffNull(s, i);
    if i < |s.order| {
      assert Reaches(s.order, s'.writers[w].pp, i + 1);
    }
    forall v | v in s'.writers
      ensures WriterOk(s', v)
    {
      assert v != w ==> WriterOk(s, v);
    }
    forall r | r in s'.walkers
      ensures WalkerOk(s', r)
    {
      assert WalkerOk(s, r);
    }
  }

  lemma SwapKeeps(s: State, w: nat)
    requires Inv(s) && w in s.writers && s.writers[w].Tail?
    ensures Inv(Step(s, Swap(w)))
  {
    var s' := Step(s, Swap(w));
    assert WriterOk(s, w);
    var i: nat :| Reaches(s.order, s.writers[w].pp, i) && s.failures[w] <= i;
    TailIffNull(s, i);
    if i < |s.order| {
      assert Reaches(s.order, Head, 0);
      forall v | v in s'.writers
        ensures WriterOk(s', v)
      {
        assert v != w ==> WriterOk(s, v);
      }
      forall r | r in s'.walkers
        ensures WalkerOk(s', r)
      {
        assert WalkerOk(s, r);
      }
    } else {
      Appended(s.memory, s.order, w);
      OthersKept(s, s', w);
    }
  }

  lemma VisitKeeps(s: State, r: nat)
    requires Inv(s) && r in s.walkers && s.walkers[r].Walking?
    ensures Inv(Step(s, Visit(r)))
  {
    var s' := Step(s, Visit(r));
    assert WalkerOk(s, r);
    TailIffNull(s, |s.walkers[r].seen|);
    forall v | v in s'.writers
      ensures WriterOk(s', v)
    {
      assert WriterOk(s, v);
    }
    forall q | q in s'.walkers
      ensures WalkerOk(s', q)
    {
      assert WalkerOk(s, q);
    }
  }

  /** Every step of every thread keeps the invariant. */
  lemma StepKeeps(s: State, a: Action)
    requires Inv(s)
    ensures Inv(Step(s, a))
    ensures s.order <= Step(s, a).order
  {
    var s' := Step(s, a);
    match a {
      case Load(w) => if s' != s { LoadKeeps(s, w); }
      case Swap(w) => if s' != s { SwapKeeps(s, w); }
      case Visit(r) => if s' != s { VisitKeeps(s, r); }
      case Call(w) =>
        if s' != s {
          assert Reaches(s.order, Head, 0);
          forall v | v in s'.writers ensures WriterOk(s', v) {
            assert v != w ==> WriterOk(s, v);
          }
          forall q | q in s'.walkers ensures WalkerOk(s', q) {
            assert WalkerOk(s, q);
          }
        }
      case Enter(r) =>
        if s' != s {
          forall v | v in s'.writers ensures WriterOk(s', v) {
            assert WriterOk(s, v);
          }
          forall q | q in s'.walkers ensures WalkerOk(s', q) {
            assert q != r ==> WalkerOk(s, q);
          }
        }
    }
  }

  /** Whole runs: the list stays acyclic and each earlier list is a prefix of each later one. */
  lemma {:induction false} AppendOnly(s: State, run: seq<Action>)
    requires Inv(s)
    ensures Inv(Run(s, run)) && s.order <= Run(s, run).order
    decreases |run|
  {
    if run != [] {
      StepKeeps(s, run[0]);
      AppendOnly(Step(s, run[0]), run[1..]);
    }
  }

  function Occurrences(list: seq<nat>, n: nat): nat {
    if list == [] then 0 else Occurrences(list[1..], n) + (if list[0] == n then 1 else 0)
  }

  lemma {:induction false} DistinctOccurrences(list: seq<nat>, n: nat)
    requires Distinct(list)
    ensures Occurrences(list, n) == if n in list then 1 else 0
  {
    if list != [] {
      assert Distinct(list[1..]);
      DistinctOccurrences(list[1..], n);
      assert list == [list[0]] + list[1..];
    }
  }

  /**
   * After any run from the empty list: memory spells the list, a thread's node is in it exactly once
   * if the thread has finished and not at all otherwise, and no thread has failed to swap more often
   * than nodes were appended.
   */
  lemma EveryRun(run: seq<Action>)
    ensures var s := Run(INITIAL, run);
      && Spells(s.memory, s.order)
      && (forall w :: w in s.writers ==> Occurrences(s.order, w) == if s.writers[w].Finished? then 1 else 0)
      && (forall w :: w in s.writers ==> w in s.failures && s.failures[w] <= |s.order|)
  {
    AppendOnly(INITIAL, run);
    var s := Run(INITIAL, run);
    forall w | w in s.writers
      ensures Occurrences(s.order, w) == if s.writers[w].Finished? then 1 else 0
    {
      assert WriterOk(s, w);
      DistinctOccurrences(s.order, w);
    }
  }

  lemma {:induction false} RunSplit(s: State, a: seq<Action>, b: seq<Action>)
    ensures Run(s, a + b) == Run(Run(s, a), b)
    decreases |a|
  {
    if a == [] {
      assert a + b == b;
    } else {
      assert (a + b)[1..] == a[1..] + b;
      RunSplit(Step(s, a[0]), a[1..], b);
    }
  }

  /** What a walker has seen by the time it meets the end includes everything in the list before. */
  ghost predicate SeesAll(s: State, r: nat, list: seq<nat>) {
    r in s.walkers ==> (s.walkers[r].AtEnd? ==> list <= s.walkers[r].seen)
  }

  lemma SeesAllStep(s: State, a: Action, r: nat, list: seq<nat>)
    requires Inv(s) && list <= s.order && SeesAll(s, r, list)
    ensures SeesAll(Step(s, a), r, list)
  {
    if a == Visit(r) && r in s.walkers && s.walkers[r].Walking? {
      assert WalkerOk(s, r);
      TailIffNull(s, |s.walkers[r].seen|);
    }
  }

  lemma {:induction false} KeepsSeeing(s: State, r: nat, list: seq<nat>, run: seq<Action>)
    requires Inv(s) && list <= s.order && SeesAll(s, r, list)
    ensures SeesAll(Run(s, run), r, list)
    decreases |run|
  {
    hide Inv, SeesAll, Step;
    if run != [] {
      var s' := Step(s, run[0]);
      StepKeeps(s, run[0]);
      SeesAllStep(s, run[0], r, list);
      KeepsSeeing(s', r, list, run[1..]);
    }
  }

  /** A reader that reaches NULL has visited, in order, every node appended before it started. */
  lemma ReaderSeesEarlierNodes(before: seq<Action>, r: nat, after: seq<Action>)
    requires r !in Run(INITIAL, before).walkers
    ensures var s := Run(INITIAL, before + ([Enter(r)] + after));
      r in s.walkers && s.walkers[r].seen <= s.order &&
      (s.walkers[r].AtEnd? ==> Run(INITIAL, before).order <= s.walkers[r].seen)
  {
    var s0 := Run(INITIAL, before);
    AppendOnly(INITIAL, before);
    RunSplit(INITIAL, before, [Enter(r)] + after);
    var s1 := Step(s0, Enter(r));
    StepKeeps(s0, Enter(r));
    assert ([Enter(r)] + after)[1..] == after;
    AppendOnly(s1, after);
    KeepsSeeing(s1, r, s0.order, after);
    StaysWalker(s1, r, after);
    var s := Run(s1, after);
    assert WalkerOk(s, r);
  }

  lemma {:induction false} StaysWalker(s: State, r: nat, run: seq<Action>)
    requires r in s.walkers
    ensures r in Run(s, run).walkers
    decreases |run|
  {
    if run != [] {
      StaysWalker(Step(s, run[0]), r, run[1..]);
    }
  }

  /** `n` times the same step. */
  function Times(a: Action, n: nat): (run: seq<Action>)
    ensures |run| == n && forall k :: 0 <= k < n ==> run[k] == a
  {
    if n == 0 then [] else [a] + Times(a, n - 1)
  }

  lemma RunTimes(s: State, a: Action, n: nat)
    requires n > 0
    ensures Run(s, Times(a, n)) == Run(Step(s, a), Times(a, n - 1))
  {
    assert Times(a, n)[1..] == Times(a, n - 1);
  }

  lemma LoadMoves(s: State, w: nat, i: nat)
    requires Inv(s) && w in s.writers && s.writers[w].Loading? && Reaches(s.order, s.writers[w].pp, i)
    ensures var s' := Step(s, Load(w));
            && s'.order == s.order && s'.memory == s.memory && w in s'.writers
            && (i == |s.order| ==> s'.writers[w] == Tail(Slot(s.order, i)))
            && (i < |s.order| ==> s'.writers[w] == Loading(Slot(s.order, i + 1)))
  {
    hide Inv;
    InvSpells(s);
    TailIffNull(s, i);
  }

  /** A writer on its own gets from element `i` of the list to its end by one load for each element and one more. */
  lemma {:induction false} LoadsReachEnd(s: State, w: nat, i: nat)
    requires Inv(s) && w in s.writers && s.writers[w].Loading? && Reaches(s.order, s.writers[w].pp, i)
    ensures var s' := Run(s, Times(Load(w), |s.order| - i + 1));
            && Inv(s') && s'.order == s.order && s'.memory == s.memory
            && w in s'.writers && s'.writers[w] == Tail(Slot(s.order, |s.order|))
    decreases |s.order| - i
  {
    hide Inv, Step, Times;
    var s1 := Step(s, Load(w));
    StepKeeps(s, Load(w));
    LoadMoves(s, w, i);
    RunTimes(s, Load(w), |s.order| - i + 1);
    if i < |s.order| {
      LoadsReachEnd(s1, w, i + 1);
    } else {
      assert Times(Load(w), 0) == [];
    }
  }

  lemma InvSpells(s: State)
    requires Inv(s)
    ensures Spells(s.memory, s.order)
  {
  }

  /** A swap of the last location succeeds. */
  lemma SwapAppends(s: State, w: nat)
    requires Inv(s) && w in s.writers && s.writers[w] == Tail(Slot(s.order, |s.order|))
    ensures var s' := Step(s, Swap(w));
            s'.order == s.order + [w] && w in s'.writers && s'.writers[w].Finished?
  {
    assert WriterOk(s, w);
    TailIffNull(s, |s.order|);
  }

  /** From the head of the list a writer on its own appends its node. */
  lemma LoadsThenSwap(s: State, w: nat, i: nat)
    requires Inv(s) && w in s.writers && s.writers[w].Loading? && Reaches(s.order, s.writers[w].pp, i)
    ensures var s' := Run(s, Times(Load(w), |s.order| - i + 1) + [Swap(w)]);
            s'.order == s.order + [w] && w in s'.writers && s'.writers[w].Finished?
  {
    var loads := Times(Load(w), |s.order| - i + 1);
    hide Inv, Times, Step;
    LoadsReachEnd(s, w, i);
    RunSplit(s, loads, [Swap(w)]);
    var mid := Run(s, loads);
    SwapAppends(mid, w);
    assert [Swap(w)][1..] == [];
    assert Run(mid, [Swap(w)]) == Step(mid, Swap(w));
  }

  /**
   * Whatever has happened, a writer that is then left alone appends its node behind all others, within
   * three steps more than there are nodes: no thread can keep another from finishing by stopping.
   */
  lemma WriterCanFinish(before: seq<Action>, w: nat) returns (run: seq<Action>)
    requires var s := Run(INITIAL, before); w in s.writers && !s.writers[w].Finished?
    ensures var s := Run(INITIAL, before);
            && |run| <= |s.order| + 3 && (forall a :: a in run ==> a == Load(w) || a == Swap(w))
            && Run(s, run).order == s.order + [w]
            && w in Run(s, run).writers && Run(s, run).writers[w].Finished?
  {
    var s := Run(INITIAL, before);
    AppendOnly(INITIAL, before);
    assert WriterOk(s, w);
    hide Inv;
    if s.writers[w].Loading? {
      var i: nat :| Reaches(s.order, s.writers[w].pp, i);
      LoadsThenSwap(s, w, i);
      run := Times(Load(w), |s.order| - i + 1) + [Swap(w)];
    } else {
      run := TailCanFinish(s, w);
    }
  }

  lemma SwapMoves(s: State, w: nat, i: nat)
    requires Inv(s) && i < |s.order| && w in s.writers && s.writers[w] == Tail(Slot(s.order, i))
    ensures var s' := Step(s, Swap(w));
            s'.order == s.order && w in s'.writers && s'.writers[w] == Loading(Head)
  {
    assert WriterOk(s, w);
    hide Inv;
    InvSpells(s);
    TailIffNull(s, i);
  }

  lemma RunFirst(s: State, a: Action, rest: seq<Action>)
    ensures Run(s, [a] + rest) == Run(Step(s, a), rest) && Run(s, [a]) == Step(s, a)
  {
    assert ([a] + rest)[1..] == rest && [a][1..] == [];
  }

  /** A swap that comes too late is followed by a walk from the head. */
  lemma TailRetries(s: State, w: nat, i: nat)
    requires Inv(s) && i < |s.order| && w in s.writers && s.writers[w] == Tail(Slot(s.order, i))
    ensures var s' := Run(s, [Swap(w)] + (Times(Load(w), |s.order| + 1) + [Swap(w)]));
            s'.order == s.order + [w] && w in s'.writers && s'.writers[w].Finished?
  {
    hide Inv, Step, Times, Run;
    var s1 := Step(s, Swap(w));
    StepKeeps(s, Swap(w));
    SwapMoves(s, w, i);
    assert Reaches(s1.order, Head, 0);
    LoadsThenSwap(s1, w, 0);
    RunFirst(s, Swap(w), Times(Load(w), |s.order| + 1) + [Swap(w)]);
  }

  lemma TailCanFinish(s: State, w: nat) returns (run: seq<Action>)
    requires Inv(s) && w in s.writers && s.writers[w].Tail?
    ensures |run| <= |s.order| + 3 && (forall a :: a in run ==> a == Load(w) || a == Swap(w))
    ensures Run(s, run).order == s.order + [w] && w in Run(s, run).writers && Run(s, run).writers[w].Finished?
  {
    assert WriterOk(s, w);
    hide Inv, Step, Times, Run, WriterOk;
    var i: nat :| Reaches(s.order, s.writers[w].pp, i);
    if i == |s.order| {
      SwapAppends(s, w);
      run := [Swap(w)];
      RunFirst(s, Swap(w), []);
    } else {
      TailRetries(s, w, i);
      run := [Swap(w)] + (Times(Load(w), |s.order| + 1) + [Swap(w)]);
    }
  }

  lemma VisitMoves(s: State, r: nat)
    requires Inv(s) && r in s.walkers && s.walkers[r].Walking?
    ensures var s', seen := Step(s, Visit(r)), s.walkers[r].seen;
            && s'.order == s.order && r in s'.walkers && |seen| <= |s.order|
            && (|seen| == |s.order| ==> s'.walkers[r] == AtEnd(s.order))
            && (|seen| < |s.order| ==> s'.walkers[r].Walking? && |s'.walkers[r].seen| == |seen| + 1)
  {
    assert WalkerOk(s, r);
    hide Inv;
    InvSpells(s);
    TailIffNull(s, |s.walkers[r].seen|);
    if |s.walkers[r].seen| == |s.order| {
      assert s.walkers[r].seen == s.order;
    }
  }

  /** A reader that is left alone reaches the end, and has then seen the whole list. */
  lemma {:induction false} WalkerCanFinish(s: State, r: nat)
    requires Inv(s) && r in s.walkers && s.walkers[r].Walking?
    ensures |s.walkers[r].seen| <= |s.order|
    ensures var s' := Run(s, Times(Visit(r), |s.order| - |s.walkers[r].seen| + 1));
            s'.order == s.order && r in s'.walkers && s'.walkers[r] == AtEnd(s.order)
    decreases |s.order| - |s.walkers[r].seen|
  {
    hide Inv, Step, Times;
    var i := |s.walkers[r].seen|;
    var s1 := Step(s, Visit(r));
    StepKeeps(s, Visit(r));
    VisitMoves(s, r);
    RunTimes(s, Visit(r), |s.order| - i + 1);
    if i < |s.order| {
      WalkerCanFinish(s1, r);
    } else {
      assert Times(Visit(r), 0) == [];
    }
  }

  /** Whatever has happened, a thread that enters the append and is left alone puts its node behind all others. */
  lemma NewWriterAppends(before: seq<Action>, w: nat)
    requires w !in Run(INITIAL, before).writers
    ensures var s := Run(INITIAL, before);
            var run := [Call(w)] + (Times(Load(w), |s.order| + 1) + [Swap(w)]);
            Run(s, run).order == s.order + [w] && Spells(Run(s, run).memory, s.order + [w])
  {
    var s := Run(INITIAL, before);
    AppendOnly(INITIAL, before);
    hide Inv, Times;
    var run := Times(Load(w), |s.order| + 1) + [Swap(w)];
    var s1 := Step(s, Call(w));
    StepKeeps(s, Call(w));
    assert Reaches(s1.order, Head, 0);
    LoadsThenSwap(s1, w, 0);
    RunFirst(s, Call(w), run);
    AppendOnly(s1, run);
    InvSpells(Run(s1, run));
  }

  /** A reader that starts and is left alone sees exactly the list, and leaves it as it is. */
  lemma NewReaderSees(before: seq<Action>, r: nat)
    requires r !in Run(INITIAL, before).walkers
    ensures var s := Run(INITIAL, before);
            var s' := Run(s, [Enter(r)] + Times(Visit(r), |s.order| + 1));
            s'.order == s.order && r in s'.walkers && s'.walkers[r] == AtEnd(s.order)
  {
    var s := Run(INITIAL, before);
    AppendOnly(INITIAL, before);
    hide Inv, Times;
    StepKeeps(s, Enter(r));
    WalkerCanFinish(Step(s, Enter(r)), r);
    RunFirst(s, Enter(r), Times(Visit(r), |s.order| + 1));
  }
}
