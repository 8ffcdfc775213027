/** Lazy publication of a unit's line table between threads that may all parse it at once. */
module Publication {

  /** What a thread gets from parsing: success or failure, and the sizes of the two arrays. */
  datatype Parse = Parse(ok: bool, count: nat, fcount: nat)

  /** The `lines` field: not read yet, reading failed, or the array that a thread has built. */
  datatype Lines = Null | Failed | Table(owner: nat)

  datatype Functions = NoFunctions | Array(owner: nat)

  /** How far a thread is in looking up an address. */
  datatype Thread =
    | Parsing                                          // found `lines` NULL and has parsed
    | StoredCount
    | StoredFunctions
    | StoredFcount
    | Have(lines: Lines)                               // has a value of `lines` that is not NULL
    | GotCount(lines: Lines, count: nat)
    | GotTest(lines: Lines, count: nat)                // `function_addrs_count` was not zero
    | GotFunctions(lines: Lines, count: nat, functions: Functions)
    | Done(lines: Lines, count: nat, functions: Functions, fcount: nat)

  /** The shared fields of the unit, and the threads that have started. */
  datatype State = State(lines: Lines, count: nat, functions: Functions, fcount: nat, threads: map<nat, Thread>)

  const INITIAL := State(Null, 0, NoFunctions, 0, map[])

  /** What each thread's own parse would give it. */
  type Parses = nat -> Parse

  /** A failed parse has nothing; a table without lines counts as a failure. */
  predicate ParseOk(p: Parse) {
    if p.ok then p.count > 0 else p.count == 0 && p.fcount == 0
  }

  function LinesOf(parse: Parses, t: nat): Lines {
    if parse(t).ok then Table(t) else Failed
  }

  function FunctionsOf(parse: Parses, t: nat): Functions {
    if parse(t).fcount > 0 then Array(t) else NoFunctions
  }

  /** The next atomic load or store of thread `t`; `lines` is stored last. */
  function Step(parse: Parses, s: State, t: nat): State {
    if t !in s.threads then
      s.(threads := s.threads[t := if s.lines == Null then Parsing else Have(s.lines)])
    else
      match s.threads[t]
      case Parsing => s.(count := parse(t).count, threads := s.threads[t := StoredCount])
      case StoredCount => s.(functions := FunctionsOf(parse, t), threads := s.threads[t := StoredFunctions])
      case StoredFunctions => s.(fcount := parse(t).fcount, threads := s.threads[t := StoredFcount])
      case StoredFcount => s.(lines := LinesOf(parse, t), threads := s.threads[t := Have(LinesOf(parse, t))])
      case Have(lines) =>
        if lines == Failed then s else s.(threads := s.threads[t := GotCount(lines, s.count)])
      case GotCount(lines, count) =>
        s.(threads := s.threads[t := if s.fcount == 0 then Done(lines, count, NoFunctions, 0) else GotTest(lines, count)])
      case GotTest(lines, count) => s.(threads := s.threads[t := GotFunctions(lines, count, s.functions)])
      case GotFunctions(lines, count, functions) => s.(threads := s.threads[t := Done(lines, count, functions, s.fcount)])
      case Done(_, _, _, _) => s
  }

  /** A schedule names the thread that moves next. */
  function Run(parse: Parses, s: State, schedule: seq<nat>): State
    decreases |schedule|
  {
    if schedule == [] then s else Run(parse, Step(parse, s, schedule[0]), schedule[1..])
  }

  /** The count read goes with the table it is used to search. */
  predicate CountFits(parse: Parses, lines: Lines, count: nat) {
    lines.Table? ==> parse(lines.owner).ok && parse(lines.owner).count == count
  }

  predicate FunctionsFit(parse: Parses, functions: Functions, fcount: nat) {
    match functions
    case NoFunctions => fcount == 0
    case Array(owner) => parse(owner).fcount == fcount
  }

  /** Whatever a thread has read so far belongs to complete parses. */
  predicate ViewSafe(parse: Parses, th: Thread) {
    match th
    case GotCount(lines, count) => CountFits(parse, lines, count)
    case GotTest(lines, count) => CountFits(parse, lines, count)
    case GotFunctions(lines, count, _) => CountFits(parse, lines, count)
    case Done(lines, count, functions, fcount) => CountFits(parse, lines, count) && FunctionsFit(parse, functions, fcount)
    case _ => true
  }

  ghost predicate Safe(parse: Parses, s: State) {
    forall t :: t in s.threads ==> ViewSafe(parse, s.threads[t])
  }

  ghost predicate AlwaysSafe(parse: Parses) {
    forall schedule: seq<nat> :: Safe(parse, Run(parse, INITIAL, schedule))
  }

  /** Parsing gives every thread the same result, up to where its arrays are. */
  ghost predicate Deterministic(parse: Parses) {
    forall t, u :: parse(t) == parse(u)
  }

  /** Every store so far was of the common result `p`, up to the stage a thread has reached. */
  ghost predicate StageOk(parse: Parses, p: Parse, s: State, th: Thread) {
    match th
    case Parsing => true
    case StoredCount => s.count == p.count
    case StoredFunctions => s.count == p.count && s.functions.Array? == (p.fcount > 0)
    case StoredFcount => s.count == p.count && s.functions.Array? == (p.fcount > 0) && s.fcount == p.fcount
    case _ => s.lines != Null && ViewSafe(parse, th)
  }

  ghost predicate Inv(parse: Parses, p: Parse, s: State) {
    && (s.lines != Null ==>
          s.count == p.count && s.functions.Array? == (p.fcount > 0) && s.fcount == p.fcount)
    && (s.lines.Table? ==> p.ok)
    && (forall t :: t in s.threads && s.threads[t].Have? && s.threads[t].lines.Table? ==> p.ok)
    && (forall t :: t in s.threads ==> StageOk(parse, p, s, s.threads[t]))
    && (forall t :: t in s.threads && s.threads[t].Have? ==> s.threads[t].lines != Null)
    && (forall t :: t in s.threads && s.threads[t].GotFunctions? ==> s.threads[t].functions.Array? == (p.fcount > 0))
    && (forall t :: t in s.threads && s.threads[t].GotTest? ==> p.fcount > 0)
  }

  lemma StepKeeps(parse: Parses, p: Parse, s: State, t: nat)
    requires (forall u :: parse(u) == p) && Inv(parse, p, s)
    ensures Inv(parse, p, Step(parse, s, t))
  {
    var s' := Step(parse, s, t);
    forall u | u in s'.threads
      ensures StageOk(parse, p, s', s'.threads[u])
    {
      assert t in s.threads ==> StageOk(parse, p, s, s.threads[t]);
      assert u in s.threads ==> StageOk(parse, p, s, s.threads[u]);
    }
  }

  lemma {:induction false} RunKeeps(parse: Parses, p: Parse, s: State, schedule: seq<nat>)
    requires (forall u :: parse(u) == p) && Inv(parse, p, s)
    ensures Inv(parse, p, Run(parse, s, schedule))
    decreases |schedule|
  {
    if schedule != [] {
      StepKeeps(parse, p, s, schedule[0]);
      RunKeeps(parse, p, Step(parse, s, schedule[0]), schedule[1..]);
    }
  }

  /** Storing `lines` last is enough when parsing is deterministic. */
  lemma DeterministicIsSafe(parse: Parses)
    requires Deterministic(parse)
    ensures AlwaysSafe(parse)
  {
    forall schedule: seq<nat>
      ensures Safe(parse, Run(parse, INITIAL, schedule))
    {
      RunKeeps(parse, parse(0), INITIAL, schedule);
      var s := Run(parse, INITIAL, schedule);
      forall t | t in s.threads
        ensures ViewSafe(parse, s.threads[t])
      {
        assert StageOk(parse, parse(0), s, s.threads[t]);
      }
    }
  }

  /** Both threads find nothing, `t` publishes its result, and `u` overwrites the count. */
  lemma CountOverwritten(parse: Parses, t: nat, u: nat)
    requires t != u && parse(t).ok && parse(t).count != parse(u).count
    ensures !AlwaysSafe(parse)
  {
    var schedule := [t, u, t, t, t, t, u, t];
    var s1 := Step(parse, Step(parse, INITIAL, t), u);
    var s2 := Step(parse, Step(parse, Step(parse, Step(parse, s1, t), t), t), t);
    var s3 := Step(parse, Step(parse, s2, u), t);
    assert s3.threads[t] == GotCount(Table(t), parse(u).count);
    RunEight(parse, INITIAL, schedule);
    assert !Safe(parse, Run(parse, INITIAL, schedule));
  }

  lemma RunEight(parse: Parses, s: State, r: seq<nat>)
    requires |r| >= 8
    ensures Run(parse, s, r) ==
      Run(parse, Step(parse, Step(parse, Step(parse, Step(parse, Step(parse, Step(parse, Step(parse, Step(parse, s,
        r[0]), r[1]), r[2]), r[3]), r[4]), r[5]), r[6]), r[7]), r[8..])
  {
    RunFour(parse, s, r);
    RunFour(parse, Run(parse, s, r[..4]), r[4..]);
    RunFour(parse, s, r[..4]);
    assert r[4..][4..] == r[8..];
  }

  lemma RunFour(parse: Parses, s: State, r: seq<nat>)
    requires |r| >= 4
    ensures Run(parse, s, r) == Run(parse, Step(parse, Step(parse, Step(parse, Step(parse, s, r[0]), r[1]), r[2]), r[3]), r[4..])
  {
    var s1 := Step(parse, s, r[0]);
    var s2 := Step(parse, s1, r[1]);
    var s3 := Step(parse, s2, r[2]);
    hide Step;
    assert r[1..][1..] == r[2..] && r[2..][1..] == r[3..] && r[3..][1..] == r[4..];
    assert Run(parse, s, r) == Run(parse, s1, r[1..]) == Run(parse, s2, r[2..]) == Run(parse, s3, r[3..]);
  }

  /** `u` overwrites the function array, and `t` reads it together with its own count. */
  lemma FunctionsOverwritten(parse: Parses, t: nat, u: nat)
    requires t != u && parse(t).ok && parse(t).fcount > 0 && parse(t).fcount != parse(u).fcount
    ensures !AlwaysSafe(parse)
  {
    hide Step, Safe;
    var schedule := [t, u, t, t, t, t, u, u, t, t, t, t];
    var s2 := PublishFirst(parse, t, u);
    var s3 := Step(parse, Step(parse, s2, u), u);
    RunEight(parse, INITIAL, schedule);
    RunFour(parse, s3, schedule[8..]);
    ReadsMixed(parse, t, u, s2);
    assert schedule[8..][4..] == [];
  }

  /** Both threads find nothing, and `t` publishes its result. */
  lemma PublishFirst(parse: Parses, t: nat, u: nat) returns (s2: State)
    requires t != u && parse(t).ok
    ensures var s1 := Step(parse, Step(parse, INITIAL, t), u);
            s2 == Step(parse, Step(parse, Step(parse, Step(parse, s1, t), t), t), t)
    ensures t in s2.threads && s2.threads[t] == Have(Table(t)) && u in s2.threads && s2.threads[u] == Parsing
    ensures s2.fcount == parse(t).fcount
  {
    var s1 := Step(parse, Step(parse, INITIAL, t), u);
    s2 := Step(parse, Step(parse, Step(parse, Step(parse, s1, t), t), t), t);
  }

  /** Then `u` stores its function array, and `t` reads that together with its own count. */
  lemma ReadsMixed(parse: Parses, t: nat, u: nat, s2: State)
    requires t != u && parse(t).fcount > 0 && parse(t).fcount != parse(u).fcount && s2.fcount == parse(t).fcount
    requires t in s2.threads && s2.threads[t] == Have(Table(t)) && u in s2.threads && s2.threads[u] == Parsing
    ensures var s3 := Step(parse, Step(parse, s2, u), u);
            !Safe(parse, Step(parse, Step(parse, Step(parse, Step(parse, s3, t), t), t), t))
  {
    var s3 := Step(parse, Step(parse, s2, u), u);
    assert s3.fcount == parse(t).fcount && s3.functions == FunctionsOf(parse, u) && s3.threads[t] == Have(Table(t));
    var s4 := Step(parse, Step(parse, Step(parse, Step(parse, s3, t), t), t), t);
    assert s4.threads[t].Done? && s4.threads[t].functions == FunctionsOf(parse, u) && s4.threads[t].fcount == parse(t).fcount;
    assert !ViewSafe(parse, s4.threads[t]);
  }

  /** Racing threads always see complete parses if and only if parsing is deterministic. */
  lemma SafeIffDeterministic(parse: Parses)
    requires forall t :: ParseOk(parse(t))
    ensures AlwaysSafe(parse) <==> Deterministic(parse)
  {
    if Deterministic(parse) {
      DeterministicIsSafe(parse);
    } else {
      var t, u :| parse(t) != parse(u);
      if parse(t).count != parse(u).count {
        if parse(t).ok {
          CountOverwritten(parse, t, u);
        } else {
          CountOverwritten(parse, u, t);
        }
      } else if parse(t).fcount > 0 {
        FunctionsOverwritten(parse, t, u);
      } else {
        FunctionsOverwritten(parse, u, t);
      }
    }
  }

  lemma RunOne(parse: Parses, s: State, t: nat, n: nat)
    ensures Run(parse, s, Alone(t, n + 1)) == Run(parse, Step(parse, s, t), Alone(t, n)) && Run(parse, s, Alone(t, 0)) == s
  {
    assert Alone(t, n + 1)[1..] == Alone(t, n);
  }

  /** `n` steps of one thread. */
  function Alone(t: nat, n: nat): (r: seq<nat>)
    ensures |r| == n
  {
    if n == 0 then [] else [t] + Alone(t, n - 1)
  }

  /** A thread that starts when the table is there reads the four fields, and writes none. */
  lemma LateThread(parse: Parses, s: State, t: nat)
    requires t !in s.threads && s.lines.Table?
    ensures var s' := Run(parse, s, Alone(t, 5));
            && s'.lines == s.lines && s'.count == s.count && s'.functions == s.functions && s'.fcount == s.fcount
            && t in s'.threads
            && s'.threads[t] == Done(s.lines, s.count, if s.fcount == 0 then NoFunctions else s.functions, s.fcount)
  {
    hide Run, Alone;
    var s1 := Step(parse, s, t);
    var s2 := Step(parse, s1, t);
    var s3 := Step(parse, s2, t);
    var s4 := Step(parse, s3, t);
    var s5 := Step(parse, s4, t);
    RunOne(parse, s, t, 4);
    RunOne(parse, s1, t, 3);
    RunOne(parse, s2, t, 2);
    RunOne(parse, s3, t, 1);
    RunOne(parse, s4, t, 0);
    RunOne(parse, s5, t, 0);
  }

  /** A thread that starts when reading has failed gives up, and changes nothing. */
  lemma LateFailure(parse: Parses, s: State, t: nat)
    requires t !in s.threads && s.lines == Failed
    ensures Run(parse, s, Alone(t, 2)) == s.(threads := s.threads[t := Have(Failed)])
  {
    hide Run, Alone;
    var s1 := Step(parse, s, t);
    var s2 := Step(parse, s1, t);
    RunOne(parse, s, t, 1);
    RunOne(parse, s1, t, 0);
    RunOne(parse, s2, t, 0);
  }

  /** A thread that finds nothing and is left alone publishes its own parse. */
  lemma FirstThread(parse: Parses, s: State, t: nat)
    requires t !in s.threads && s.lines == Null
    ensures var s', p := Run(parse, s, Alone(t, 5)), parse(t);
            && s'.lines == (if p.ok then Table(t) else Failed) && s'.count == p.count && s'.fcount == p.fcount
            && s'.functions == (if p.fcount > 0 then Array(t) else NoFunctions)
            && s'.threads == s.threads[t := Have(s'.lines)]
  {
    hide Run, Alone;
    var s1 := Step(parse, s, t);
    var s2 := Step(parse, s1, t);
    var s3 := Step(parse, s2, t);
    var s4 := Step(parse, s3, t);
    var s5 := Step(parse, s4, t);
    RunOne(parse, s, t, 4);
    RunOne(parse, s1, t, 3);
    RunOne(parse, s2, t, 2);
    RunOne(parse, s3, t, 1);
    RunOne(parse, s4, t, 0);
    RunOne(parse, s5, t, 0);
  }
}
