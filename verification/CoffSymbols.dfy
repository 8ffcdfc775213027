/** The function symbols of a PE/COFF file: counted, copied into memory of that size, sorted and searched. */
module CoffSymbols {
  import opened Bits
  import opened DwarfBuf
  import opened Leb128
  import opened Sorting
  import opened Wrappers

  /** An entry of the symbol table; `name` is eight bytes of text, or four zero bytes and an offset. */
  datatype External = External(name: seq<byte>, value: nat, section: nat, kind: nat, aux: byte)

  predicate ExternalOk(s: External) {
    |s.name| == 8 && s.value < 0x1_0000_0000 && s.section < 0x1_0000 && s.kind < 0x1_0000
  }

  predicate AllExternal(syms: seq<External>) {
    forall k :: 0 <= k < |syms| ==> ExternalOk(syms[k])
  }

  /** The file around the table: the addresses of its sections, its strings, and where it is loaded. */
  datatype File = File(sections: seq<nat>, strtab: seq<byte>, base: nat)

  /** A 16-bit number read as a signed one. */
  function Signed16(x: nat): int {
    if x < 0x8000 then x else x - 0x1_0000
  }

  /** The number of sections, in the 16 bits in which it is passed. */
  function Sections(f: File): nat {
    |f.sections| % 0x1_0000
  }

  predicate IsShort(s: External)
    requires ExternalOk(s)
  {
    s.name[0] != 0
  }

  function Offset(s: External): nat
    requires ExternalOk(s)
  {
    FromBytes(s.name[4..], false)
  }

  /** `coff_expand_symbol` fails on a section or a string that does not exist. */
  predicate Expands(f: File, s: External)
    requires ExternalOk(s)
  {
    && !(Signed16(s.section) > 0 && s.section > Sections(f))
    && (IsShort(s) || Offset(s) < |f.strtab|)
  }

  predicate IsFunction(s: External) {
    s.kind / 16 == 2 && Signed16(s.section) > 0
  }

  /** The entries of a walk that skips auxiliary entries: `seen`, and those that it comes to from `i` on. */
  function Walk(syms: seq<External>, i: nat, seen: seq<External>): seq<External>
    decreases |syms| - i
  {
    if i >= |syms| then seen else Walk(syms, i + 1 + syms[i].aux, seen + [syms[i]])
  }

  function Visited(syms: seq<External>): seq<External> {
    Walk(syms, 0, [])
  }

  function Functions(syms: seq<External>): (r: seq<External>)
    ensures forall s :: s in r ==> s in syms && IsFunction(s)
  {
    if syms == [] then []
    else if IsFunction(syms[0]) then [syms[0]] + Functions(syms[1..])
    else Functions(syms[1..])
  }

  /** The text of a short name: what is before the first zero byte, if there is one. */
  function ShortLength(name: seq<byte>): (n: nat)
    ensures n <= |name| && 0 !in name[..n] && (n < |name| ==> name[n] == 0)
  {
    if name == [] || name[0] == 0 then 0
    else
      var n := ShortLength(name[1..]);
      assert name[..n + 1] == [name[0]] + name[1..][..n];
      n + 1
  }

  function ShortName(s: External): seq<byte>
    requires ExternalOk(s)
  {
    s.name[..ShortLength(s.name)]
  }

  /** The copies of the short names, each with its zero byte. */
  function Arena(kept: seq<External>): seq<byte>
    requires AllExternal(kept)
  {
    if kept == [] then []
    else Arena(kept[..|kept| - 1]) + Copied(kept[|kept| - 1])
  }

  function Copied(s: External): seq<byte>
    requires ExternalOk(s)
  {
    if IsShort(s) then ShortName(s) + [0] else []
  }

  /** A pointer to a name: into the copies, into the strings of the file, or none. */
  datatype Name = InArena(at: nat) | InStrings(at: nat) | NoName

  datatype Symbol = Symbol(name: Name, address: nat)

  const HIGHEST: nat := WORD - 1

  const SENTINEL: Symbol := Symbol(NoName, HIGHEST)

  const UNDERSCORE: byte := 0x5f

  /** The address in 32 bits, and the base in 64. */
  function Address(f: File, s: External): nat
    requires ExternalOk(s) && IsFunction(s) && Expands(f, s)
  {
    ((s.value + f.sections[Signed16(s.section) - 1]) % 0x1_0000_0000 + f.base) % WORD
  }

  /** The symbol of entry `k`: a leading underscore is not part of its name. */
  ghost predicate IsSymbolOf(f: File, kept: seq<External>, arena: seq<byte>, k: nat, sym: Symbol)
    requires k < |kept| && AllExternal(kept) && AllKept(f, kept)
  {
    var s := kept[k];
    && sym.address == Address(f, s)
    && if IsShort(s) then
         sym.name.InArena? && NameAt(arena, sym.name.at, Stripped(ShortName(s)))
         && Segment(kept, k) <= sym.name.at && sym.name.at + |Stripped(ShortName(s))| < Segment(kept, k + 1)
       else
         sym.name == InStrings(Offset(s) + if f.strtab[Offset(s)] == UNDERSCORE then 1 else 0)
  }

  predicate AllKept(f: File, kept: seq<External>)
    requires AllExternal(kept)
  {
    forall k :: 0 <= k < |kept| ==> IsFunction(kept[k]) && Expands(f, kept[k])
  }

  function Stripped(text: seq<byte>): seq<byte> {
    if text != [] && text[0] == UNDERSCORE then text[1..] else text
  }

  /** A text and its zero byte. */
  predicate NameAt(arena: seq<byte>, at: nat, text: seq<byte>) {
    at + |text| < |arena| && arena[at..at + |text|] == text && arena[at + |text|] == 0 && 0 !in text
  }

  /** Where the copies of the first `k` names end. */
  function Segment(kept: seq<External>, k: nat): nat
    requires AllExternal(kept) && k <= |kept|
  {
    |Arena(kept[..k])|
  }

  lemma {:induction false} FunctionsAppend(a: seq<External>, x: External)
    ensures Functions(a + [x]) == Functions(a) + if IsFunction(x) then [x] else []
  {
    if a == [] {
      assert a + [x] == [x] && [x][1..] == [];
    } else {
      assert (a + [x])[1..] == a[1..] + [x];
      FunctionsAppend(a[1..], x);
    }
  }

  lemma {:induction false} FunctionsPrefix(a: seq<External>, b: seq<External>)
    ensures Functions(a + b) == Functions(a) + Functions(b)
  {
    if a == [] {
      assert a + b == b;
    } else {
      assert (a + b)[1..] == a[1..] + b;
      FunctionsPrefix(a[1..], b);
    }
  }

  lemma {:induction false} WalkExternal(syms: seq<External>, i: nat, seen: seq<External>)
    requires AllExternal(syms) && AllExternal(seen)
    ensures AllExternal(Walk(syms, i, seen)) && seen <= Walk(syms, i, seen)
    decreases |syms| - i
  {
    if i < |syms| {
      assert forall k :: 0 <= k < |seen| + 1 ==> (seen + [syms[i]])[k] == if k < |seen| then seen[k] else syms[i];
      WalkExternal(syms, i + 1 + syms[i].aux, seen + [syms[i]]);
    }
  }

  lemma VisitedExternal(syms: seq<External>)
    requires AllExternal(syms)
    ensures AllExternal(Visited(syms))
  {
    WalkExternal(syms, 0, []);
  }

  lemma {:induction false} FunctionsExternal(seen: seq<External>)
    requires AllExternal(seen)
    ensures AllExternal(Functions(seen))
  {
    if seen != [] {
      FunctionsExternal(seen[1..]);
    }
  }

  lemma ArenaAppend(kept: seq<External>, x: External)
    requires AllExternal(kept + [x])
    ensures AllExternal(kept) && ExternalOk(x) && Arena(kept + [x]) == Arena(kept) + Copied(x)
  {
    assert (kept + [x])[..|kept|] == kept;
    assert forall k :: 0 <= k < |kept| ==> (kept + [x])[k] == kept[k];
    assert (kept + [x])[|kept|] == x;
  }

  lemma {:induction false} ArenaPrefix(a: seq<External>, b: seq<External>)
    requires AllExternal(a + b)
    ensures AllExternal(a) && Arena(a) <= Arena(a + b)
  {
    assert forall k :: 0 <= k < |a| ==> (a + b)[k] == a[k];
    if b == [] {
      assert a + b == a;
    } else {
      var n := |b| - 1;
      assert a + b == (a + b[..n]) + [b[n]];
      ArenaAppend(a + b[..n], b[n]);
      ArenaPrefix(a, b[..n]);
    }
  }

  /** Every entry that the walk comes to has a section and a name that exist. */
  predicate AllExpand(f: File, syms: seq<External>)
    requires AllExternal(syms)
  {
    forall s :: s in syms ==> Expands(f, s)
  }

  /** The walk has come to `seen`, and goes on at `i`. */
  ghost predicate Walked(syms: seq<External>, seen: seq<External>, i: nat) {
    Walk(syms, i, seen) == Visited(syms) && AllExternal(seen)
  }

  lemma WalkStep(syms: seq<External>, seen: seq<External>, i: nat)
    requires AllExternal(syms) && Walked(syms, seen, i) && i < |syms|
    ensures Walked(syms, seen + [syms[i]], i + 1 + syms[i].aux)
    ensures syms[i] in Visited(syms)
  {
    var longer := seen + [syms[i]];
    assert forall k :: 0 <= k < |longer| ==> longer[k] == if k < |seen| then seen[k] else syms[i];
    WalkExternal(syms, i + 1 + syms[i].aux, longer);
    assert Visited(syms)[|seen|] == longer[|seen|] == syms[i];
  }

  /** `coff_short_name_len`. */
  method ShortNameLength(name: seq<byte>) returns (n: nat)
    requires |name| == 8
    ensures n == ShortLength(name)
  {
    ShortLengthUnique(name);
    n := 0;
    while n < 8
      invariant n <= 8 && 0 !in name[..n]
    {
      if name[n] == 0 {
        return;
      }
      assert name[..n + 1] == name[..n] + [name[n]];
      n := n + 1;
    }
  }

  predicate IsShortLength(name: seq<byte>, n: nat) {
    n <= |name| && 0 !in name[..n] && (n < |name| ==> name[n] == 0)
  }

  lemma PrefixesWithoutZero(name: seq<byte>, m: nat, n: nat)
    requires IsShortLength(name, m) && IsShortLength(name, n)
    ensures m == n
  {
    var x, y := name[..m], name[..n];
    assert forall k :: 0 <= k < m ==> x[k] == name[k] && name[k] != 0;
    assert forall k :: 0 <= k < n ==> y[k] == name[k] && name[k] != 0;
  }

  lemma ShortLengthUnique(name: seq<byte>)
    ensures forall n: nat :: n <= |name| && 0 !in name[..n] && (n < |name| ==> name[n] == 0) ==> n == ShortLength(name)
  {
    var m := ShortLength(name);
    forall n: nat | n <= |name| && 0 !in name[..n] && (n < |name| ==> name[n] == 0)
      ensures n == m
    {
      PrefixesWithoutZero(name, m, n);
    }
  }

  /** `coff_read4`: four bytes, the least significant first. */
  lemma FourBytes(b: seq<byte>)
    requires |b| == 4
    ensures FromBytes(b, false) == b[0] as int + 0x100 * b[1] as int + 0x1_0000 * b[2] as int + 0x100_0000 * b[3] as int
  {
    hide FromBytes;
    OneByteMore(b, false);
    OneByteMore(b[1..], false);
    OneByteMore(b[2..], false);
    OneByteMore(b[3..], false);
    assert b[1..][1..] == b[2..] && b[2..][1..] == b[3..] && b[3..][1..] == [];
    NoBytes(0, false);
  }

  /** Which entries are refused, by the numbers that stand in them. */
  lemma ExpandsIff(f: File, s: External)
    requires ExternalOk(s)
    ensures var b0: nat, b1: nat, b2: nat, b3: nat := s.name[4], s.name[5], s.name[6], s.name[7];
            var offset := b0 + 0x100 * b1 + 0x1_0000 * b2 + 0x100_0000 * b3;
            Offset(s) == offset && (Expands(f, s) <==>
              && (s.section == 0 || s.section >= 0x8000 || s.section <= |f.sections| % 0x1_0000)
              && (s.name[0] != 0 || offset < |f.strtab|))
  {
    hide FromBytes;
    FourBytes(s.name[4..]);
  }

  /** `coff_expand_symbol`: where a long name is, and whether the section and the string exist. */
  method ExpandSymbol(f: File, s: External) returns (ok: bool, at: nat)
    requires ExternalOk(s)
    ensures ok <==> Expands(f, s)
    ensures !IsShort(s) ==> at == Offset(s)
  {
    hide Offset, Expands;
    ExpandsIff(f, s);
    var sec := if s.section < 0x8000 then s.section else s.section - 0x1_0000;
    at := 0;
    if sec > 0 && s.section > |f.sections| % 0x1_0000 {
      ok := false;
    } else {
      ok := true;
    }
    if s.name[0] == 0 {
      at := s.name[4] as int + 0x100 * s.name[5] as int + 0x1_0000 * s.name[6] as int + 0x100_0000 * s.name[7] as int;
      ok := ok && at < |f.strtab|;
    }
  }

  /** `coff_is_function_symbol` */
  method IsFunctionSymbol(s: External) returns (yes: bool)
    requires ExternalOk(s)
    ensures yes <==> IsFunction(s)
    ensures yes <==> 0x20 <= s.kind <= 0x2f && 0 < s.section < 0x8000
  {
    var sec := if s.section < 0x8000 then s.section else s.section - 0x1_0000;
    yes := s.kind / 16 == 2 && sec > 0;
  }

  /** The first pass; it stops at an entry that does not expand. */
  method Count(f: File, syms: seq<External>) returns (ok: bool, count: nat, length: nat)
    requires AllExternal(syms)
    ensures AllExternal(Visited(syms)) && AllExternal(Functions(Visited(syms)))
    ensures ok <==> AllExpand(f, Visited(syms))
    ensures ok ==> count == |Functions(Visited(syms))| && length == |Arena(Functions(Visited(syms)))|
  {
    hide Visited, Walk, Functions, Arena, Expands;
    VisitedExternal(syms);
    FunctionsExternal(Visited(syms));
    FunctionsNone();
    WalkBegins(syms);
    count, length := 0, 0;
    var i: nat := 0;
    ghost var seen: seq<External> := [];
    while i < |syms|
      invariant Walked(syms, seen, i) && AllExternal(seen) && AllExternal(Functions(seen))
      invariant forall s :: s in seen ==> Expands(f, s)
      invariant count == |Functions(seen)| && length == |Arena(Functions(seen))|
      decreases |syms| - i
    {
      var s := syms[i];
      WalkStep(syms, seen, i);
      var expands, _ := ExpandSymbol(f, s);
      if !expands {
        return false, count, length;
      }
      FunctionsAppend(seen, s);
      FunctionsExternal(seen + [s]);
      var isFunction := IsFunctionSymbol(s);
      if isFunction {
        ArenaAppend(Functions(seen), s);
        count := count + 1;
        if s.name[0] != 0 {
          var n := ShortNameLength(s.name);
          length := length + n + 1;
        }
      } else {
        assert Functions(seen) + [] == Functions(seen);
      }
      seen := seen + [s];
      i := i + s.aux + 1;
    }
    WalkEnds(syms, seen, i);
    ok := true;
  }

  lemma WalkEnds(syms: seq<External>, seen: seq<External>, i: nat)
    requires Walked(syms, seen, i) && i >= |syms|
    ensures seen == Visited(syms)
  {
  }

  lemma WalkBegins(syms: seq<External>)
    ensures Walked(syms, [], 0)
  {
  }

  lemma FunctionsNone()
    ensures Functions([]) == [] && Arena([]) == []
  {
  }

  /** A symbol stays one while more names are copied behind its own. */
  lemma SymbolStays(f: File, kept: seq<External>, x: External, k: nat, sym: Symbol)
    requires AllExternal(kept + [x]) && AllExternal(kept) && AllKept(f, kept + [x]) && AllKept(f, kept)
    requires k < |kept| && IsSymbolOf(f, kept, Arena(kept), k, sym)
    ensures IsSymbolOf(f, kept + [x], Arena(kept + [x]), k, sym)
  {
    hide Arena, Address, Expands, ShortName, NameAt, Segment, AllExternal, AllKept, Stripped, ExternalOk, IsShort, Offset;
    ArenaAppend(kept, x);
    var longer := kept + [x];
    assert longer[k] == kept[k];
    SegmentStays(kept, x, k);
    SegmentStays(kept, x, k + 1);
    if sym.name.InArena? {
      forall text | NameAt(Arena(kept), sym.name.at, text)
        ensures NameAt(Arena(longer), sym.name.at, text)
      {
        NameStays(Arena(kept), Copied(x), sym.name.at, text);
      }
    }
  }

  lemma SegmentStays(kept: seq<External>, x: External, k: nat)
    requires AllExternal(kept + [x]) && AllExternal(kept) && k <= |kept|
    ensures Segment(kept + [x], k) == Segment(kept, k)
  {
    assert (kept + [x])[..k] == kept[..k];
  }

  lemma NameStays(arena: seq<byte>, more: seq<byte>, at: nat, text: seq<byte>)
    requires NameAt(arena, at, text)
    ensures NameAt(arena + more, at, text)
  {
    assert (arena + more)[at..at + |text|] == arena[at..at + |text|];
  }

  lemma KeptPrefix(f: File, kept: seq<External>, x: External)
    requires AllExternal(kept) && AllKept(f, kept) && ExternalOk(x) && IsFunction(x) && Expands(f, x)
    ensures AllExternal(kept + [x]) && AllKept(f, kept + [x])
  {
    var longer := kept + [x];
    assert forall k :: 0 <= k < |longer| ==> longer[k] == if k < |kept| then kept[k] else x;
  }

  /** The symbol of the entry that was just copied. */
  lemma LastSymbol(f: File, kept: seq<External>, x: External, sym: Symbol)
    requires AllExternal(kept + [x]) && AllExternal(kept) && AllKept(f, kept + [x]) && ExternalOk(x)
    requires IsFunction(x) && Expands(f, x) && sym.address == Address(f, x)
    requires sym.name == NewName(f, x, |Arena(kept)|)
    ensures IsSymbolOf(f, kept + [x], Arena(kept + [x]), |kept|, sym)
  {
    hide Arena, Address, Expands, ShortLength;
    ArenaAppend(kept, x);
    var longer := kept + [x];
    assert longer[|kept|] == x && longer[..|kept|] == kept && longer[..|kept| + 1] == longer;
    if IsShort(x) {
      NewNameInArena(Arena(kept), ShortName(x));
      assert ShortLength(x.name) > 0;
    }
  }

  /** The pointer that is stored: behind the names copied before, and behind an underscore. */
  function NewName(f: File, x: External, at: nat): Name
    requires ExternalOk(x) && Expands(f, x)
  {
    if IsShort(x) then InArena(if ShortName(x) != [] && ShortName(x)[0] == UNDERSCORE then at + 1 else at)
    else InStrings(if f.strtab[Offset(x)] == UNDERSCORE then Offset(x) + 1 else Offset(x))
  }

  lemma NewNameInArena(before: seq<byte>, text: seq<byte>)
    requires 0 !in text
    ensures var at: nat := if text != [] && text[0] == UNDERSCORE then |before| + 1 else |before|;
            && NameAt(before + (text + [0]), at, Stripped(text))
            && at + |Stripped(text)| < |before| + |text| + 1
  {
    hide NameAt;
    TextAt(before, text, if text != [] && text[0] == UNDERSCORE then 1 else 0);
  }

  /** A text, with or without its first byte, and the zero byte behind it. */
  lemma TextAt(before: seq<byte>, text: seq<byte>, skip: nat)
    requires 0 !in text && skip <= |text|
    ensures NameAt(before + (text + [0]), |before| + skip, text[skip..])
  {
    Inside(before, text, skip);
    NoZeroLeft(text, skip);
  }

  lemma NoZeroLeft(text: seq<byte>, skip: nat)
    requires 0 !in text && skip <= |text|
    ensures 0 !in text[skip..]
  {
  }

  lemma Inside(before: seq<byte>, text: seq<byte>, skip: nat)
    requires skip <= |text|
    ensures (before + (text + [0]))[|before| + skip..|before| + |text|] == text[skip..]
    ensures (before + (text + [0]))[|before| + |text|] == 0
  {
    var all := before + (text + [0]);
    assert forall k :: skip <= k < |text| ==> all[|before| + k] == text[k];
  }

  /** Copy a short name and its zero byte. */
  method CopyName(arena: array<byte>, at: nat, name: seq<byte>, n: nat)
    requires n <= |name| && at + n < arena.Length
    modifies arena
    ensures arena[..at + n + 1] == old(arena[..at]) + (name[..n] + [0])
  {
    var k: nat := 0;
    while k < n
      invariant k <= n && arena[..at + k] == old(arena[..at]) + name[..k]
    {
      arena[at + k] := name[k];
      assert arena[..at + k + 1] == arena[..at + k] + [name[k]];
      assert name[..k + 1] == name[..k] + [name[k]];
      k := k + 1;
    }
    arena[at + n] := 0;
    assert arena[..at + n + 1] == arena[..at + n] + [0];
  }

  ghost predicate AllSymbols(f: File, kept: seq<External>, symbols: seq<Symbol>) {
    && AllExternal(kept) && AllKept(f, kept) && |symbols| == |kept|
    && forall k :: 0 <= k < |kept| ==> IsSymbolOf(f, kept, Arena(kept), k, symbols[k])
  }

  lemma AddSymbol(f: File, kept: seq<External>, x: External, symbols: seq<Symbol>, sym: Symbol)
    requires AllSymbols(f, kept, symbols) && ExternalOk(x) && IsFunction(x) && Expands(f, x)
    requires sym == Symbol(NewName(f, x, |Arena(kept)|), Address(f, x))
    ensures AllSymbols(f, kept + [x], symbols + [sym])
  {
    hide IsSymbolOf, Arena, NewName, Address, AllKept, AllExternal, Expands;
    KeptPrefix(f, kept, x);
    LastSymbol(f, kept, x, sym);
    var longer := symbols + [sym];
    forall k | 0 <= k < |kept| + 1
      ensures IsSymbolOf(f, kept + [x], Arena(kept + [x]), k, longer[k])
    {
      if k < |kept| {
        assert longer[k] == symbols[k];
        SymbolStays(f, kept, x, k, symbols[k]);
      }
    }
  }

  /** What has been kept of a walk so far is the beginning of what is kept of all of it. */
  lemma KeptSoFar(syms: seq<External>, seen: seq<External>, i: nat)
    requires Walked(syms, seen, i) && AllExternal(syms)
    ensures AllExternal(Functions(seen)) && AllExternal(Functions(Visited(syms)))
    ensures |Functions(seen)| <= |Functions(Visited(syms))|
    ensures |Arena(Functions(seen))| <= |Arena(Functions(Visited(syms)))|
  {
    hide Functions, Visited, Walk, Arena, ExternalOk;
    WalkExternal(syms, i, seen);
    var rest := Visited(syms)[|seen|..];
    assert Visited(syms) == seen + rest;
    FunctionsExternal(seen);
    FunctionsExternal(Visited(syms));
    FunctionsPrefix(seen, rest);
    ArenaPrefix(Functions(seen), Functions(rest));
  }

  /** The second pass: it uses exactly the memory that the first one counted. */
  method Fill(f: File, syms: seq<External>, symbols: array<Symbol>, arena: array<byte>)
    requires AllExternal(syms) && AllExternal(Functions(Visited(syms))) && AllExternal(Visited(syms))
    requires AllExpand(f, Visited(syms))
    requires symbols.Length == |Functions(Visited(syms))| + 1 && arena.Length == |Arena(Functions(Visited(syms)))|
    modifies symbols, arena
    ensures arena[..] == Arena(Functions(Visited(syms)))
    ensures AllSymbols(f, Functions(Visited(syms)), symbols[..symbols.Length - 1])
    ensures symbols[symbols.Length - 1] == SENTINEL
  {
    hide Visited, Walk, Functions, Arena, Expands, AllSymbols, Address, NewName, ShortLength, IsSymbolOf;
    ghost var seen: seq<External> := [];
    ghost var kept: seq<External> := [];
    FunctionsNone();
    WalkBegins(syms);
    NoSymbols(f, symbols[..0]);
    var n: nat := 0;
    var at: nat := 0;
    var i: nat := 0;
    while i < |syms|
      invariant Walked(syms, seen, i) && kept == Functions(seen)
      invariant n == |kept| < symbols.Length
      invariant AllSymbols(f, kept, symbols[..n]) && AllExternal(kept)
      invariant at == |Arena(kept)| <= arena.Length && arena[..at] == Arena(kept)
      decreases |syms| - i
    {
      var s := syms[i];
      WalkStep(syms, seen, i);
      FunctionsAppend(seen, s);
      KeptSoFar(syms, seen + [s], i + 1 + s.aux);
      assert Expands(f, s);
      var isFunction := IsFunctionSymbol(s);
      if isFunction {
        ArenaAppend(kept, s);
        SectionExists(f, s);
        var name;
        name, at := StoreName(f, s, arena, at);
        var address := ((s.value + f.sections[s.section - 1]) % 0x1_0000_0000 + f.base) % WORD;
        AddressIs(f, s);
        AddSymbol(f, kept, s, symbols[..n], Symbol(name, address));
        symbols[n] := Symbol(name, address);
        assert symbols[..n + 1] == symbols[..n] + [symbols[n]];
        n := n + 1;
        kept := kept + [s];
      } else {
        assert kept + [] == kept;
      }
      seen := seen + [s];
      i := i + s.aux + 1;
    }
    WalkEnds(syms, seen, i);
    symbols[n] := SENTINEL;
    assert arena[..at] == arena[..];
  }

  lemma SectionExists(f: File, s: External)
    requires ExternalOk(s) && IsFunction(s) && Expands(f, s)
    ensures 0 < s.section <= |f.sections|
  {
  }

  lemma AddressIs(f: File, s: External)
    requires ExternalOk(s) && IsFunction(s) && Expands(f, s) && 0 < s.section <= |f.sections|
    ensures Address(f, s) == ((s.value + f.sections[s.section - 1]) % 0x1_0000_0000 + f.base) % WORD
  {
  }

  /** Copy the name if it is a short one, and point behind a leading underscore. */
  method StoreName(f: File, s: External, arena: array<byte>, at: nat) returns (name: Name, end: nat)
    requires ExternalOk(s) && Expands(f, s) && at + |Copied(s)| <= arena.Length
    modifies arena
    ensures name == NewName(f, s, at) && end == at + |Copied(s)|
    ensures arena[..end] == old(arena[..at]) + Copied(s)
  {
    hide ShortLength, Offset;
    Facts(f, s);
    var _, off := ExpandSymbol(f, s);
    if s.name[0] != 0 {
      var len := ShortNameLength(s.name);
      CopyName(arena, at, s.name, len);
      assert arena[at] == arena[..at + len + 1][at] == s.name[0];
      name := InArena(at);
      end := at + len + 1;
      if arena[at] == UNDERSCORE {
        name := InArena(at + 1);
      }
    } else {
      name := InStrings(off);
      end := at;
      if f.strtab[off] == UNDERSCORE {
        name := InStrings(off + 1);
      }
    }
  }

  lemma NoSymbols(f: File, none: seq<Symbol>)
    requires none == []
    ensures AllSymbols(f, [], none)
  {
  }

  lemma Facts(f: File, s: External)
    requires ExternalOk(s)
    ensures Copied(s) == if s.name[0] != 0 then s.name[..ShortLength(s.name)] + [0] else []
    ensures s.name[0] != 0 ==> ShortLength(s.name) > 0
  {
  }

  /** `coff_symbol_compare`. */
  predicate Before(a: Symbol, b: Symbol) {
    a.address < b.address
  }

  /** `coff_initialize_syminfo`: the table and the copied names, unless an entry does not expand. */
  method ReadSymbols(f: File, syms: seq<External>)
    returns (ok: bool, table: seq<Symbol>, arena: seq<byte>, ghost unsorted: seq<Symbol>)
    requires AllExternal(syms)
    ensures AllExternal(Visited(syms)) && AllExternal(Functions(Visited(syms)))
    ensures ok <==> AllExpand(f, Visited(syms))
    ensures ok ==> AllSymbols(f, Functions(Visited(syms)), unsorted) && arena == Arena(Functions(Visited(syms)))
    ensures ok ==> table == Sort(Before, unsorted) + [SENTINEL] && forall s :: s in unsorted ==> s.address <= HIGHEST
  {
    hide AllSymbols, Arena, Functions, Visited, AllExternal, AllExpand, Sort;
    table, arena, unsorted := [], [], [];
    var count, length;
    ok, count, length := Count(f, syms);
    if !ok {
      return;
    }
    var symbols := new Symbol[count + 1](_ => SENTINEL);
    var copies := new byte[length](_ => 0);
    Fill(f, syms, symbols, copies);
    unsorted := symbols[..count];
    AddressesFit(f, Functions(Visited(syms)), unsorted);
    table := Sort(Before, symbols[..count]) + [symbols[count]];
    arena := copies[..];
  }

  /** `coff_symbol_search`. */
  function SymbolSearch(addr: nat, table: seq<Symbol>, i: nat): int
    requires i + 1 < |table|
  {
    if addr < table[i].address then -1 else if addr >= table[i + 1].address then 1 else 0
  }

  /** A symbol of the greatest address not above `addr`. */
  ghost predicate Nearest(symbols: seq<Symbol>, addr: nat, found: Option<Symbol>) {
    match found
    case None => forall s :: s in symbols ==> addr < s.address
    case Some(best) =>
      && best in symbols && best.address <= addr
      && forall s :: s in symbols && s.address <= addr ==> s.address <= best.address
  }

  /** The symbols by rising address, and one more entry that is not below them. */
  ghost predicate IsTable(symbols: seq<Symbol>, table: seq<Symbol>) {
    && (forall i, j :: 0 <= i < j < |table| ==> table[i].address <= table[j].address)
    && SameSymbols(symbols, table)
  }

  ghost predicate SameSymbols(symbols: seq<Symbol>, table: seq<Symbol>) {
    && (forall i :: 0 <= i < |table| - 1 ==> table[i] in symbols)
    && (forall s :: s in symbols ==> exists i :: 0 <= i < |table| - 1 && table[i] == s)
  }

  lemma TableMembers(symbols: seq<Symbol>, table: seq<Symbol>)
    requires table == Sort(Before, symbols) + [SENTINEL]
    ensures SameSymbols(symbols, table)
  {
    SortMembers(Before, symbols);
    var sorted := Sort(Before, symbols);
    hide Sort, Before;
    forall i | 0 <= i < |table| - 1
      ensures table[i] in symbols
    {
      assert table[i] == sorted[i] && sorted[i] in sorted;
    }
    forall s | s in symbols
      ensures exists i :: 0 <= i < |table| - 1 && table[i] == s
    {
      assert s in sorted;
      var i :| 0 <= i < |sorted| && sorted[i] == s;
      assert table[i] == s;
    }
  }

  /** The table that is read is one to search in. */
  lemma TableRises(symbols: seq<Symbol>, table: seq<Symbol>)
    requires table == Sort(Before, symbols) + [SENTINEL] && forall s :: s in symbols ==> s.address <= HIGHEST
    ensures IsTable(symbols, table) && |table| == |symbols| + 1 && table[|symbols|] == SENTINEL
  {
    hide Sort, SameSymbols;
    SortIsSorted(Before, symbols);
    SortMembers(Before, symbols);
    TableMembers(symbols, table);
    var sorted := Sort(Before, symbols);
    forall i, j | 0 <= i < j < |table|
      ensures table[i].address <= table[j].address
    {
      assert table[i] == sorted[i] && sorted[i] in sorted;
      assert j < |sorted| ==> table[j] == sorted[j];
    }
  }

  /** Binary search in any table of the symbols, whatever the order of those with equal addresses. */
  method FindSymbol(table: seq<Symbol>, addr: nat, ghost symbols: seq<Symbol>) returns (found: Option<Symbol>)
    requires IsTable(symbols, table) && table != [] && table[|table| - 1] == SENTINEL && addr < HIGHEST
    ensures Nearest(symbols, addr, found)
  {
    hide Nearest, IsTable;
    var lo: nat, hi: nat := 0, |table| - 1;
    while lo < hi
      invariant lo <= hi <= |table| - 1
      invariant lo > 0 ==> table[lo].address <= addr
      invariant addr < table[hi].address
    {
      var mid := (lo + hi) / 2;
      var c := SymbolSearch(addr, table, mid);
      if c < 0 {
        hi := mid;
      } else if c > 0 {
        lo := mid + 1;
      } else {
        found := Some(table[mid]);
        FoundNearest(symbols, table, addr, mid);
        return;
      }
    }
    found := None;
    NoneNearest(symbols, table, addr);
  }

  lemma FoundNearest(symbols: seq<Symbol>, table: seq<Symbol>, addr: nat, i: nat)
    requires IsTable(symbols, table)
    requires i + 1 < |table| && table[i].address <= addr < table[i + 1].address
    ensures Nearest(symbols, addr, Some(table[i]))
  {
    forall s | s in symbols && s.address <= addr
      ensures s.address <= table[i].address
    {
      var k :| 0 <= k < |table| - 1 && table[k] == s;
      var next, there := table[i + 1].address, table[k].address;
      assert k > i + 1 ==> next <= there;
    }
  }

  lemma NoneNearest(symbols: seq<Symbol>, table: seq<Symbol>, addr: nat)
    requires IsTable(symbols, table)
    requires |table| > 0 && addr < table[0].address
    ensures Nearest(symbols, addr, None)
  {
    forall s | s in symbols
      ensures addr < s.address
    {
      var k :| 0 <= k < |table| - 1 && table[k] == s;
      assert k > 0 ==> table[0].address <= table[k].address;
    }
  }

  /** The addresses of the symbols fit in 64 bits, so that the search applies to what was read. */
  lemma AddressesFit(f: File, kept: seq<External>, symbols: seq<Symbol>)
    requires AllSymbols(f, kept, symbols)
    ensures forall s :: s in symbols ==> s.address <= HIGHEST
  {
    assert forall k :: 0 <= k < |symbols| ==> symbols[k].address == Address(f, kept[k]) <= HIGHEST;
  }

  /** A walk from a later entry on, or with more entries seen before, comes to the same entries. */
  lemma {:induction false} WalkShifted(before: seq<External>, syms: seq<External>, i: nat, seen: seq<External>)
    ensures Walk(before + syms, |before| + i, seen) == seen + Walk(syms, i, [])
    decreases |syms| - i
  {
    if i < |syms| {
      var next: nat := i + 1 + syms[i].aux;
      assert (before + syms)[|before| + i] == syms[i];
      WalkShifted(before, syms, next, seen + [syms[i]]);
      WalkFrom(syms, next, [syms[i]]);
      assert [] + [syms[i]] == [syms[i]];
    }
  }

  lemma {:induction false} WalkFrom(syms: seq<External>, i: nat, seen: seq<External>)
    ensures Walk(syms, i, seen) == seen + Walk(syms, i, [])
    decreases |syms| - i
  {
    if i < |syms| {
      var next: nat := i + 1 + syms[i].aux;
      WalkFrom(syms, next, seen + [syms[i]]);
      WalkFrom(syms, next, [syms[i]]);
      assert [] + [syms[i]] == [syms[i]];
    }
  }

  /** An entry is visited and its auxiliary entries are not. */
  lemma VisitedFirst(s: External, auxiliary: seq<External>, rest: seq<External>)
    requires |auxiliary| == s.aux
    ensures Visited([s] + auxiliary + rest) == [s] + Visited(rest)
  {
    var before := [s] + auxiliary;
    var syms := before + rest;
    assert syms[0] == s && [] + [s] == [s];
    WalkShifted(before, rest, 0, [s]);
  }

  /** Auxiliary entries that the table has no room for change nothing. */
  lemma VisitedLast(s: External, auxiliary: seq<External>)
    requires |auxiliary| <= s.aux
    ensures Visited([s] + auxiliary) == [s] && Visited([]) == []
  {
    var syms := [s] + auxiliary;
    assert syms[0] == s && [] + [s] == [s];
    assert Walk(syms, 1 + s.aux, [s]) == [s];
  }

  lemma {:induction false} FunctionKept(seen: seq<External>, s: External)
    requires s in seen && IsFunction(s)
    ensures s in Functions(seen)
  {
    if seen[0] != s {
      FunctionKept(seen[1..], s);
    }
  }

  lemma SymbolAddress(f: File, kept: seq<External>, symbols: seq<Symbol>, k: nat)
    requires AllSymbols(f, kept, symbols) && k < |kept|
    ensures 0 < kept[k].section <= |f.sections|
    ensures symbols[k].address == ((kept[k].value + f.sections[kept[k].section - 1]) % 0x1_0000_0000 + f.base) % WORD
    ensures kept[k].name[0] == 0 ==>
      symbols[k].name == InStrings(Offset(kept[k]) + if f.strtab[Offset(kept[k])] == UNDERSCORE then 1 else 0)
  {
    hide Arena, NameAt, Segment, ShortName, Stripped, Offset;
    assert IsSymbolOf(f, kept, Arena(kept), k, symbols[k]);
    SectionExists(f, kept[k]);
    AddressIs(f, kept[k]);
  }

  lemma NoWrap(value: nat, section: nat, base: nat)
    requires section + value < 0x1_0000_0000 && base + section + value < WORD
    ensures ((value + section) % 0x1_0000_0000 + base) % WORD == base + section + value
  {
  }

  /** Every function entry has a symbol of its own address, if the addresses do not wrap around. */
  lemma FunctionHasSymbol(f: File, kept: seq<External>, symbols: seq<Symbol>, s: External)
    requires AllSymbols(f, kept, symbols) && s in kept && 0 < s.section <= |f.sections|
    requires f.sections[s.section - 1] + s.value < 0x1_0000_0000 && f.base + f.sections[s.section - 1] + s.value < WORD
    ensures exists sym :: sym in symbols && sym.address == f.base + f.sections[s.section - 1] + s.value
  {
    hide IsSymbolOf;
    var k :| 0 <= k < |kept| && kept[k] == s;
    SymbolAddress(f, kept, symbols, k);
    NoWrap(s.value, f.sections[s.section - 1], f.base);
    assert symbols[k] in symbols;
  }

  /** Reads the symbols and looks for the address of a function: a symbol of just that address is found. */
  method FindFunction(f: File, syms: seq<External>, s: External) returns (ok: bool, found: Option<Symbol>)
    requires AllExternal(syms) && s in Visited(syms) && 0x20 <= s.kind <= 0x2f && 0 < s.section < 0x8000
    requires s.section <= |f.sections| && f.sections[s.section - 1] + s.value < 0x1_0000_0000
    requires f.base + f.sections[s.section - 1] + s.value < WORD - 1
    ensures AllExternal(Visited(syms)) && (ok <==> AllExpand(f, Visited(syms)))
    ensures ok ==> found.Some? && found.value.address == f.base + f.sections[s.section - 1] + s.value
  {
    hide AllSymbols, Arena, Functions, Visited, AllExternal, AllExpand, Sort, IsTable, Nearest;
    found := None;
    var table;
    ghost var arena, unsorted;
    ok, table, arena, unsorted := ReadSymbols(f, syms);
    if ok {
      FunctionKept(Visited(syms), s);
      FunctionHasSymbol(f, Functions(Visited(syms)), unsorted, s);
      TableRises(unsorted, table);
      found := FindSymbol(table, f.base + f.sections[s.section - 1] + s.value, unsorted);
      NearestIsExact(unsorted, f.base + f.sections[s.section - 1] + s.value, found);
    }
  }

  lemma NearestIsExact(symbols: seq<Symbol>, addr: nat, found: Option<Symbol>)
    requires Nearest(symbols, addr, found) && exists sym :: sym in symbols && sym.address == addr
    ensures found.Some? && found.value.address == addr
  {
  }

  /** The file with section `n` at another address. */
  function Moved(f: File, n: nat, d: nat): File
    requires 0 < n <= |f.sections|
  {
    f.(sections := f.sections[n - 1 := f.sections[n - 1] + d])
  }

  /** Moving a section moves its own symbols by as much, and no others; the names stay. */
  lemma SectionMoved(f: File, n: nat, d: nat, kept: seq<External>, a: seq<Symbol>, b: seq<Symbol>, k: nat)
    requires 0 < n <= |f.sections| && AllSymbols(f, kept, a) && AllSymbols(Moved(f, n, d), kept, b) && k < |kept|
    requires kept[k].section == n ==> f.sections[n - 1] + d + kept[k].value < 0x1_0000_0000
    requires kept[k].section == n ==> f.base + f.sections[n - 1] + d + kept[k].value < WORD
    ensures b[k].address == a[k].address + if kept[k].section == n then d else 0
    ensures kept[k].name[0] == 0 ==> b[k].name == a[k].name
  {
    hide IsSymbolOf, Offset;
    var s, g := kept[k], Moved(f, n, d);
    SymbolAddress(f, kept, a, k);
    SymbolAddress(g, kept, b, k);
    if s.section == n {
      NoWrap(s.value, f.sections[n - 1], f.base);
      NoWrap(s.value, f.sections[n - 1] + d, f.base);
    }
  }

  /** Three entries: a short name with one auxiliary entry behind it, and a long name. */
  function SmallTable(): seq<External> {
    [External([0x5f, 0x6d, 0x61, 0x69, 0x6e, 0, 0, 0], 0x20, 1, 0x20, 1),
     External([0xff, 0xff, 0xff, 0xff, 0xff, 0xff, 0xff, 0xff], 7, 9, 0x20, 0),
     External([0, 0, 0, 0, 4, 0, 0, 0], 0x10, 2, 0x20, 0)]
  }

  /** Two sections, and the string "ab" at offset 4. */
  function SmallFile(): File {
    File([0x1000, 0x2000], [7, 0, 0, 0, 0x61, 0x62, 0], 0x40_0000)
  }

  lemma SmallVisited()
    ensures Visited(SmallTable()) == [SmallTable()[0], SmallTable()[2]]
    ensures Functions(Visited(SmallTable())) == [SmallTable()[0], SmallTable()[2]]
  {
    hide Visited;
    var a, b, c := SmallTable()[0], SmallTable()[1], SmallTable()[2];
    VisitedFirst(a, [b], [c]);
    VisitedLast(c, []);
    assert [a] + [b] + [c] == SmallTable() && [c] + [] == [c];
    assert [a, c][1..] == [c] && [c][1..] == [];
  }

  lemma SmallOk()
    ensures AllExternal(SmallTable()) && AllExternal(Visited(SmallTable()))
    ensures AllExpand(SmallFile(), Visited(SmallTable()))
    ensures Offset(SmallTable()[2]) == 4
  {
    hide Visited, Offset;
    SmallVisited();
    ExpandsIff(SmallFile(), SmallTable()[0]);
    ExpandsIff(SmallFile(), SmallTable()[2]);
  }

  lemma SmallArena()
    ensures AllExternal([SmallTable()[0], SmallTable()[2]])
    ensures Arena([SmallTable()[0], SmallTable()[2]]) == [0x5f, 0x6d, 0x61, 0x69, 0x6e, 0]
    ensures ShortName(SmallTable()[0]) == [0x5f, 0x6d, 0x61, 0x69, 0x6e]
  {
    hide ShortLength, Arena;
    var a, c := SmallTable()[0], SmallTable()[2];
    var text: seq<byte> := [0x5f, 0x6d, 0x61, 0x69, 0x6e];
    assert a.name[..5] == text && 0 !in text && a.name[5] == 0;
    ShortLengthUnique(a.name);
    FunctionsNone();
    ArenaAppend([], a);
    ArenaAppend([a], c);
    assert [] + [a] == [a] && [a] + [c] == [a, c];
  }

  /** What is read from this table: the first symbol is called "main", the second one "ab". */
  lemma SmallSymbols(symbols: seq<Symbol>)
    requires AllSymbols(SmallFile(), Functions(Visited(SmallTable())), symbols)
    ensures symbols == [Symbol(InArena(1), 0x40_1020), Symbol(InStrings(4), 0x40_2010)]
  {
    hide Visited, Functions, Offset, ShortLength, Arena;
    var f, a, c := SmallFile(), SmallTable()[0], SmallTable()[2];
    var kept := [a, c];
    SmallVisited();
    SmallOk();
    SmallArena();
    SymbolAddress(f, kept, symbols, 0);
    SymbolAddress(f, kept, symbols, 1);
    assert IsSymbolOf(f, kept, Arena(kept), 0, symbols[0]);
    NameStarts(Arena(kept), symbols[0].name.at);
  }

  lemma NameStarts(arena: seq<byte>, at: nat)
    requires arena == [0x5f, 0x6d, 0x61, 0x69, 0x6e, 0] && NameAt(arena, at, [0x6d, 0x61, 0x69, 0x6e])
    ensures at == 1
  {
    assert arena[at..at + 4][0] == arena[at];
  }
}
