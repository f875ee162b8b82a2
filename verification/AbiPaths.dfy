/** Display paths into ABI inputs: the enumeration of signed leaves against path lookup. */
module AbiPaths {
  import opened Basics
  import opened Abi

  type Path = seq<string>

  const ELEMENT := "[]"

  // ------------------------------------------------------------------ array types

  predicate Digit(c: char) { '0' <= c <= '9' }

  /** Start of the run of digits that ends before index `n`. */
  function DigitsStart(t: string, n: nat): (k: nat)
    requires n <= |t|
    ensures k <= n
  {
    if n > 0 && Digit(t[n - 1]) then DigitsStart(t, n - 1) else n
  }

  /** The element type of an array type: what precedes a final `[` digits `]`, on one line. */
  function ArrayBase(t: string): (r: Option<string>)
    ensures r.Some? ==> |r.value| < |t| && r.value <= t
  {
    if |t| < 2 || t[|t| - 1] != ']' then None
    else
      var k := DigitsStart(t, |t| - 1);
      if k == 0 || t[k - 1] != '[' || '\n' in t[..k - 1] then None else Some(t[..k - 1])
  }

  lemma {:induction false} DigitsRun(t: string, n: nat)
    requires n <= |t|
    ensures var k := DigitsStart(t, n);
            (forall i :: k <= i < n ==> Digit(t[i])) && (k == 0 || !Digit(t[k - 1]))
  {
    if n > 0 && Digit(t[n - 1]) { DigitsRun(t, n - 1); }
  }

  predicate Digits(s: string) { forall i :: 0 <= i < |s| ==> '0' <= s[i] <= '9' }

  lemma BaseFound(t: string)
    requires ArrayBase(t).Some?
    ensures var base := ArrayBase(t).value;
            && '\n' !in base && |base| < |t| - 1 && t == base + "[" + t[|base| + 1..|t| - 1] + "]"
            && Digits(t[|base| + 1..|t| - 1])
  {
    DigitsRun(t, |t| - 1);
  }

  lemma BaseRead(base: string, size: string)
    requires Digits(size) && '\n' !in base
    ensures ArrayBase(base + "[" + size + "]") == Some(base)
  {
    hide DigitsStart;
    var t := base + "[" + size + "]";
    var k, open := DigitsStart(t, |t| - 1), |base|;
    DigitsRun(t, |t| - 1);
    assert t[open] == '[' && t[|t| - 1] == ']' && !Digit('[');
    forall i | open < i < |t| - 1 ensures Digit(t[i]) { assert t[i] == size[i - open - 1]; }
    assert k == open + 1;
    assert t[..open] == base;
  }

  /** What an array type is: any text without a line break, then digits in brackets, or none. */
  lemma ArrayBaseIff(t: string, base: string)
    ensures ArrayBase(t) == Some(base) <==> '\n' !in base && exists size :: Digits(size) && t == base + "[" + size + "]"
  {
    hide ArrayBase, Digits;
    if ArrayBase(t).Some? { BaseFound(t); }
    if size :| '\n' !in base && Digits(size) && t == base + "[" + size + "]" { BaseRead(base, size); }
  }

  // ------------------------------------------------------------------ names

  function Decimal(n: nat): string {
    (if n < 10 then "" else Decimal(n / 10)) + [('0' as int + n % 10) as char]
  }

  function ComponentName(c: Input, index: nat): string {
    if c.name != "" then c.name else "component" + Decimal(index)
  }

  function ReadDecimal(s: string): int {
    if s == "" then 0 else 10 * ReadDecimal(s[..|s| - 1]) + (s[|s| - 1] as int - '0' as int)
  }

  /** The number of an unnamed component is written in decimal, without a leading zero. */
  lemma {:induction false} DecimalIsRead(n: nat)
    ensures Decimal(n) != "" && ReadDecimal(Decimal(n)) == n && (n > 0 ==> Decimal(n)[0] != '0')
    ensures forall i :: 0 <= i < |Decimal(n)| ==> Digit(Decimal(n)[i])
  {
    if n >= 10 { DecimalIsRead(n / 10); }
    var front := if n < 10 then "" else Decimal(n / 10);
    assert Decimal(n)[..|Decimal(n)| - 1] == front;
  }

  predicate Letter(c: char) { 'a' <= c <= 'z' || 'A' <= c <= 'Z' || c == '_' || c == '$' }

  predicate Identifier(s: string) {
    s != "" && Letter(s[0]) && forall i :: 1 <= i < |s| ==> Letter(s[i]) || Digit(s[i])
  }

  /** Stable names: identifiers, unique among siblings, at every level of every tuple. */
  predicate ValidInputs(comps: Components)
    decreases comps, 1
  {
    match comps
    case Absent => false
    case Listed(cs) =>
      && (forall i :: 0 <= i < |cs| ==> Identifier(cs[i].name))
      && (forall i, j :: 0 <= i < j < |cs| ==> cs[i].name != cs[j].name)
      && (forall i :: 0 <= i < |cs| ==> IsTuple(cs[i].typ) ==> ValidInputs(cs[i].components))
  }

  ghost predicate ValidInput(i: Input) { IsTuple(i.typ) ==> ValidInputs(i.components) }

  // ------------------------------------------------------------------ enumeration and lookup

  /** Every independently signed leaf below an input, as a path starting with `prefix`. */
  function LeafPaths(i: Input, prefix: Path): seq<Path>
    decreases i.components, 1 + |i.typ|, 0
  {
    var base := ArrayBase(i.typ);
    if base.Some? then LeafPaths(i.(typ := base.value), prefix + [ELEMENT])
    else if IsTuple(i.typ) && i.components.Listed? && i.components.inputs != [] then LeafPathsFrom(i.components, 0, prefix)
    else [prefix]
  }

  function LeafPathsFrom(comps: Components, n: nat, prefix: Path): seq<Path>
    requires comps.Listed? && n <= |comps.inputs|
    decreases comps, 0, |comps.inputs| - n
  {
    if n == |comps.inputs| then []
    else
      LeafPaths(comps.inputs[n], prefix + [ComponentName(comps.inputs[n], n)]) + LeafPathsFrom(comps, n + 1, prefix)
  }

  function FindNamed(cs: seq<Input>, name: string): (r: Option<Input>)
    ensures r.Some? ==> r.value in cs && r.value.name == name
  {
    if cs == [] then None else if cs[0].name == name then Some(cs[0]) else FindNamed(cs[1..], name)
  }

  /** The dictionary of a function's inputs by name: of several under one name, the last. */
  function RootNamed(inputs: seq<Input>, name: string): (r: Option<Input>)
    ensures r.Some? ==> r.value in inputs && r.value.name == name
  {
    if inputs == [] then None
    else
      var n := |inputs| - 1;
      if inputs[n].name == name then Some(inputs[n]) else RootNamed(inputs[..n], name)
  }

  /** One step of lookup: an element of an array, or a named component of a tuple. */
  function Step(i: Input, segment: string): Option<Input> {
    if segment == ELEMENT then
      match ArrayBase(i.typ)
      case None => None
      case Some(base) => Some(i.(typ := base))
    else if !IsTuple(i.typ) then None
    else match i.components
      case Absent => None
      case Listed(cs) => FindNamed(cs, segment)
  }

  function PathTarget(i: Input, segments: Path): Option<Input>
    decreases |segments|
  {
    if segments == [] then Some(i)
    else match Step(i, segments[0])
      case None => None
      case Some(next) => PathTarget(next, segments[1..])
  }

  /** The loop that follows the segments one by one ends where the recursive lookup does. */
  method ResolvePath(i: Input, segments: Path) returns (r: Option<Input>)
    ensures r == PathTarget(i, segments)
  {
    var current := i;
    for n := 0 to |segments|
      invariant PathTarget(i, segments) == PathTarget(current, segments[n..])
    {
      var next := Step(current, segments[n]);
      assert segments[n..][0] == segments[n] && segments[n..][1..] == segments[n + 1..];
      if next.None? {
        return None;
      }
      current := next.value;
    }
    return Some(current);
  }

  /** A leaf: not an array, and a tuple only if it has no components. */
  predicate IsLeaf(i: Input) {
    ArrayBase(i.typ).None? && !(IsTuple(i.typ) && i.components.Listed? && i.components.inputs != [])
  }

  /** The leaves below an input, in ABI order, found without any path. */
  function Leaves(i: Input): seq<Input>
    decreases i.components, 1 + |i.typ|, 0
  {
    var base := ArrayBase(i.typ);
    if base.Some? then Leaves(i.(typ := base.value))
    else if IsTuple(i.typ) && i.components.Listed? && i.components.inputs != [] then LeavesFrom(i.components, 0)
    else [i]
  }

  function LeavesFrom(comps: Components, n: nat): seq<Input>
    requires comps.Listed? && n <= |comps.inputs|
    decreases comps, 0, |comps.inputs| - n
  {
    if n == |comps.inputs| then [] else Leaves(comps.inputs[n]) + LeavesFrom(comps, n + 1)
  }

  // ------------------------------------------------------------------ every leaf path resolves

  lemma {:induction false} FindUnique(cs: seq<Input>, m: nat)
    requires m < |cs| && forall i, j :: 0 <= i < j < |cs| ==> cs[i].name != cs[j].name
    ensures FindNamed(cs, cs[m].name) == Some(cs[m])
  {
    if m > 0 {
      FindUnique(cs[1..], m - 1);
      assert cs[0].name != cs[m].name;
    }
  }

  lemma {:induction false} RootUnique(inputs: seq<Input>, m: nat)
    requires m < |inputs| && forall i, j :: 0 <= i < j < |inputs| ==> inputs[i].name != inputs[j].name
    ensures RootNamed(inputs, inputs[m].name) == Some(inputs[m])
  {
    var n := |inputs| - 1;
    if m < n {
      RootUnique(inputs[..n], m);
      assert inputs[n].name != inputs[m].name;
    }
  }

  lemma IdentifierIsName(s: string)
    requires Identifier(s)
    ensures s != ELEMENT && s != "" && '.' !in s
  {
  }

  lemma TupleOfBase(i: Input)
    requires ValidInput(i) && ArrayBase(i.typ).Some?
    ensures ValidInput(i.(typ := ArrayBase(i.typ).value))
  {
    var base := ArrayBase(i.typ).value;
    if IsTuple(base) { assert i.typ[..|TUPLE|] == base[..|TUPLE|]; }
  }

  /** `p` extends `prefix` and the rest of it leads from `i` to `leaf`. */
  ghost predicate LeadsTo(i: Input, prefix: Path, p: Path, leaf: Input) {
    prefix <= p && PathTarget(i, p[|prefix|..]) == Some(leaf) && IsLeaf(leaf)
  }

  /** Each enumerated path resolves, through lookup, to its own leaf. */
  lemma {:induction false} LeafPathsResolve(i: Input, prefix: Path)
    requires ValidInput(i)
    ensures |LeafPaths(i, prefix)| == |Leaves(i)|
    ensures forall k :: 0 <= k < |Leaves(i)| ==> LeadsTo(i, prefix, LeafPaths(i, prefix)[k], Leaves(i)[k])
    decreases i.components, 1 + |i.typ|, 0
  {
    var base := ArrayBase(i.typ);
    if base.Some? {
      var element := i.(typ := base.value);
      TupleOfBase(i);
      LeafPathsResolve(element, prefix + [ELEMENT]);
      forall k | 0 <= k < |Leaves(i)| ensures LeadsTo(i, prefix, LeafPaths(i, prefix)[k], Leaves(i)[k]) {
        assert LeadsTo(element, prefix + [ELEMENT], LeafPaths(i, prefix)[k], Leaves(i)[k]);
        StepThenRest(i, prefix, ELEMENT, element, LeafPaths(i, prefix)[k], Leaves(i)[k]);
      }
    } else if IsTuple(i.typ) && i.components.Listed? && i.components.inputs != [] {
      ComponentsResolve(i, 0, prefix);
    } else {
      assert prefix[|prefix|..] == [];
      assert LeadsTo(i, prefix, prefix, i);
    }
  }

  lemma StepThenRest(i: Input, prefix: Path, segment: string, next: Input, p: Path, leaf: Input)
    requires Step(i, segment) == Some(next) && LeadsTo(next, prefix + [segment], p, leaf)
    ensures LeadsTo(i, prefix, p, leaf)
  {
    var rest := p[|prefix|..];
    assert p[..|prefix| + 1] == prefix + [segment];
    assert p[|prefix|] == segment;
    assert rest[0] == segment && rest[1..] == p[|prefix| + 1..];
    assert prefix <= p;
  }

  lemma {:induction false} ComponentsResolve(i: Input, n: nat, prefix: Path)
    requires ValidInput(i) && IsTuple(i.typ) && n <= |i.components.inputs|
    ensures |LeafPathsFrom(i.components, n, prefix)| == |LeavesFrom(i.components, n)|
    ensures forall k :: 0 <= k < |LeavesFrom(i.components, n)| ==>
              LeadsTo(i, prefix, LeafPathsFrom(i.components, n, prefix)[k], LeavesFrom(i.components, n)[k])
    decreases i.components, 0, |i.components.inputs| - n
  {
    var cs := i.components.inputs;
    if n < |cs| {
      var c := cs[n];
      var here := prefix + [c.name];
      IdentifierIsName(c.name);
      FindUnique(cs, n);
      LeafPathsResolve(c, here);
      ComponentsResolve(i, n + 1, prefix);
      forall k | 0 <= k < |Leaves(c)| ensures LeadsTo(i, prefix, LeafPaths(c, here)[k], Leaves(c)[k]) {
        StepThenRest(i, prefix, c.name, c, LeafPaths(c, here)[k], Leaves(c)[k]);
      }
    }
  }

  // ------------------------------------------------------------------ leaf paths are distinct

  ghost predicate AllDistinct(paths: seq<Path>) {
    forall i, j :: 0 <= i < j < |paths| ==> paths[i] != paths[j]
  }

  ghost predicate AllExtend(paths: seq<Path>, prefix: Path) { forall k :: 0 <= k < |paths| ==> prefix <= paths[k] }

  /** Paths that go on, after `prefix`, with the name of a component at or after `n`. */
  ghost predicate GoOnFrom(paths: seq<Path>, prefix: Path, cs: seq<Input>, n: nat) {
    forall k :: 0 <= k < |paths| ==>
      prefix <= paths[k] && |prefix| < |paths[k]| && exists m :: n <= m < |cs| && paths[k][|prefix|] == cs[m].name
  }

  lemma {:induction false} LeafPathsDistinct(i: Input, prefix: Path)
    requires ValidInput(i)
    ensures AllDistinct(LeafPaths(i, prefix)) && AllExtend(LeafPaths(i, prefix), prefix)
    decreases i.components, 1 + |i.typ|, 0
  {
    var base := ArrayBase(i.typ);
    if base.Some? {
      TupleOfBase(i);
      LeafPathsDistinct(i.(typ := base.value), prefix + [ELEMENT]);
      forall k | 0 <= k < |LeafPaths(i, prefix)| ensures prefix <= LeafPaths(i, prefix)[k] {
        assert prefix <= prefix + [ELEMENT] <= LeafPaths(i, prefix)[k];
      }
    } else if IsTuple(i.typ) && i.components.Listed? && i.components.inputs != [] {
      ComponentsDistinct(i.components, 0, prefix);
    }
  }

  lemma {:induction false} ComponentsDistinct(comps: Components, n: nat, prefix: Path)
    requires ValidInputs(comps) && n <= |comps.inputs|
    ensures AllDistinct(LeafPathsFrom(comps, n, prefix))
    ensures GoOnFrom(LeafPathsFrom(comps, n, prefix), prefix, comps.inputs, n)
    decreases comps, 0, |comps.inputs| - n
  {
    var cs := comps.inputs;
    if n < |cs| {
      IdentifierIsName(cs[n].name);
      LeafPathsDistinct(cs[n], prefix + [cs[n].name]);
      ComponentsDistinct(comps, n + 1, prefix);
      Separate(LeafPaths(cs[n], prefix + [cs[n].name]), LeafPathsFrom(comps, n + 1, prefix), prefix, cs, n);
    }
  }

  lemma Separate(first: seq<Path>, rest: seq<Path>, prefix: Path, cs: seq<Input>, n: nat)
    requires n < |cs| && forall i, j :: 0 <= i < j < |cs| ==> cs[i].name != cs[j].name
    requires AllDistinct(first) && AllExtend(first, prefix + [cs[n].name])
    requires AllDistinct(rest) && GoOnFrom(rest, prefix, cs, n + 1)
    ensures AllDistinct(first + rest) && GoOnFrom(first + rest, prefix, cs, n)
  {
    forall k | 0 <= k < |first| ensures prefix <= first[k] && |prefix| < |first[k]| && first[k][|prefix|] == cs[n].name {
      assert first[k][..|prefix| + 1] == prefix + [cs[n].name];
      assert first[k][..|prefix|] == prefix;
    }
    forall k | 0 <= k < |rest| ensures rest[k][|prefix|] != cs[n].name {
      assert prefix <= rest[k] && |prefix| < |rest[k]|;
      var m :| n + 1 <= m < |cs| && rest[k][|prefix|] == cs[m].name;
    }
  }

  /** Every enumerated ABI leaf path of a validated function is distinct from the others and
      resolves through lookup to its own scalar or empty-tuple leaf. */
  lemma FunctionLeafPaths(inputs: seq<Input>)
    requires ValidInputs(Listed(inputs))
    ensures var paths, leaves := LeafPathsFrom(Listed(inputs), 0, []), LeavesFrom(Listed(inputs), 0);
            && AllDistinct(paths) && |paths| == |leaves|
            && forall k :: 0 <= k < |paths| ==>
                 && paths[k] != []
                 && var root := RootNamed(inputs, paths[k][0]);
                    root.Some? && PathTarget(root.value, paths[k][1..]) == Some(leaves[k]) && IsLeaf(leaves[k])
  {
    var whole := Input("", TUPLE, Listed(inputs));
    assert IsTuple(whole.typ);
    ComponentsResolve(whole, 0, []);
    ComponentsDistinct(Listed(inputs), 0, []);
    var paths, leaves := LeafPathsFrom(Listed(inputs), 0, []), LeavesFrom(Listed(inputs), 0);
    forall k | 0 <= k < |paths|
      ensures paths[k] != []
      ensures var root := RootNamed(inputs, paths[k][0]);
              root.Some? && PathTarget(root.value, paths[k][1..]) == Some(leaves[k]) && IsLeaf(leaves[k])
    {
      assert LeadsTo(whole, [], paths[k], leaves[k]);
      assert paths[k][0..] == paths[k];
      var m :| 0 <= m < |inputs| && paths[k][0] == inputs[m].name;
      IdentifierIsName(inputs[m].name);
      FindUnique(inputs, m);
      RootUnique(inputs, m);
    }
  }

  // ------------------------------------------------------------------ lookup accepts more

  /** The lookup never steps from an array of tuples straight to a component. */
  predicate NoShortcut(i: Input, segments: Path)
    decreases |segments|
  {
    segments == [] ||
    ((segments[0] == ELEMENT || ArrayBase(i.typ).None?)
     && (Step(i, segments[0]).Some? ==> NoShortcut(Step(i, segments[0]).value, segments[1..])))
  }

  lemma {:induction false} InFrom(comps: Components, n: nat, m: nat, prefix: Path, p: Path)
    requires comps.Listed? && n <= m < |comps.inputs|
    requires p in LeafPaths(comps.inputs[m], prefix + [ComponentName(comps.inputs[m], m)])
    ensures p in LeafPathsFrom(comps, n, prefix)
    decreases m - n
  {
    if n < m { InFrom(comps, n + 1, m, prefix, p); }
  }

  lemma {:induction false} FoundIndex(cs: seq<Input>, name: string) returns (m: nat)
    requires FindNamed(cs, name).Some?
    ensures m < |cs| && cs[m] == FindNamed(cs, name).value && cs[m].name == name
  {
    if cs[0].name == name { m := 0; } else { var k := FoundIndex(cs[1..], name); m := k + 1; }
  }

  /** A shortcut-free path that looks up a leaf is an enumerated path. */
  lemma {:induction false} ResolvedIsEnumerated(i: Input, prefix: Path, segments: Path)
    requires ValidInput(i) && NoShortcut(i, segments)
    requires PathTarget(i, segments).Some? && IsLeaf(PathTarget(i, segments).value)
    ensures prefix + segments in LeafPaths(i, prefix)
    decreases |segments|
  {
    if segments == [] {
      assert prefix + segments == prefix;
    } else {
      var next := Step(i, segments[0]).value;
      var further := prefix + [segments[0]];
      assert prefix + segments == further + segments[1..];
      if segments[0] == ELEMENT {
        TupleOfBase(i);
        ResolvedIsEnumerated(next, further, segments[1..]);
      } else {
        var m := FoundIndex(i.components.inputs, segments[0]);
        IdentifierIsName(next.name);
        ResolvedIsEnumerated(next, further, segments[1..]);
        InFrom(i.components, 0, m, prefix, prefix + segments);
      }
    }
  }

  /** An enumerated path takes no shortcut. */
  lemma {:induction false} EnumeratedIsStrict(i: Input, prefix: Path, p: Path)
    requires ValidInput(i) && p in LeafPaths(i, prefix)
    ensures prefix <= p && NoShortcut(i, p[|prefix|..])
    decreases i.components, 1 + |i.typ|, 0
  {
    var base := ArrayBase(i.typ);
    if base.Some? {
      TupleOfBase(i);
      EnumeratedIsStrict(i.(typ := base.value), prefix + [ELEMENT], p);
      ShortcutFree(i, prefix, ELEMENT, p);
    } else if IsTuple(i.typ) && i.components.Listed? && i.components.inputs != [] {
      ComponentIsStrict(i, 0, prefix, p);
    } else {
      assert p[|prefix|..] == [];
    }
  }

  lemma ShortcutFree(i: Input, prefix: Path, segment: string, p: Path)
    requires prefix + [segment] <= p && Step(i, segment).Some?
    requires segment == ELEMENT || ArrayBase(i.typ).None?
    requires NoShortcut(Step(i, segment).value, p[|prefix| + 1..])
    ensures prefix <= p && NoShortcut(i, p[|prefix|..])
  {
    assert p[..|prefix| + 1] == prefix + [segment];
    assert p[..|prefix|] == prefix && p[|prefix|..][0] == segment && p[|prefix|..][1..] == p[|prefix| + 1..];
  }

  lemma {:induction false} ComponentIsStrict(i: Input, n: nat, prefix: Path, p: Path)
    requires ValidInput(i) && IsTuple(i.typ) && ArrayBase(i.typ).None? && n <= |i.components.inputs|
    requires p in LeafPathsFrom(i.components, n, prefix)
    ensures prefix <= p && NoShortcut(i, p[|prefix|..])
    decreases i.components, 0, |i.components.inputs| - n
  {
    var cs := i.components.inputs;
    IdentifierIsName(cs[n].name);
    if p in LeafPaths(cs[n], prefix + [cs[n].name]) {
      EnumeratedIsStrict(cs[n], prefix + [cs[n].name], p);
      FindUnique(cs, n);
      ShortcutFree(i, prefix, cs[n].name, p);
    } else {
      ComponentIsStrict(i, n + 1, prefix, p);
    }
  }

  /** Exactly which lookups are enumerated: those that reach a leaf without a shortcut. */
  lemma EnumeratedIff(i: Input, segments: Path)
    requires ValidInput(i)
    ensures segments in LeafPaths(i, []) <==>
            PathTarget(i, segments).Some? && IsLeaf(PathTarget(i, segments).value) && NoShortcut(i, segments)
  {
    assert [] + segments == segments;
    if segments in LeafPaths(i, []) {
      LeafPathsResolve(i, []);
      EnumeratedIsStrict(i, [], segments);
      var k :| 0 <= k < |LeafPaths(i, [])| && LeafPaths(i, [])[k] == segments;
      assert LeadsTo(i, [], segments, Leaves(i)[k]);
      assert segments[0..] == segments;
    }
    if PathTarget(i, segments).Some? && IsLeaf(PathTarget(i, segments).value) && NoShortcut(i, segments) {
      ResolvedIsEnumerated(i, [], segments);
    }
  }

  /** Lookup does accept more: from `tuple[]` straight to a component. */
  lemma ShortcutExists() returns (i: Input, segments: Path)
    ensures ValidInput(i) && PathTarget(i, segments).Some? && IsLeaf(PathTarget(i, segments).value)
    ensures segments !in LeafPaths(i, [])
  {
    var a := Input("a", "bool", Listed([]));
    i := Input("orders", "tuple[]", Listed([a]));
    segments := ["a"];
    assert i.typ[..|TUPLE|] == TUPLE;
    assert a.typ[|a.typ| - 1] != ']';
    assert FindNamed([a], "a") == Some(a);
    assert Step(i, "a") == Some(a);
    assert segments[1..] == [];
    assert PathTarget(a, []) == Some(a);
    assert a.typ != TUPLE && a.typ[..1] != TUPLE[..1] by { assert a.typ[0] != TUPLE[0]; }
    assert Identifier("a");
    assert DigitsStart(i.typ, |i.typ| - 1) == |i.typ| - 1;
    assert i.typ[|i.typ| - 2] == '[';
    EnumeratedIff(i, segments);
  }

  // ------------------------------------------------------------------ path text

  function SplitDots(s: string): (r: seq<string>)
    ensures r != []
  {
    if s == "" then [""]
    else if s[0] == '.' then [""] + SplitDots(s[1..])
    else
      var rest := SplitDots(s[1..]);
      [[s[0]] + rest[0]] + rest[1..]
  }

  function JoinDots(p: Path): string {
    if p == [] then "" else if |p| == 1 then p[0] else p[0] + "." + JoinDots(p[1..])
  }

  /** Text and segments determine each other: splitting on dots inverts joining. */
  lemma {:induction false} JoinOfSplit(s: string)
    ensures JoinDots(SplitDots(s)) == s
  {
    if s != "" {
      JoinOfSplit(s[1..]);
      var rest := SplitDots(s[1..]);
      if s[0] == '.' {
        assert ([""] + rest)[1..] == rest;
        assert "" + "." + s[1..] == s;
      } else {
        var all := [[s[0]] + rest[0]] + rest[1..];
        assert all[1..] == rest[1..];
        assert s == [s[0]] + s[1..];
        if |rest| > 1 {
          assert [s[0]] + rest[0] + "." + JoinDots(rest[1..]) == [s[0]] + (rest[0] + "." + JoinDots(rest[1..]));
        }
      }
    }
  }

  lemma {:induction false} SplitFirst(s: string, rest: string)
    requires '.' !in s
    ensures SplitDots(s) == [s] && SplitDots(s + "." + rest) == [s] + SplitDots(rest)
  {
    if s == "" {
      assert (s + "." + rest)[1..] == rest;
    } else {
      SplitFirst(s[1..], rest);
      assert (s + "." + rest)[1..] == s[1..] + "." + rest;
      assert s == [s[0]] + s[1..];
    }
  }

  /** A path of segments without dots is read back from its text. */
  lemma {:induction false} SplitOfJoin(p: Path)
    requires p != [] && forall segment :: segment in p ==> '.' !in segment
    ensures SplitDots(JoinDots(p)) == p
  {
    if |p| == 1 {
      SplitFirst(p[0], "");
    } else {
      SplitOfJoin(p[1..]);
      SplitFirst(p[0], JoinDots(p[1..]));
    }
  }
}
