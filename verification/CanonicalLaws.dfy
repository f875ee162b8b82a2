/** Canonicalising undoes naming: the round trip between keys with parameter names and the
canonical signature. */
module CanonicalLaws {
  import opened Abi
  import opened Canonical

  /** A parameter as written in a key: blanks, its type, and whatever follows the type. */
  datatype Named = Named(lead: string, typ: string, components: seq<Named>, tail: string)

  predicate Quiet(s: string) { forall i :: 0 <= i < |s| ==> s[i] != '(' && s[i] != ')' && s[i] != ',' }

  predicate Solid(s: string) { Quiet(s) && forall i :: 0 <= i < |s| ==> !IsSpace(s[i]) }

  function Suffix(typ: string): string
    requires IsTuple(typ)
  {
    typ[|TUPLE|..]
  }

  /** Elementary types are single words; a tuple's array suffix is empty or starts with `[`. */
  predicate ProperType(typ: string) {
    && typ != "" && Solid(typ)
    && (IsTuple(typ) ==> Suffix(typ) == "" || Suffix(typ)[0] == '[')
  }

  /** What may follow a type: nothing, or blanks and words without structure. */
  predicate ProperTail(tail: string) { tail == "" || (IsSpace(tail[0]) && Quiet(tail)) }

  predicate Proper(n: Named) {
    && Blank(n.lead) && ProperType(n.typ) && ProperTail(n.tail)
    && forall c :: c in n.components ==> Proper(c)
  }

  function Core(n: Named): string
    decreases n, 1
  {
    if IsTuple(n.typ) then "(" + Join(PrintAll(n.components)) + ")" + Suffix(n.typ) else n.typ
  }

  function Print(n: Named): string
    decreases n, 2
  {
    n.lead + Core(n) + n.tail
  }

  function PrintAll(ns: seq<Named>): (r: seq<string>)
    ensures |r| == |ns| && forall i :: 0 <= i < |ns| ==> r[i] == Print(ns[i])
    decreases ns, 0
  {
    if ns == [] then [] else [Print(ns[0])] + PrintAll(ns[1..])
  }

  function Erase(n: Named): Input
    decreases n, 1
  {
    Input("", n.typ, Listed(EraseAll(n.components)))
  }

  function EraseAll(ns: seq<Named>): (r: seq<Input>)
    ensures |r| == |ns| && forall i :: 0 <= i < |ns| ==> r[i] == Erase(ns[i])
    decreases ns, 0
  {
    if ns == [] then [] else [Erase(ns[0])] + EraseAll(ns[1..])
  }

  // ------------------------------------------------------------------ scanning

  /** Scanning from depth `d` never goes below zero. */
  predicate Above(s: string, d: int) {
    d >= 0 && (s == "" || Above(s[1..], d + Delta(s[0])))
  }

  /** Scanning from depth `d` meets no comma at depth zero. */
  predicate NoTop(s: string, d: int) {
    s == "" || (!(s[0] == ',' && d == 0) && NoTop(s[1..], d + Delta(s[0])))
  }

  lemma {:induction false} Append(a: string, b: string, d: int)
    ensures Net(a + b) == Net(a) + Net(b)
    ensures Above(a, d) && Above(b, d + Net(a)) ==> Above(a + b, d)
    ensures NoTop(a, d) && NoTop(b, d + Net(a)) ==> NoTop(a + b, d)
  {
    if a == "" {
      assert a + b == b;
    } else {
      Append(a[1..], b, d + Delta(a[0]));
      assert (a + b)[1..] == a[1..] + b;
    }
  }

  lemma {:induction false} OneDeeper(s: string, d: int)
    requires Above(s, d)
    ensures Above(s, d + 1) && NoTop(s, d + 1)
  {
    if s != "" { OneDeeper(s[1..], d + Delta(s[0])); }
  }

  lemma {:induction false} QuietScan(s: string, d: int)
    requires Quiet(s) && d >= 0
    ensures Net(s) == 0 && Above(s, d) && NoTop(s, d)
  {
    if s != "" { QuietScan(s[1..], d); }
  }

  /** Balanced, never below its start, and without a top-level comma. */
  ghost predicate Item(s: string) { Net(s) == 0 && Above(s, 0) && NoTop(s, 0) }

  lemma ItemAppend(a: string, b: string)
    requires Item(a) && Item(b)
    ensures Item(a + b)
  {
    Append(a, b, 0);
  }

  lemma BlankIsQuiet(s: string)
    requires Blank(s)
    ensures Quiet(s)
  {
  }

  lemma CloseOne()
    ensures Net(")") == -1 && Above(")", 1) && NoTop(")", 1)
  {
    assert ")"[1..] == "";
  }

  lemma OpenOne(t: string)
    ensures Net("(" + t) == 1 + Net(t)
    ensures Above(t, 1) ==> Above("(" + t, 0)
    ensures NoTop(t, 1) ==> NoTop("(" + t, 0)
  {
    var s := "(" + t;
    assert s[0] == '(' && s[1..] == t;
  }

  lemma Parenthesized(s: string)
    requires Net(s) == 0 && Above(s, 0)
    ensures Item("(" + s + ")")
  {
    hide Net, Above, NoTop;
    OneDeeper(s, 0);
    CloseOne();
    Append(s, ")", 1);
    OpenOne(s + ")");
    assert "(" + s + ")" == "(" + (s + ")");
  }

  lemma {:induction false} CoreIsItem(n: Named)
    requires Proper(n)
    ensures Item(Core(n))
    decreases n, 1
  {
    if IsTuple(n.typ) {
      ListIsBalanced(n.components);
      Parenthesized(Join(PrintAll(n.components)));
      QuietScan(Suffix(n.typ), 0);
      ItemAppend("(" + Join(PrintAll(n.components)) + ")", Suffix(n.typ));
    } else {
      QuietScan(n.typ, 0);
    }
  }

  lemma {:induction false} PrintIsItem(n: Named)
    requires Proper(n)
    ensures Item(Print(n))
    decreases n, 2
  {
    CoreIsItem(n);
    BlankIsQuiet(n.lead);
    QuietScan(n.lead, 0);
    QuietScan(n.tail, 0);
    ItemAppend(n.lead, Core(n));
    ItemAppend(n.lead + Core(n), n.tail);
  }

  lemma {:induction false} ListIsBalanced(ns: seq<Named>)
    requires forall n :: n in ns ==> Proper(n)
    ensures Net(Join(PrintAll(ns))) == 0 && Above(Join(PrintAll(ns)), 0)
    decreases ns, 0
  {
    hide Print;
    if ns != [] {
      PrintIsItem(ns[0]);
      if |ns| > 1 {
        ListIsBalanced(ns[1..]);
        assert PrintAll(ns)[1..] == PrintAll(ns[1..]);
        var rest := Join(PrintAll(ns[1..]));
        assert ("," + rest)[1..] == rest;
        Append(Print(ns[0]), "," + rest, 0);
        assert Print(ns[0]) + "," + rest == Print(ns[0]) + ("," + rest);
      }
    }
  }

  // ------------------------------------------------------------------ splitting

  /** The parts with `p` put in front of the first. */
  function Prefix(p: string, parts: seq<string>): seq<string>
    requires parts != []
  {
    [p + parts[0]] + parts[1..]
  }

  lemma PrefixPrefix(a: string, b: string, parts: seq<string>)
    requires parts != []
    ensures Prefix(a, Prefix(b, parts)) == Prefix(a + b, parts)
  {
    assert a + (b + parts[0]) == a + b + parts[0];
  }

  lemma PiecesStep(c: char, s: string, d: int)
    requires !(c == ',' && d == 0)
    ensures Pieces([c] + s, d) == Prefix([c], Pieces(s, d + Delta(c)))
  {
    assert ([c] + s)[1..] == s;
  }

  lemma PrefixNothing(parts: seq<string>)
    requires parts != []
    ensures Prefix("", parts) == parts
  {
    assert "" + parts[0] == parts[0];
  }

  lemma {:induction false} PiecesAppend(p: string, s: string, d: int)
    requires NoTop(p, d)
    ensures Pieces(p + s, d) == Prefix(p, Pieces(s, d + Net(p)))
  {
    hide Pieces, Prefix;
    if p == "" {
      assert p + s == s;
      PrefixNothing(Pieces(s, d));
    } else {
      var c, rest := p[0], p[1..];
      assert p == [c] + rest && p + s == [c] + (rest + s);
      PiecesAppend(rest, s, d + Delta(c));
      PiecesStep(c, rest + s, d);
      PrefixPrefix([c], rest, Pieces(s, d + Net(p)));
    }
  }

  /** Splitting joined items gives them back. */
  lemma {:induction false} PiecesOfItems(items: seq<string>)
    requires items != [] && forall item :: item in items ==> Item(item)
    ensures Pieces(Join(items), 0) == items
  {
    hide Above, Net, NoTop, Pieces;
    var first, more := items[0], items[1..];
    assert Item(first) && NoTop(first, 0) && Net(first) == 0;
    assert first + "" == first;
    if |items| == 1 {
      PiecesAppend(first, "", 0);
      PiecesEmpty();
    } else {
      PiecesOfItems(more);
      assert items == [first] + more;
      JoinCons(first, more);
      PiecesComma(Join(more));
      PiecesAppend(first, "," + Join(more), 0);
      assert ([""] + more)[1..] == more;
    }
  }

  lemma PiecesOfList(ns: seq<Named>)
    requires ns != [] && forall n :: n in ns ==> Proper(n)
    ensures Pieces(Join(PrintAll(ns)), 0) == PrintAll(ns)
  {
    hide Print, Item, Pieces, Proper;
    forall item | item in PrintAll(ns) ensures Item(item) {
      var k :| 0 <= k < |ns| && PrintAll(ns)[k] == item;
      PrintIsItem(ns[k]);
    }
    PiecesOfItems(PrintAll(ns));
  }

  lemma PiecesEmpty()
    ensures Pieces("", 0) == [""]
  {
  }

  lemma PiecesComma(s: string)
    ensures Pieces("," + s, 0) == [""] + Pieces(s, 0)
  {
    assert ("," + s)[1..] == s;
  }

  lemma JoinCons(first: string, more: seq<string>)
    requires more != []
    ensures Join([first] + more) == first + ("," + Join(more))
  {
    assert ([first] + more)[1..] == more;
    assert first + "," + Join(more) == first + ("," + Join(more));
  }

  // ------------------------------------------------------------------ stripping

  /** A string with a non-blank character at each end. */
  predicate Trim(s: string) { s != "" && !IsSpace(s[0]) && !IsSpace(s[|s| - 1]) }

  lemma {:induction false} StripLeftLead(lead: string, s: string)
    requires Blank(lead) && s != "" && !IsSpace(s[0])
    ensures StripLeft(lead + s) == s
  {
    if lead == "" {
      assert lead + s == s;
    } else {
      assert (lead + s)[1..] == lead[1..] + s;
      StripLeftLead(lead[1..], s);
    }
  }

  lemma {:induction false} StripRightTail(s: string, tail: string)
    requires s != "" && !IsSpace(s[|s| - 1])
    ensures StripRight(s + tail) == s + StripRight(tail)
  {
    if tail == "" {
      assert s + tail == s;
    } else if IsSpace(tail[|tail| - 1]) {
      assert (s + tail)[..|s + tail| - 1] == s + tail[..|tail| - 1];
      StripRightTail(s, tail[..|tail| - 1]);
    }
  }

  lemma {:induction false} StripRightIsPrefix(s: string)
    ensures StripRight(s) <= s
  {
    if s != "" && IsSpace(s[|s| - 1]) { StripRightIsPrefix(s[..|s| - 1]); }
  }

  /** What remains of a proper tail is nothing, or starts with a blank. */
  predicate Tail(s: string) { s == "" || IsSpace(s[0]) }

  lemma CoreIsTrim(n: Named)
    requires Proper(n)
    ensures Trim(Core(n))
  {
    if IsTuple(n.typ) && Suffix(n.typ) != "" {
      assert Core(n)[|Core(n)| - 1] == n.typ[|n.typ| - 1];
    }
  }

  lemma StripPrint(n: Named)
    requires Proper(n)
    ensures Strip(Print(n)) == Core(n) + StripRight(n.tail) && Tail(StripRight(n.tail)) && Strip(Print(n)) != ""
  {
    CoreIsTrim(n);
    assert n.lead + Core(n) + n.tail == n.lead + (Core(n) + n.tail);
    StripLeftLead(n.lead, Core(n) + n.tail);
    StripRightTail(Core(n), n.tail);
    StripRightIsPrefix(n.tail);
  }

  // ------------------------------------------------------------------ one component

  lemma {:induction false} WordTail(s: string, tail: string)
    requires (forall i :: 0 <= i < |s| ==> !IsSpace(s[i])) && Tail(tail)
    ensures Word(s + tail) == s
  {
    if s == "" {
      assert s + tail == tail;
    } else {
      assert (s + tail)[1..] == s[1..] + tail;
      WordTail(s[1..], tail);
    }
  }

  lemma {:induction false} ClosingAppend(p: string, s: string, d: int)
    requires d >= 1 && Above(p, d - 1)
    ensures Closing(p + s, d) == |p| + Closing(s, d + Net(p))
  {
    if p == "" {
      assert p + s == s;
    } else {
      assert (p + s)[1..] == p[1..] + s;
      ClosingAppend(p[1..], s, d + Delta(p[0]));
    }
  }

  lemma CanonScalar(typ: string, tail: string)
    requires typ != "" && Solid(typ) && Tail(tail)
    ensures CanonComponent(typ + tail) == typ
  {
    WordTail(typ, tail);
    assert (typ + tail)[0] == typ[0];
    assert StripLeft(typ + tail) == typ + tail;
  }

  lemma AfterGroup(suffix: string, tail: string)
    requires Solid(suffix) && (suffix == "" || suffix[0] == '[') && Tail(tail)
    ensures var rest := suffix + tail;
            (if rest != "" && rest[0] == '[' then FirstWord(rest) else "") == suffix
  {
    var rest := suffix + tail;
    if suffix == "" {
      assert rest == tail;
    } else {
      WordTail(suffix, tail);
      assert StripLeft(rest) == rest;
    }
  }

  function Group(inner: string, suffix: string, tail: string): string { "(" + inner + ")" + suffix + tail }

  lemma GroupParts(inner: string, suffix: string, tail: string)
    requires Net(inner) == 0 && Above(inner, 0)
    ensures var c := Group(inner, suffix, tail);
            && c[0] == '(' && 1 + Closing(c[1..], 1) == 1 + |inner| < |c|
            && c[1..1 + |inner|] == inner && c[|inner| + 2..] == suffix + tail
  {
    hide Net, Above;
    var c := Group(inner, suffix, tail);
    var rest := ")" + (suffix + tail);
    assert c == "(" + (inner + rest);
    assert c[1..] == inner + rest;
    ClosingAppend(inner, rest, 1);
    ClosingNow(suffix + tail);
    assert (inner + rest)[..|inner|] == inner;
    assert c[1..1 + |inner|] == c[1..][..|inner|];
    assert (inner + rest)[|inner| + 1..] == suffix + tail;
    assert c[|inner| + 2..] == c[1..][|inner| + 1..];
  }

  lemma ClosingNow(s: string)
    ensures Closing(")" + s, 1) == 0
  {
    assert (")" + s)[0] == ')';
  }

  /** A tuple is split at its own closing parenthesis; its array suffix stays, its name goes. */
  lemma CanonTuple(inner: string, suffix: string, tail: string, types: seq<string>)
    requires Net(inner) == 0 && Above(inner, 0)
    requires Solid(suffix) && (suffix == "" || suffix[0] == '[') && Tail(tail)
    requires |SplitTop(inner)| == |types|
    requires forall i :: 0 <= i < |types| ==> CanonComponent(SplitTop(inner)[i]) == types[i]
    ensures CanonComponent(Group(inner, suffix, tail)) == "(" + Join(types) + ")" + suffix
  {
    hide SplitTop, Join, Group, Closing, FirstWord, Net, Above, CanonComponents, Solid, Tail;
    var c := Group(inner, suffix, tail);
    SplitTopShorter(inner);
    GroupParts(inner, suffix, tail);
    AfterGroup(suffix, tail);
    var i := 1 + |inner|;
    assert c[i + 1..] == suffix + tail;
    assert CanonComponents(SplitTop(c[1..i]), |c| - 1) == types;
  }

  lemma ScalarCore(n: Named)
    requires !IsTuple(n.typ)
    ensures Core(n) == n.typ && CanonicalType(Erase(n)) == n.typ
  {
  }

  lemma CoreIsGroup(n: Named, tail: string)
    requires IsTuple(n.typ)
    ensures Core(n) + tail == Group(Join(PrintAll(n.components)), Suffix(n.typ), tail)
    ensures CanonicalType(Erase(n)) == "(" + Join(CanonicalTypes(EraseAll(n.components))) + ")" + Suffix(n.typ)
  {
    hide Join, PrintAll, EraseAll, CanonicalTypes;
  }

  lemma {:induction false} CanonOne(n: Named, tail: string)
    requires Proper(n) && Tail(tail)
    ensures CanonComponent(Core(n) + tail) == CanonicalType(Erase(n))
    decreases n, 1
  {
    hide CanonComponent, Join, Net, Above, Item, SplitTop, StripRight, Core, Erase, CanonicalType, PrintAll, EraseAll, Group;
    if IsTuple(n.typ) {
      CoreIsGroup(n, tail);
      var inner := Join(PrintAll(n.components));
      ListIsBalanced(n.components);
      SplitList(n.components);
      var types := CanonicalTypes(EraseAll(n.components));
      CanonEach(n.components);
      CanonTuple(inner, Suffix(n.typ), tail, types);
    } else {
      ScalarCore(n);
      CanonScalar(n.typ, tail);
    }
  }

  lemma {:induction false} CanonEach(ns: seq<Named>)
    requires forall n :: n in ns ==> Proper(n)
    ensures var parts, types := SplitTop(Join(PrintAll(ns))), CanonicalTypes(EraseAll(ns));
            |parts| == |types| == |ns| && forall i :: 0 <= i < |ns| ==> CanonComponent(parts[i]) == types[i]
    decreases ns, 0
  {
    hide CanonComponent, Join, SplitTop, Core;
    SplitList(ns);
    forall i | 0 <= i < |ns| ensures CanonComponent(SplitTop(Join(PrintAll(ns)))[i]) == CanonicalTypes(EraseAll(ns))[i] {
      StripPrint(ns[i]);
      CanonOne(ns[i], StripRight(ns[i].tail));
    }
  }

  lemma StripCons(parts: seq<string>)
    requires parts != [] && Strip(parts[0]) != ""
    ensures StripParts(parts) == [Strip(parts[0])] + StripParts(parts[1..])
  {
    hide Strip;
  }

  lemma {:induction false} StripAll(ns: seq<Named>)
    requires forall n :: n in ns ==> Proper(n)
    ensures var r := StripParts(PrintAll(ns));
            |r| == |ns| && forall i :: 0 <= i < |ns| ==> r[i] == Core(ns[i]) + StripRight(ns[i].tail)
  {
    if ns == [] {
    } else {
      hide StripParts, Print, Core, Strip, StripRight, PrintAll;
      StripPrint(ns[0]);
      StripAll(ns[1..]);
      assert PrintAll(ns)[1..] == PrintAll(ns[1..]);
      StripCons(PrintAll(ns));
    }
  }

  lemma SplitList(ns: seq<Named>)
    requires forall n :: n in ns ==> Proper(n)
    ensures var r := SplitTop(Join(PrintAll(ns)));
            |r| == |ns| && forall i :: 0 <= i < |ns| ==> r[i] == Core(ns[i]) + StripRight(ns[i].tail)
  {
    if ns == [] {
      assert Pieces("", 0) == [""];
      assert StripParts([""]) == [];
    } else {
      PiecesOfList(ns);
      StripAll(ns);
    }
  }

  // ------------------------------------------------------------------ the key

  function PrintKey(name: string, ns: seq<Named>): string { name + "(" + Join(PrintAll(ns)) + ")" }

  lemma {:induction false} FirstOpenAfter(name: string, s: string)
    requires forall i :: 0 <= i < |name| ==> name[i] != '('
    ensures FirstOpen(name + "(" + s) == |name|
  {
    if name == "" {
      assert (name + "(" + s)[0] == '(';
    } else {
      assert (name + "(" + s)[1..] == name[1..] + "(" + s;
      FirstOpenAfter(name[1..], s);
    }
  }

  /** A key's canonical form depends on its name and its split parameters alone. */
  lemma SameParts(name: string, ns: seq<Named>, params: string)
    requires (forall i :: 0 <= i < |name| ==> name[i] != '(') && forall n :: n in ns ==> Proper(n)
    requires SplitTop(params) == SplitTop(Join(PrintAll(ns)))
    ensures CanonicalKey(name + "(" + params + ")") == Signature(name, EraseAll(ns))
  {
    hide Print, Join, SplitTop, CanonComponents, Signature, Proper;
    var key := name + "(" + params + ")";
    assert key == name + "(" + (params + ")");
    FirstOpenAfter(name, params + ")");
    assert key[|name| + 1..|key| - 1] == params && key[..|name|] == name;
    SplitTopShorter(params);
    CanonEach(ns);
    assert CanonComponents(SplitTop(params), |params|) == CanonicalTypes(EraseAll(ns));
    SignatureIs(name, EraseAll(ns));
  }

  /** Canonicalising a key, written with any parameter names, extra words and blanks, gives the
      canonical signature of the function, for every nesting of tuples and arrays. */
  lemma NamedKeyRoundTrip(name: string, ns: seq<Named>)
    requires (forall i :: 0 <= i < |name| ==> name[i] != '(') && forall n :: n in ns ==> Proper(n)
    ensures CanonicalKey(PrintKey(name, ns)) == Signature(name, EraseAll(ns))
  {
    SameParts(name, ns, Join(PrintAll(ns)));
  }

  lemma SignatureIs(name: string, inputs: seq<Input>)
    ensures Signature(name, inputs) == name + "(" + Join(CanonicalTypes(inputs)) + ")"
  {
  }

  // ------------------------------------------------------------------ functions of an ABI

  predicate ProperInput(i: Input)
    decreases i, 1
  {
    ProperType(i.typ) && Quiet(i.name) && match i.components case Absent => true case Listed(cs) => ProperInputs(cs)
  }

  predicate ProperInputs(inputs: seq<Input>)
    decreases inputs, 0
  {
    inputs == [] || (ProperInput(inputs[0]) && ProperInputs(inputs[1..]))
  }

  /** The input as a key may spell it: with its name after its type, or without. */
  function Spell(i: Input, named: bool): Named
    decreases i, 1
  {
    var inner := match i.components case Absent => [] case Listed(cs) => SpellAll(cs, named);
    Named("", i.typ, inner, if named && i.name != "" then " " + i.name else "")
  }

  function SpellAll(inputs: seq<Input>, named: bool): (r: seq<Named>)
    ensures |r| == |inputs|
    decreases inputs, 0
  {
    if inputs == [] then [] else [Spell(inputs[0], named)] + SpellAll(inputs[1..], named)
  }

  lemma {:induction false} SpellOne(i: Input, named: bool)
    requires ProperInput(i)
    ensures Proper(Spell(i, named)) && CanonicalType(Erase(Spell(i, named))) == CanonicalType(i)
    decreases i, 1
  {
    match i.components
    case Absent =>
    case Listed(cs) => SpellEach(cs, named);
  }

  lemma {:induction false} SpellEach(inputs: seq<Input>, named: bool)
    requires ProperInputs(inputs)
    ensures forall n :: n in SpellAll(inputs, named) ==> Proper(n)
    ensures CanonicalTypes(EraseAll(SpellAll(inputs, named))) == CanonicalTypes(inputs)
    decreases inputs, 0
  {
    if inputs != [] {
      SpellOne(inputs[0], named);
      SpellEach(inputs[1..], named);
      var rest := SpellAll(inputs[1..], named);
      assert SpellAll(inputs, named)[1..] == rest;
      assert EraseAll(SpellAll(inputs, named))[1..] == EraseAll(rest);
    }
  }

  /** Spelled without names, an input is its canonical type. */
  lemma {:induction false} SpellPlain(i: Input)
    ensures Print(Spell(i, false)) == CanonicalType(i)
    decreases i, 1
  {
    match i.components
    case Absent =>
    case Listed(cs) => SpellPlainAll(cs);
  }

  lemma {:induction false} SpellPlainAll(inputs: seq<Input>)
    ensures PrintAll(SpellAll(inputs, false)) == CanonicalTypes(inputs)
    decreases inputs, 0
  {
    if inputs != [] {
      SpellPlain(inputs[0]);
      SpellPlainAll(inputs[1..]);
      assert SpellAll(inputs, false)[1..] == SpellAll(inputs[1..], false);
    }
  }

  /** For every function: canonicalising its signature printed with parameter names gives its
      canonical signature, and canonicalising the canonical signature changes nothing. */
  lemma SignatureRoundTrip(name: string, inputs: seq<Input>)
    requires (forall i :: 0 <= i < |name| ==> name[i] != '(') && ProperInputs(inputs)
    ensures CanonicalKey(PrintKey(name, SpellAll(inputs, true))) == Signature(name, inputs)
    ensures CanonicalKey(Signature(name, inputs)) == Signature(name, inputs)
  {
    hide CanonicalKey, Proper;
    SpellEach(inputs, true);
    NamedKeyRoundTrip(name, SpellAll(inputs, true));
    SpellEach(inputs, false);
    NamedKeyRoundTrip(name, SpellAll(inputs, false));
    SpellPlainAll(inputs);
    assert PrintKey(name, SpellAll(inputs, false)) == Signature(name, inputs);
  }

  // ------------------------------------------------------------------ the loops of the source

  /** What is cut off before `start`, then the running piece, then the pieces still to come. */
  ghost predicate Cutting(params: string, parts: seq<string>, start: nat, i: nat, depth: int)
    requires start <= i <= |params|
  {
    Pieces(params, 0) == parts + Prefix(params[start..i], Pieces(params[i..], depth))
  }

  lemma CutStart(params: string)
    ensures Cutting(params, [], 0, 0, 0)
  {
    assert params[0..0] == "" && params[0..] == params;
    PrefixNothing(Pieces(params, 0));
  }

  lemma CutOn(params: string, parts: seq<string>, start: nat, i: nat, depth: int)
    requires start <= i < |params| && Cutting(params, parts, start, i, depth) && !(params[i] == ',' && depth == 0)
    ensures Cutting(params, parts, start, i + 1, depth + Delta(params[i]))
  {
    hide Pieces, Prefix;
    assert params[i..] == [params[i]] + params[i + 1..];
    assert params[start..i] + [params[i]] == params[start..i + 1];
    ScanStep(params[start..i], params[i], params[i + 1..], depth);
  }

  lemma CutHere(params: string, parts: seq<string>, start: nat, i: nat)
    requires start <= i < |params| && Cutting(params, parts, start, i, 0) && params[i] == ','
    ensures Cutting(params, parts + [params[start..i]], i + 1, i + 1, 0)
  {
    hide Pieces, Prefix;
    var rest := Pieces(params[i + 1..], 0);
    assert params[i..] == "," + params[i + 1..];
    PiecesComma(params[i + 1..]);
    CommaStep(params[start..i], rest);
    assert params[i + 1..i + 1] == "";
    assert parts + ([params[start..i]] + Prefix("", rest)) == (parts + [params[start..i]]) + Prefix("", rest);
  }

  lemma CutEnd(params: string, parts: seq<string>, start: nat, depth: int)
    requires start <= |params| && Cutting(params, parts, start, |params|, depth)
    ensures Pieces(params, 0) == parts + [params[start..]]
  {
    assert params[|params|..] == "" && params[start..|params|] == params[start..];
    LastPiece(params[start..], depth);
  }

  method SplitParameters(params: string) returns (r: seq<string>)
    ensures r == SplitTop(params)
  {
    hide Strip, Pieces, Cutting;
    var parts: seq<string>, depth, start := [], 0, 0;
    CutStart(params);
    for i := 0 to |params|
      invariant 0 <= start <= i && Cutting(params, parts, start, i, depth)
    {
      if params[i] == ',' && depth == 0 {
        CutHere(params, parts, start, i);
        parts := parts + [params[start..i]];
        start := i + 1;
      } else {
        CutOn(params, parts, start, i, depth);
        depth := depth + Delta(params[i]);
      }
    }
    var tail := params[start..];
    CutEnd(params, parts, start, depth);
    BlankTail(tail);
    if Strip(tail) != "" || parts != [] {
      parts := parts + [tail];
    }
    r := StripNonBlank(parts);
  }

  lemma BlankTail(tail: string)
    ensures Strip(tail) == "" ==> StripParts([] + [tail]) == StripParts([])
  {
    assert [] + [tail] == [tail] && [tail][1..] == [];
  }

  method StripNonBlank(parts: seq<string>) returns (r: seq<string>)
    ensures r == StripParts(parts)
  {
    hide Strip;
    r := [];
    for i := 0 to |parts|
      invariant StripParts(parts) == r + StripParts(parts[i..])
    {
      assert parts[i..][1..] == parts[i + 1..];
      if Strip(parts[i]) != "" {
        r := r + [Strip(parts[i])];
      }
    }
  }

  lemma ScanStep(p: string, c: char, s: string, d: int)
    requires !(c == ',' && d == 0)
    ensures Prefix(p, Pieces([c] + s, d)) == Prefix(p + [c], Pieces(s, d + Delta(c)))
  {
    PiecesStep(c, s, d);
    PrefixPrefix(p, [c], Pieces(s, d + Delta(c)));
  }

  lemma CommaStep(p: string, rest: seq<string>)
    requires rest != []
    ensures Prefix(p, [""] + rest) == [p] + Prefix("", rest)
  {
    PrefixNothing(rest);
    assert p + "" == p;
  }

  lemma LastPiece(tail: string, depth: int)
    ensures Prefix(tail, Pieces("", depth)) == [tail]
  {
    assert tail + "" == tail;
  }

  /** Index of the parenthesis that closes the one `c` starts with, or |c|. */
  method FindClosing(c: string) returns (at: nat)
    requires c != "" && c[0] == '('
    ensures at == 1 + Closing(c[1..], 1)
  {
    var depth := 0;
    for i := 0 to |c|
      invariant i == 0 ==> depth == 0
      invariant i >= 1 ==> depth != 0 && 1 + Closing(c[1..], 1) == i + Closing(c[i..], depth)
    {
      depth := depth + Delta(c[i]);
      assert c[i..][1..] == c[i + 1..];
      if depth == 0 {
        return i;
      }
    }
    return |c|;
  }

  method CanonicalComponent(c: string) returns (r: string)
    ensures r == CanonComponent(c)
    decreases |c|, 1
  {
    hide Closing, SplitTop, FirstWord, Join;
    if c == "" || c[0] != '(' {
      return FirstWord(c);
    }
    var i := FindClosing(c);
    if i == |c| {
      return c;
    }
    var parts := SplitParameters(c[1..i]);
    SplitTopShorter(c[1..i]);
    var types := CanonicalComponents(parts, |c| - 1);
    var rest := c[i + 1..];
    return "(" + Join(types) + ")" + if rest != "" && rest[0] == '[' then FirstWord(rest) else "";
  }

  method CanonicalComponents(parts: seq<string>, bound: nat) returns (types: seq<string>)
    requires forall i :: 0 <= i < |parts| ==> |parts[i]| <= bound
    ensures types == CanonComponents(parts, bound)
    decreases bound, 2
  {
    hide CanonComponent;
    types := [];
    for j := 0 to |parts|
      invariant |types| == j && forall i :: 0 <= i < j ==> types[i] == CanonComponent(parts[i])
    {
      var one := CanonicalComponent(parts[j]);
      types := types + [one];
    }
  }

  method CanonicalizeKey(key: string) returns (r: string)
    ensures r == CanonicalKey(key)
  {
    hide SplitTop, Join, FirstOpen;
    var n := FirstOpen(key);
    if n == |key| || key[|key| - 1] != ')' {
      return key;
    }
    var params := key[n + 1..|key| - 1];
    var parts := SplitParameters(params);
    SplitTopShorter(params);
    var types := CanonicalComponents(parts, |params|);
    return key[..n] + "(" + Join(types) + ")";
  }
}
