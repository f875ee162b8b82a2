/** Format keys as written: which characters separate, what is dropped, what is left alone. */
module Keys {
  import opened Abi
  import opened Canonical
  import opened CanonicalLaws

  /** The code points that Python counts as blank. */
  const BLANKS: set<int> :=
    {0x09, 0x0A, 0x0B, 0x0C, 0x0D, 0x1C, 0x1D, 0x1E, 0x1F, 0x20, 0x85, 0xA0, 0x1680,
     0x2000, 0x2001, 0x2002, 0x2003, 0x2004, 0x2005, 0x2006, 0x2007, 0x2008, 0x2009, 0x200A,
     0x2028, 0x2029, 0x202F, 0x205F, 0x3000}

  /** ASCII letters and digits. */
  predicate Alphanumeric(s: string) {
    forall i :: 0 <= i < |s| ==> 'a' <= s[i] <= 'z' || 'A' <= s[i] <= 'Z' || '0' <= s[i] <= '9'
  }

  predicate NoOpen(name: string) { forall i :: 0 <= i < |name| ==> name[i] != '(' }

  lemma BlankIff(c: char)
    ensures IsSpace(c) <==> c as int in BLANKS
  {
  }

  lemma AlphanumericIsSolid(s: string)
    requires Alphanumeric(s)
    ensures Solid(s)
  {
  }

  lemma OneParameter(name: string, typ: string, tail: string)
    requires NoOpen(name) && ProperType(typ) && !IsTuple(typ) && ProperTail(tail)
    ensures CanonicalKey(name + "(" + (typ + tail) + ")") == name + "(" + typ + ")"
  {
    var n := Named("", typ, [], tail);
    assert Print(n) == typ + tail;
    assert PrintAll([n]) == [Print(n)];
    assert EraseAll([n]) == [Erase(n)];
    assert CanonicalTypes([Erase(n)]) == [typ];
    NamedKeyRoundTrip(name, [n]);
  }

  /** Which characters end a type: exactly the blanks, and what follows them is dropped. */
  lemma SeparatorIff(name: string, typ: string, c: char, tail: string)
    requires NoOpen(name) && Alphanumeric(typ) && typ != "" && Alphanumeric(tail) && !IsTuple(typ + [c] + tail) && !IsTuple(typ)
    requires c !in "(),"
    ensures CanonicalKey(name + "(" + typ + [c] + tail + ")")
         == if c as int in BLANKS then name + "(" + typ + ")" else name + "(" + typ + [c] + tail + ")"
  {
    hide CanonicalKey, IsSpace, IsTuple;
    BlankIff(c);
    AlphanumericIsSolid(typ);
    AlphanumericIsSolid(tail);
    var whole := typ + [c] + tail;
    if IsSpace(c) {
      OneParameter(name, typ, [c] + tail);
      assert name + "(" + (typ + ([c] + tail)) + ")" == name + "(" + typ + [c] + tail + ")";
    } else {
      OneParameter(name, whole, "");
      assert name + "(" + (whole + "") + ")" == name + "(" + typ + [c] + tail + ")";
      assert name + "(" + whole + ")" == name + "(" + typ + [c] + tail + ")";
    }
  }

  // ------------------------------------------------------------------ empty parameters

  lemma {:induction false} StripPartsAppend(a: seq<string>, b: seq<string>)
    ensures StripParts(a + b) == StripParts(a) + StripParts(b)
  {
    hide Strip;
    if a == [] {
      assert a + b == b;
    } else {
      assert (a + b)[1..] == a[1..] + b;
      StripPartsAppend(a[1..], b);
    }
  }

  lemma {:induction false} StripBlank(w: string)
    requires Blank(w)
    ensures Strip(w) == ""
  {
    if w != "" { StripBlank(w[1..]); }
  }

  lemma BlankIsItem(w: string)
    requires Blank(w)
    ensures Item(w)
  {
    BlankIsQuiet(w);
    QuietScan(w, 0);
  }

  lemma PrintedAreItems(ns: seq<Named>)
    requires forall n :: n in ns ==> Proper(n)
    ensures forall text :: text in PrintAll(ns) ==> Item(text)
  {
    hide Print, Item, Proper;
    forall text | text in PrintAll(ns) ensures Item(text) {
      var j :| 0 <= j < |ns| && PrintAll(ns)[j] == text;
      PrintIsItem(ns[j]);
    }
  }

  lemma SplitPrinted(ns: seq<Named>)
    requires forall n :: n in ns ==> Proper(n)
    ensures SplitTop(Join(PrintAll(ns))) == StripParts(PrintAll(ns))
  {
    hide Print, Proper;
    if ns == [] {
      assert Pieces("", 0) == [""];
      assert StripParts([""]) == [];
    } else {
      PiecesOfList(ns);
    }
  }

  lemma SplitWithBlank(a: seq<string>, w: string, b: seq<string>)
    requires (forall text :: text in a + b ==> Item(text)) && Blank(w)
    ensures SplitTop(Join(a + [w] + b)) == StripParts(a + b)
  {
    hide Item, Strip, StripParts, Pieces, Blank;
    BlankIsItem(w);
    forall text | text in a + [w] + b ensures Item(text) { assert text in a + b || text == w; }
    PiecesOfItems(a + [w] + b);
    DropPart(a, w, b);
  }

  /** An empty or blank parameter, wherever it stands, is dropped. */
  lemma BlankParameterIsDropped(name: string, ns: seq<Named>, k: nat, w: string)
    requires NoOpen(name) && (forall n :: n in ns ==> Proper(n)) && k <= |ns| && Blank(w)
    ensures CanonicalKey(name + "(" + Join(PrintAll(ns)[..k] + [w] + PrintAll(ns)[k..]) + ")") == Signature(name, EraseAll(ns))
  {
    hide Print, PrintAll, Join, Item, SplitTop, StripParts, CanonicalKey, Signature, Proper, Blank, EraseAll;
    var a, b := PrintAll(ns)[..k], PrintAll(ns)[k..];
    assert a + b == PrintAll(ns);
    PrintedAreItems(ns);
    SplitWithBlank(a, w, b);
    SplitPrinted(ns);
    SameParts(name, ns, Join(a + [w] + b));
  }

  lemma DropPart(a: seq<string>, w: string, b: seq<string>)
    requires Blank(w)
    ensures StripParts(a + [w] + b) == StripParts(a + b)
  {
    hide Strip;
    StripBlank(w);
    StripPartsAppend(a, b);
    StripPartsAppend(a, [w] + b);
    assert a + [w] + b == a + ([w] + b) && ([w] + b)[1..] == b;
  }

  // ------------------------------------------------------------------ malformed keys

  /** Every prefix of what follows the leading parenthesis leaves some parenthesis open. */
  predicate NeverCloses(s: string, depth: int) {
    depth != 0 && (s == "" || NeverCloses(s[1..], depth + Delta(s[0])))
  }

  lemma {:induction false} NoClosing(s: string, depth: int)
    requires depth != 0
    ensures Closing(s, depth) == |s| <==> NeverCloses(s, depth)
  {
    if s != "" && depth + Delta(s[0]) != 0 { NoClosing(s[1..], depth + Delta(s[0])); }
  }

  /** What is not of the form `name(...)`, and a group that is never closed, stay as they are. */
  lemma MalformedStays(key: string, group: string)
    ensures NoOpen(key) || key[|key| - 1] != ')' ==> CanonicalKey(key) == key
    ensures NeverCloses(group, 1) ==> CanonComponent("(" + group) == "(" + group
  {
    NoClosing(group, 1);
    assert ("(" + group)[1..] == group;
  }

  // ------------------------------------------------------------------ signatures as text

  /** `text` lists the parts, a comma between each and the next. */
  ghost predicate Lists(text: string, parts: seq<string>)
    decreases |parts|
  {
    if |parts| == 0 then text == ""
    else if |parts| == 1 then text == parts[0]
    else exists rest :: text == parts[0] + "," + rest && Lists(rest, parts[1..])
  }

  lemma {:induction false} JoinLists(parts: seq<string>)
    ensures Lists(Join(parts), parts)
  {
    if |parts| > 1 { JoinLists(parts[1..]); }
  }

  /** A signature is the name and its parameters' types in parentheses, with commas and nothing
      else between them; a tuple's type is its components' types so written, and its suffix. */
  lemma SignatureText(name: string, inputs: seq<Input>, i: Input)
    ensures exists params :: Lists(params, CanonicalTypes(inputs)) && Signature(name, inputs) == name + "(" + params + ")"
    ensures !("tuple" <= i.typ) ==> CanonicalType(i) == i.typ
    ensures "tuple" <= i.typ && i.components.Listed? ==>
              exists params :: Lists(params, CanonicalTypes(i.components.inputs)) && CanonicalType(i) == "(" + params + ")" + i.typ[5..]
  {
    JoinLists(CanonicalTypes(inputs));
    SignatureIs(name, inputs);
    if "tuple" <= i.typ && i.components.Listed? { JoinLists(CanonicalTypes(i.components.inputs)); }
  }
}
