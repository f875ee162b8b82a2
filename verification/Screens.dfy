/** What a clear verdict means for the screen, and which screens earn one: stated on ABI types,
formats and field paths as they are written. */
module Screens {
  import opened Basics
  import opened Abi
  import opened AbiPaths
  import opened Presentation

  // ------------------------------------------------------------------ formats, one by one

  ghost predicate Container(typ: string) { ArrayBase(typ).Some? || "tuple" <= typ }

  ghost predicate Numeric(typ: string) { !Container(typ) && ("uint" <= typ || "int" <= typ) }

  /** Which ABI types each format may render. */
  ghost predicate Renders(format: string, typ: string) {
    if format == "raw" then true
    else if format == "addressName" then typ == "address"
    else if format == "calldata" then Container(typ) || "bytes" <= typ
    else if format == "enum" then typ == "bool" || typ == "string" || Numeric(typ)
    else format in {"amount", "tokenAmount", "nftName", "date", "duration", "unit"} && Numeric(typ)
  }

  /** The formats that a clear screen may use for a type. */
  ghost predicate Clear(typ: string, format: Option<string>) {
    if typ == "address" then format == Some("addressName")
    else if Numeric(typ) then format in {None, Some("raw"), Some("amount"), Some("duration")}
    else format in {None, Some("raw")}
  }

  lemma PrefixIs(s: string, prefix: string)
    ensures StartsWith(s, prefix) <==> prefix <= s
  {
  }

  lemma NotPrefix(s: string, prefix: string, k: nat)
    requires k < |s| && k < |prefix| && s[k] != prefix[k]
    ensures !(prefix <= s)
  {
  }

  lemma TypesApart()
    ensures !Container("address") && !Container("bool") && !Container("string")
    ensures !("uint" <= "address") && !("int" <= "address") && !("bytes" <= "address")
    ensures !("uint" <= "bool") && !("int" <= "bool") && !("bytes" <= "bool")
    ensures !("uint" <= "string") && !("int" <= "string") && !("bytes" <= "string")
  {
    assert "bool"[1] == 'o' && "bytes"[1] == 'y' && "tuple"[0] == 't' && "uint"[0] == 'u' && "int"[0] == 'i';
    NotPrefix("address", "tuple", 0);
    NotPrefix("address", "uint", 0);
    NotPrefix("address", "int", 0);
    NotPrefix("address", "bytes", 0);
    NotPrefix("bool", "tuple", 0);
    NotPrefix("bool", "uint", 0);
    NotPrefix("bool", "int", 0);
    NotPrefix("bool", "bytes", 1);
    NotPrefix("string", "tuple", 0);
    NotPrefix("string", "uint", 0);
    NotPrefix("string", "int", 0);
    NotPrefix("string", "bytes", 0);
    assert "address"[6] == 's' && "bool"[3] == 'l' && "string"[5] == 'g';
  }

  /** The table by type, read by format: the same pairs. */
  lemma FormatMatchesIff(typ: string, format: Option<string>)
    ensures FormatMatches(typ, format) <==> Renders(if format.Some? then format.value else "raw", typ)
  {
    hide ArrayBase;
    TypesApart();
    PrefixIs(typ, "tuple");
    PrefixIs(typ, "uint");
    PrefixIs(typ, "int");
    PrefixIs(typ, "bytes");
    BytesNotNumeric(typ);
  }

  lemma BytesNotNumeric(typ: string)
    ensures "bytes" <= typ ==> !("uint" <= typ) && !("int" <= typ)
  {
    assert "bytes"[0] == 'b' && "uint"[0] == 'u' && "int"[0] == 'i';
    if "bytes" <= typ { assert typ[0] == 'b'; }
  }

  // ------------------------------------------------------------------ one field

  ghost predicate Visible(f: Field) { f.visible in {None, Some("always")} }

  ghost predicate OnCall(f: Field) { f.path.Some? && "#." <= f.path.value }

  /** What the path of a field on a call argument looks up. */
  ghost function Shows(fn: Function, f: Field): Option<Input>
    requires OnCall(f)
  {
    Target(fn, SplitDots(f.path.value[2..]))
  }

  /** The label fits the role that the heuristics give a whole input. */
  ghost predicate RoleFits(h: Heuristics, f: Field)
    requires OnCall(f)
  {
    var segments := SplitDots(f.path.value[2..]);
    |segments| == 1 && segments[0] in h.roles ==> LabelFits(h, h.roles[segments[0]], f)
  }

  /** A field that a clear screen may have: on sender, destination or value, or on a call argument
      that resolves; and if it is visible, formatted and labelled for what it shows. */
  ghost predicate Proper(fn: Function, h: Heuristics, f: Field) {
    if f.path == Some("@.from") then Visible(f) ==> f.format == Some("addressName") && LabelFits(h, "sender", f)
    else if f.path == Some("@.to") then Visible(f) ==> f.format == Some("addressName") && LabelFits(h, "contract", f)
    else if f.path == Some("@.value") then Visible(f) ==> f.format == Some("amount") && LabelFits(h, "native_value", f)
    else
      && OnCall(f) && Shows(fn, f).Some?
      && (Visible(f) ==> Clear(Shows(fn, f).value.typ, f.format) && !f.hasParams && RoleFits(h, f))
  }

  /** A format is clear for a type exactly when it fits, is not in need of outside facts, and is
      not the raw view of an address. */
  lemma ClearIff(typ: string, format: Option<string>)
    ensures Clear(typ, format) <==>
            && FormatMatches(typ, format) && (typ == "address" ==> format == Some("addressName"))
            && format !in {Some("calldata"), Some("tokenAmount"), Some("nftName"), Some("date"), Some("unit"), Some("enum")}
  {
    hide ArrayBase, FormatMatches;
    FormatMatchesIff(typ, format);
    TypesApart();
  }

  lemma CallPathIs(path: string)
    ensures IsCallPath(path) <==> "#." <= path
    ensures !("#." <= "@.from") && !("#." <= "@.to") && !("#." <= "@.value")
  {
    NotPrefix("@.from", "#.", 0);
    NotPrefix("@.to", "#.", 0);
    NotPrefix("@.value", "#.", 0);
  }

  /** A field earns no finding exactly when it is proper. */
  lemma NoFindingIff(fn: Function, h: Heuristics, f: Field)
    ensures FieldFindings(fn, h, f) == [] <==> Proper(fn, h, f)
  {
    hide FormatMatches, Clear, Target;
    if f.path.Some? {
      CallPathIs(f.path.value);
      if OnCall(f) {
        assert !("#." <= "@.from") && !("#." <= "@.to") && !("#." <= "@.value");
        if Shows(fn, f).Some? { ClearIff(Shows(fn, f).value.typ, f.format); }
      }
    }
  }

  /** Which code a visible field on a resolved call argument earns, and why. */
  lemma ArgumentCodes(fn: Function, h: Heuristics, f: Field)
    requires OnCall(f) && Shows(fn, f).Some? && Visible(f)
    ensures var typ, codes := Shows(fn, f).value.typ, FieldFindings(fn, h, f);
            var format := if f.format.Some? then f.format.value else "raw";
            && (FieldFormatMismatch in codes <==> !Renders(format, typ))
            && (RawAddressPresentation in codes <==> typ == "address" && format == "raw")
            && (FormatAssuranceUnsupported in codes <==>
                  Renders(format, typ) && (typ == "address" ==> format == "addressName") && (Clear(typ, f.format) ==> f.hasParams))
            && (RoleLabelMismatch in codes <==> Clear(typ, f.format) && !f.hasParams && !RoleFits(h, f))
            && |codes| <= 1
  {
    hide FormatMatches, Target, Renders, ArrayBase, Clear;
    var typ := Shows(fn, f).value.typ;
    CallPathIs(f.path.value);
    assert f.path.value !in {"@.from", "@.to", "@.value"};
    ClearIff(typ, f.format);
    FormatMatchesIff(typ, f.format);
    AddressFormats(f.format);
    assert FieldFindings(fn, h, f) == match ArgumentFinding(fn, h, f) { case None => [] case Some(code) => [code] };
  }

  lemma AddressFormats(format: Option<string>)
    ensures FormatMatches("address", format) <==> format in {None, Some("raw"), Some("addressName")}
  {
    hide ArrayBase, FormatMatches;
    FormatMatchesIff("address", format);
    TypesApart();
  }

  /** Which codes a field on sender, destination or value earns. */
  lemma TransactionCodes(fn: Function, h: Heuristics, f: Field)
    requires f.path in {Some("@.from"), Some("@.to"), Some("@.value")}
    ensures var codes, role := FieldFindings(fn, h, f),
              (if f.path == Some("@.from") then "sender" else if f.path == Some("@.to") then "contract" else "native_value");
            && (FieldFormatMismatch in codes <==>
                  Visible(f) && f.format != Some(if f.path == Some("@.value") then "amount" else "addressName"))
            && (RoleLabelMismatch in codes <==>
                  Visible(f) && !LabelFits(h, role, f) && (f.path == Some("@.value") ==> f.format == Some("amount")))
            && (forall code :: code in codes ==> code in {FieldFormatMismatch, RoleLabelMismatch})
  {
    hide LabelFits;
    assert |"@.from"| == 6 && |"@.to"| == 4 && |"@.value"| == 7;
    if f.path != Some("@.value") {
      var role := if f.path == Some("@.from") then "sender" else "contract";
      var formats := if Visible(f) && f.format != Some("addressName") then [FieldFormatMismatch] else [];
      var labels := if Visible(f) && !LabelFits(h, role, f) then [RoleLabelMismatch] else [];
      assert FieldFindings(fn, h, f) == formats + labels;
      forall code ensures code in formats + labels <==> code in formats || code in labels {}
    }
  }

  /** Which codes a field earns whatever its visibility; a hidden one earns no other. */
  lemma PathCodes(fn: Function, h: Heuristics, f: Field)
    requires f.path !in {Some("@.from"), Some("@.to"), Some("@.value")}
    ensures UnsupportedFieldPath in FieldFindings(fn, h, f) <==> !OnCall(f)
    ensures FieldPathUnresolved in FieldFindings(fn, h, f) <==> OnCall(f) && Shows(fn, f).None?
    ensures OnCall(f) && Shows(fn, f).Some? && !Visible(f) ==> FieldFindings(fn, h, f) == []
  {
    hide FormatMatches, Target;
    if f.path.Some? { CallPathIs(f.path.value); }
  }

  // ------------------------------------------------------------------ coverage, code by code

  lemma {:induction false} PathCoverage(required: seq<Option<Path>>, shown: set<Path>, code: Code)
    ensures code in PathsFindings(required, shown) <==>
            exists k :: 0 <= k < |required| && CoverageFinding(required[k], shown) == Some(code)
  {
    if required != [] { PathCoverage(required[..|required| - 1], shown, code); }
  }

  lemma InputCoverage(i: Input, shown: set<Path>)
    ensures var codes, paths := PathsFindings(RequiredPaths(i), shown), LeafPaths(i, [i.name]);
            && (ArgumentNotVisible in codes <==> i.name == "" || exists p :: p in paths && p !in shown)
            && (CollectionNotExpanded in codes <==> i.name != "" && exists p :: p in paths && p in shown && |p| != 1 && "[]" in p)
            && (StructuredValueUnsupported in codes <==>
                  i.name != "" && exists p :: p in paths && p in shown && |p| != 1 && "[]" !in p)
  {
    hide LeafPaths, PathsFindings;
    var required, paths := RequiredPaths(i), LeafPaths(i, [i.name]);
    PathCoverage(required, shown, ArgumentNotVisible);
    PathCoverage(required, shown, CollectionNotExpanded);
    PathCoverage(required, shown, StructuredValueUnsupported);
    if i.name == "" {
      assert required[0] == None;
    } else {
      forall p | p in paths ensures exists k :: 0 <= k < |required| && required[k] == Some(p) {
        var k :| 0 <= k < |paths| && paths[k] == p;
        assert required[k] == Some(p);
      }
    }
  }

  // ------------------------------------------------------------------ opaque values, code by code

  /** `x` is the value `r` itself or stands somewhere inside it. */
  ghost predicate Inside(x: Rendered, r: Rendered)
    decreases r
  {
    x == r || (r.List? && exists k :: 0 <= k < |r.items| && Inside(x, r.items[k]))
  }

  /** Something inside the value earns the code. */
  ghost predicate Hides(r: Rendered, code: Code) {
    || (code == OpaqueValueTruncated && Inside(Bytes(true), r))
    || (code == OpaqueValueTooLong && exists length :: length > 256 && Inside(Text(length), r))
  }

  lemma {:induction false} OpaqueCodesIff(r: Rendered, code: Code)
    ensures code in OpaqueCodes(r) <==> Hides(r, code)
    decreases r, 1
  {
    if r.List? {
      OpaqueAllIff(r.items, code);
      forall k | 0 <= k < |r.items| ensures Hides(r.items[k], code) ==> Hides(r, code) {
      }
    } else if r.Text? {
      assert Inside(Text(r.length), r);
    }
  }

  lemma {:induction false} OpaqueAllIff(rs: seq<Rendered>, code: Code)
    ensures code in OpaqueCodesAll(rs) <==> exists k :: 0 <= k < |rs| && Hides(rs[k], code)
    decreases rs, 0
  {
    hide Hides;
    if rs != [] {
      OpaqueCodesIff(rs[|rs| - 1], code);
      OpaqueAllIff(rs[..|rs| - 1], code);
    }
  }

  // ------------------------------------------------------------------ all findings, code by code

  lemma {:induction false} InFields(fn: Function, h: Heuristics, fields: seq<Field>, code: Code)
    ensures code in FieldsFindings(fn, h, fields) <==> exists k :: 0 <= k < |fields| && code in FieldFindings(fn, h, fields[k])
  {
    hide FieldFindings;
    if fields != [] { InFields(fn, h, fields[..|fields| - 1], code); }
  }

  lemma {:induction false} InInputs(inputs: seq<Input>, shown: set<Path>, code: Code)
    ensures code in InputsFindings(inputs, shown) <==>
            exists n :: 0 <= n < |inputs| && code in PathsFindings(RequiredPaths(inputs[n]), shown)
  {
    hide PathsFindings, RequiredPaths;
    if inputs != [] { InInputs(inputs[..|inputs| - 1], shown, code); }
  }

  lemma {:induction false} InDecoded(decoded: seq<Rendered>, code: Code)
    ensures code in DecodedFindings(decoded) <==> exists n :: 0 <= n < |decoded| && Hides(decoded[n], code)
  {
    hide OpaqueCodes, Hides;
    if decoded != [] {
      InDecoded(decoded[..|decoded| - 1], code);
      OpaqueCodesIff(decoded[|decoded| - 1], code);
    }
  }

  /** Some field always shows the native value as an amount. */
  ghost predicate ValueAlwaysShown(fields: seq<Field>) {
    exists k :: 0 <= k < |fields|
      && fields[k].path == Some("@.value") && fields[k].visible == Some("always") && fields[k].format == Some("amount")
  }

  /** Exactly which codes a screen earns: for its intent, a field, an input that is not covered,
      a value that is not shown, and a decoded argument that cannot be reviewed. */
  lemma FindingIff(fn: Function, h: Heuristics, fields: seq<Field>, value: nat, decoded: seq<Rendered>, code: Code)
    ensures code in Findings(fn, h, fields, value, decoded) <==>
            || (code == IntentActionMismatch && !h.intentMatches)
            || (exists k :: 0 <= k < |fields| && code in FieldFindings(fn, h, fields[k]))
            || (exists n :: 0 <= n < |fn.inputs| && code in PathsFindings(RequiredPaths(fn.inputs[n]), ShownPaths(fn, h, fields)))
            || (code == ValueNotVisible && value > 0 && !ValueAlwaysShown(fields))
            || (exists n :: 0 <= n < |decoded| && Hides(decoded[n], code))
  {
    hide FieldFindings, FieldsFindings, InputsFindings, PathsFindings, RequiredPaths, ShownPaths, DecodedFindings, Hides;
    InFields(fn, h, fields, code);
    InInputs(fn.inputs, ShownPaths(fn, h, fields), code);
    InDecoded(decoded, code);
    assert AmountShown(fields) <==> ValueAlwaysShown(fields);
  }

  // ------------------------------------------------------------------ the verdict, reason by reason

  ghost predicate AcceptsValue(fn: Function) {
    fn.mutability == Some("payable") || (fn.mutability == None && fn.payable == Some(true))
  }

  /** The order of the verdicts: each reason is given exactly when every earlier one is absent. */
  lemma ReasonIff(fn: Function, h: Heuristics, fields: Option<seq<Field>>, value: nat, decoded: seq<Rendered>, a: Analysis)
    ensures var gate := Verdict(fn, h, fields, value, decoded, a);
            var refused := value > 0 && !AcceptsValue(fn);
            var blocked := refused || fields.None? || CRITICAL in a.audit || CRITICAL in a.danger
                           || Findings(fn, h, fields.value, value, decoded) != [];
            var consequence, audited, dangerous :=
              a.tier in {CRITICAL, HIGH}, HIGH in a.audit || MEDIUM in a.audit, HIGH in a.danger || MEDIUM in a.danger;
            && (gate.Block? <==> blocked)
            && (gate == Block(NonpayableWithValue) <==> refused)
            && (gate == Block(MissingClearSigningFormat) <==> !refused && fields.None?)
            && (gate == Block(PresentationCritical) <==> !refused && fields.Some? && CRITICAL in a.audit)
            && (gate == Block(DangerCritical) <==>
                  !refused && fields.Some? && CRITICAL !in a.audit && CRITICAL in a.danger)
            && (gate == Review(UnlimitedApproval) <==> !blocked && consequence && a.unlimitedApproval)
            && (gate == Review(ComprehensionReview) <==> !blocked && consequence && !a.unlimitedApproval)
            && (gate == Review(PresentationReview) <==> !blocked && !consequence && audited)
            && (gate == Review(DangerReview) <==> !blocked && !consequence && !audited && dangerous)
            && (gate == SafeToPresent <==> !blocked && !consequence && !audited && !dangerous)
  {
    hide Findings;
  }

  // ------------------------------------------------------------------ the clear verdict

  /** No two fields share a path, as descriptor validation demands. */
  ghost predicate DistinctPaths(fields: seq<Field>) {
    forall i, j :: 0 <= i < j < |fields| && fields[i].path.Some? ==> fields[i].path != fields[j].path
  }

  /** Field `k`, and no other, shows the input: visible to everyone, in a format that is clear for
      its type, without parameters, and labelled for its role. */
  ghost predicate ShownOnce(h: Heuristics, fields: seq<Field>, i: Input, k: nat)
    requires k < |fields|
  {
    var f := fields[k];
    && f.path == Some("#." + i.name) && f.visible in {None, Some("always")}
    && (forall j :: 0 <= j < |fields| && j != k ==> fields[j].path != f.path)
    && Clear(i.typ, f.format) && !f.hasParams
    && (i.name in h.roles ==> LabelFits(h, h.roles[i.name], f))
  }

  /** The input is one signed value, not a container of several, and exactly one field shows it. */
  ghost predicate ShownWhole(h: Heuristics, fields: seq<Field>, i: Input) {
    && ArrayBase(i.typ).None? && !("tuple" <= i.typ && i.components.Listed? && i.components.inputs != [])
    && exists k :: 0 <= k < |fields| && ShownOnce(h, fields, i, k)
  }

  /** The screen shows everything that is signed, once, and says nothing else. */
  ghost predicate Faithful(fn: Function, h: Heuristics, fields: seq<Field>, value: nat, decoded: seq<Rendered>) {
    && h.intentMatches
    && (forall k :: 0 <= k < |fields| ==> Proper(fn, h, fields[k]))
    && (forall n :: 0 <= n < |fn.inputs| ==> ShownWhole(h, fields, fn.inputs[n]))
    && (value > 0 ==> ValueAlwaysShown(fields))
    && (forall n :: 0 <= n < |decoded| ==> !Inside(Bytes(true), decoded[n]))
    && (forall n, length :: 0 <= n < |decoded| && length > 256 ==> !Inside(Text(length), decoded[n]))
  }

  lemma OneSegment(path: string, name: string)
    requires "#." <= path
    ensures SplitDots(path[2..]) == [name] ==> path == "#." + name
    ensures path == "#." + name && '.' !in name ==> SplitDots(path[2..]) == [name]
  {
    JoinOfSplit(path[2..]);
    assert path == path[..2] + path[2..];
    if path == "#." + name && '.' !in name { SplitFirst(name, ""); }
  }

  /** An input whose leaf paths all have one segment is itself the only leaf. */
  lemma ShortPathIsInput(i: Input)
    requires ValidInput(i) && forall k :: 0 <= k < |LeafPaths(i, [i.name])| ==> |LeafPaths(i, [i.name])[k]| == 1
    requires LeafPaths(i, [i.name]) != []
    ensures IsLeaf(i) && LeafPaths(i, [i.name]) == [[i.name]]
  {
    LeafPathsResolve(i, [i.name]);
    LeafPathsDistinct(i, [i.name]);
    assert LeadsTo(i, [i.name], LeafPaths(i, [i.name])[0], Leaves(i)[0]);
    assert LeafPaths(i, [i.name])[0] == [i.name];
    assert [i.name][1..] == [];
    assert PathTarget(i, []) == Some(i);
  }

  /** Every input has at least one leaf. */
  lemma {:induction false} SomeLeaf(i: Input, prefix: Path)
    ensures LeafPaths(i, prefix) != []
    decreases i.components, |i.typ|
  {
    var base := ArrayBase(i.typ);
    if base.Some? {
      SomeLeaf(i.(typ := base.value), prefix + [ELEMENT]);
    } else if IsTuple(i.typ) && i.components.Listed? && i.components.inputs != [] {
      var c := i.components.inputs[0];
      SomeLeaf(c, prefix + [ComponentName(c, 0)]);
      assert |LeafPathsFrom(i.components, 0, prefix)| >= |LeafPaths(c, prefix + [ComponentName(c, 0)])|;
    }
  }

  /** One segment naming an input looks that input up. */
  lemma InputTarget(fn: Function, n: nat)
    requires ValidInputs(Listed(fn.inputs)) && n < |fn.inputs|
    ensures Target(fn, [fn.inputs[n].name]) == Some(fn.inputs[n])
  {
    var name := fn.inputs[n].name;
    RootUnique(fn.inputs, n);
    IdentifierIsName(name);
    assert [name][1..] == [];
  }

  /** A field puts an input on the screen exactly when it shows it whole. */
  lemma ShownPathIff(fn: Function, h: Heuristics, f: Field, n: nat)
    requires ValidInputs(Listed(fn.inputs)) && n < |fn.inputs|
    ensures var i := fn.inputs[n];
            ShownPath(fn, h, f) == Some([i.name]) <==>
              && f.path == Some("#." + i.name) && f.visible in {None, Some("always")}
              && Clear(i.typ, f.format) && !f.hasParams && (i.name in h.roles ==> LabelFits(h, h.roles[i.name], f))
  {
    hide Clear, FormatMatches, ArgumentFinding, Target, LabelFits;
    var name := fn.inputs[n].name;
    IdentifierIsName(name);
    InputTarget(fn, n);
    if f.path.Some? && "#." <= f.path.value {
      CallPathIs(f.path.value);
      OneSegment(f.path.value, name);
      assert f.path.value !in {"@.from", "@.to", "@.value"};
      NoFindingIff(fn, h, f);
      FieldCodesOf(fn, h, f);
    } else {
      assert "#." <= "#." + name;
      if f.path.Some? { CallPathIs(f.path.value); }
    }
  }

  lemma FieldCodesOf(fn: Function, h: Heuristics, f: Field)
    requires OnCall(f) && f.path.value !in {"@.from", "@.to", "@.value"}
    ensures IsCallPath(f.path.value) && (FieldFindings(fn, h, f) == [] <==> ArgumentFinding(fn, h, f).None?)
  {
    hide ArgumentFinding;
    CallPathIs(f.path.value);
  }

  /** Coverage of one input, in terms of the fields that show it. */
  lemma InputBoundIff(fn: Function, h: Heuristics, fields: seq<Field>, n: nat)
    requires ValidInputs(Listed(fn.inputs)) && DistinctPaths(fields) && n < |fn.inputs|
    ensures InputBound(fn, h, fields, fn.inputs[n]) <==> ShownWhole(h, fields, fn.inputs[n])
  {
    hide ShownPath, LabelFits, Clear, LeafPaths;
    var i := fn.inputs[n];
    IdentifierIsName(i.name);
    if InputBound(fn, h, fields, i) {
      SomeLeaf(i, [i.name]);
      ShortPathIsInput(i);
      assert Covers(fn, h, fields, LeafPaths(i, [i.name])[0]);
      var k :| 0 <= k < |fields| && ShownPath(fn, h, fields[k]) == Some([i.name]);
      ShownPathIff(fn, h, fields[k], n);
      assert ShownOnce(h, fields, i, k);
    }
    if ShownWhole(h, fields, i) {
      var k :| 0 <= k < |fields| && ShownOnce(h, fields, i, k);
      ShownPathIff(fn, h, fields[k], n);
      LeafIsItsPath(i);
      assert Covers(fn, h, fields, [i.name]);
    }
  }

  lemma LeafIsItsPath(i: Input)
    requires IsLeaf(i)
    ensures LeafPaths(i, [i.name]) == [[i.name]]
  {
  }

  lemma NothingHidden(decoded: seq<Rendered>)
    ensures (forall n :: 0 <= n < |decoded| ==> Reviewable(decoded[n])) <==>
            && (forall n :: 0 <= n < |decoded| ==> !Inside(Bytes(true), decoded[n]))
            && (forall n, length :: 0 <= n < |decoded| && length > 256 ==> !Inside(Text(length), decoded[n]))
  {
    hide Reviewable, Inside, OpaqueCodes;
    forall n | 0 <= n < |decoded|
      ensures Reviewable(decoded[n]) <==>
              !Inside(Bytes(true), decoded[n]) && forall length :: length > 256 ==> !Inside(Text(length), decoded[n])
    {
      ReviewableIff(decoded[n]);
    }
  }

  lemma ReviewableIff(r: Rendered)
    ensures Reviewable(r) <==> !Inside(Bytes(true), r) && forall length :: length > 256 ==> !Inside(Text(length), r)
  {
    hide Reviewable, Inside, OpaqueCodes;
    NoCodesIff(r);
    forall code ensures code in OpaqueCodes(r) <==> Hides(r, code) { OpaqueCodesIff(r, code); }
    if OpaqueCodes(r) != [] {
      assert Hides(r, OpaqueCodes(r)[0]);
    } else {
      assert !Hides(r, OpaqueValueTruncated) && !Hides(r, OpaqueValueTooLong);
    }
  }

  lemma BoundIff(fn: Function, h: Heuristics, fields: seq<Field>, value: nat, decoded: seq<Rendered>)
    requires ValidInputs(Listed(fn.inputs)) && DistinctPaths(fields)
    ensures Bound(fn, h, fields, value, decoded) <==> Faithful(fn, h, fields, value, decoded)
  {
    hide FieldFindings, Proper, InputBound, ShownWhole, Reviewable, Inside;
    forall k | 0 <= k < |fields| ensures FieldFindings(fn, h, fields[k]) == [] <==> Proper(fn, h, fields[k]) {
      NoFindingIff(fn, h, fields[k]);
    }
    forall n | 0 <= n < |fn.inputs| ensures InputBound(fn, h, fields, fn.inputs[n]) <==> ShownWhole(h, fields, fn.inputs[n]) {
      InputBoundIff(fn, h, fields, n);
    }
    assert (exists k :: 0 <= k < |fields| && ShowsValue(fields[k]) && fields[k].visible == Some("always")) <==> ValueAlwaysShown(fields);
    NothingHidden(decoded);
  }

  /** The verdict is clear exactly for a faithful screen, whose value the function accepts, over
      analyses that found nothing above LOW and no consequence above MEDIUM. */
  lemma SafeIff(fn: Function, h: Heuristics, fields: Option<seq<Field>>, value: nat, decoded: seq<Rendered>, a: Analysis)
    requires ValidInputs(Listed(fn.inputs)) && (fields.Some? ==> DistinctPaths(fields.value))
    ensures Verdict(fn, h, fields, value, decoded, a) == SafeToPresent <==>
            && fields.Some? && Faithful(fn, h, fields.value, value, decoded)
            && (value > 0 ==> AcceptsValue(fn))
            && a.audit <= {LOW} && a.danger <= {LOW} && a.tier in {LOW, MEDIUM}
  {
    hide Findings, Faithful, Bound, Verdict;
    ReasonIff(fn, h, fields, value, decoded, a);
    if fields.Some? {
      NothingFoundIff(fn, h, fields.value, value, decoded);
      BoundIff(fn, h, fields.value, value, decoded);
    }
    OnlyLow(a.audit);
    OnlyLow(a.danger);
    assert a.tier in {LOW, MEDIUM} <==> !a.tier.CRITICAL? && !a.tier.HIGH?;
  }

  lemma OnlyLow(found: set<Severity>)
    ensures found <= {LOW} <==> CRITICAL !in found && HIGH !in found && MEDIUM !in found
  {
    forall s: Severity | s in found ensures s == LOW || s in {CRITICAL, HIGH, MEDIUM} {}
  }

  /** In particular: every input is a single signed value that one visible field shows, an address
      by name, a number raw or as an amount or a duration, anything else raw. */
  lemma SafeMeansShown(fn: Function, h: Heuristics, fields: Option<seq<Field>>, value: nat, decoded: seq<Rendered>, a: Analysis, n: nat)
    returns (k: nat)
    requires ValidInputs(Listed(fn.inputs)) && (fields.Some? ==> DistinctPaths(fields.value)) && n < |fn.inputs|
    requires Verdict(fn, h, fields, value, decoded, a) == SafeToPresent
    ensures fields.Some? && k < |fields.value|
    ensures var f, typ := fields.value[k], fn.inputs[n].typ;
            && f.path == Some("#." + fn.inputs[n].name) && f.visible in {None, Some("always")} && !f.hasParams
            && (typ == "address" ==> f.format == Some("addressName"))
            && ("uint" <= typ || "int" <= typ ==> f.format in {None, Some("raw"), Some("amount"), Some("duration")})
            && (!("uint" <= typ) && !("int" <= typ) && typ != "address" ==> f.format in {None, Some("raw")})
    ensures LeafPaths(fn.inputs[n], [fn.inputs[n].name]) == [[fn.inputs[n].name]]
  {
    hide Verdict, Proper, LabelFits;
    SafeIff(fn, h, fields, value, decoded, a);
    var i := fn.inputs[n];
    assert ShownWhole(h, fields.value, i);
    LeafIsItsPath(i);
    TypesApart();
    k :| 0 <= k < |fields.value| && ShownOnce(h, fields.value, i, k);
  }
}
