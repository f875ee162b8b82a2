/** The presentation gate: what must be true of a screen before a call is safe to present.

The keyword heuristics enter as data: whether the intent matches a known action, which role an
input plays, whether a label fits a role, and the audit, danger and comprehension results. */
module Presentation {
  import opened Basics
  import opened Abi
  import opened AbiPaths

  datatype Field = Field(
    path: Option<string>,
    labelText: Option<string>,
    format: Option<string>,
    visible: Option<string>,
    hasParams: bool)

  datatype Function = Function(name: string, inputs: seq<Input>, mutability: Option<string>, payable: Option<bool>)

  /** A decoded argument as JSON: nested lists, byte strings, texts, and anything else. */
  datatype Rendered = List(items: seq<Rendered>) | Bytes(truncated: bool) | Text(length: nat) | Scalar

  datatype Heuristics = Heuristics(
    intentMatches: bool,
    roles: map<string, string>,
    labelFits: (string, string) -> bool)

  datatype Code =
    | IntentActionMismatch
    | FieldFormatMismatch
    | RoleLabelMismatch
    | UnsupportedFieldPath
    | FieldPathUnresolved
    | RawAddressPresentation
    | FormatAssuranceUnsupported
    | CollectionNotExpanded
    | StructuredValueUnsupported
    | ArgumentNotVisible
    | ValueNotVisible
    | OpaqueValueTruncated
    | OpaqueValueTooLong

  const ALLOWED_FORMATS :=
    {"raw", "addressName", "calldata", "amount", "tokenAmount", "nftName", "date", "duration", "unit", "enum"}
  const UNVERIFIED_FORMATS := {"calldata", "tokenAmount", "nftName", "date", "unit", "enum"}

  // ------------------------------------------------------------------ one field

  predicate Shown(f: Field) { f.visible.None? || f.visible.value == "always" }

  /** Whether a renderer fits an ABI type; a missing format is the raw view. */
  predicate FormatMatches(typ: string, format: Option<string>) {
    var f := if format.None? then "raw" else format.value;
    && f in ALLOWED_FORMATS
    && if ArrayBase(typ).Some? || IsTuple(typ) then f in {"raw", "calldata"}
       else if typ == "address" then f in {"raw", "addressName"}
       else if typ == "bool" then f in {"raw", "enum"}
       else if StartsWith(typ, "uint") || StartsWith(typ, "int") then
         f in {"raw", "amount", "tokenAmount", "nftName", "date", "duration", "unit", "enum"}
       else if StartsWith(typ, "bytes") then f in {"raw", "calldata"}
       else if typ == "string" then f in {"raw", "enum"}
       else f == "raw"
  }

  predicate LabelFits(h: Heuristics, role: string, f: Field) {
    f.labelText.Some? && h.labelFits(role, f.labelText.value)
  }

  predicate IsCallPath(path: string) { StartsWith(path, "#.") }

  function Segments(path: string): seq<string>
    requires IsCallPath(path)
  {
    SplitDots(path[2..])
  }

  function Target(fn: Function, segments: Path): Option<Input>
    requires segments != []
  {
    match RootNamed(fn.inputs, segments[0])
    case None => None
    case Some(root) => if segments[0] == "" then None else PathTarget(root, segments[1..])
  }

  /** What a field over a call argument gets wrong first, if anything. */
  function ArgumentFinding(fn: Function, h: Heuristics, f: Field): Option<Code>
    requires f.path.Some? && IsCallPath(f.path.value)
  {
    var segments := Segments(f.path.value);
    var target := Target(fn, segments);
    if target.None? then Some(FieldPathUnresolved)
    else if !Shown(f) then None
    else if !FormatMatches(target.value.typ, f.format) then Some(FieldFormatMismatch)
    else if target.value.typ == "address" && f.format != Some("addressName") then Some(RawAddressPresentation)
    else if f.format.Some? && f.format.value in UNVERIFIED_FORMATS then Some(FormatAssuranceUnsupported)
    else if f.hasParams then Some(FormatAssuranceUnsupported)
    else if |segments| == 1 && segments[0] in h.roles && !LabelFits(h, h.roles[segments[0]], f) then Some(RoleLabelMismatch)
    else None
  }

  function FieldFindings(fn: Function, h: Heuristics, f: Field): seq<Code> {
    if f.path == Some("@.from") || f.path == Some("@.to") then
      var role := if f.path == Some("@.from") then "sender" else "contract";
      (if Shown(f) && f.format != Some("addressName") then [FieldFormatMismatch] else [])
      + if Shown(f) && !LabelFits(h, role, f) then [RoleLabelMismatch] else []
    else if f.path == Some("@.value") then
      if Shown(f) && f.format != Some("amount") then [FieldFormatMismatch]
      else if Shown(f) && !LabelFits(h, "native_value", f) then [RoleLabelMismatch]
      else []
    else if f.path.None? || !IsCallPath(f.path.value) then [UnsupportedFieldPath]
    else match ArgumentFinding(fn, h, f)
      case None => []
      case Some(code) => [code]
  }

  predicate ShowsValue(f: Field) { f.path == Some("@.value") && Shown(f) && f.format == Some("amount") }

  /** The argument path that a field puts on the screen without a finding. */
  function ShownPath(fn: Function, h: Heuristics, f: Field): Option<Path> {
    if f.path.Some? && IsCallPath(f.path.value) && Shown(f) && ArgumentFinding(fn, h, f).None? then Some(Segments(f.path.value))
    else None
  }

  // ------------------------------------------------------------------ coverage

  /** The paths an input must be shown by; an unnamed input cannot be. */
  function RequiredPaths(i: Input): seq<Option<Path>> {
    if i.name == "" then [None] else Somes(LeafPaths(i, [i.name]))
  }

  function Somes(paths: seq<Path>): (r: seq<Option<Path>>)
    ensures |r| == |paths| && forall k :: 0 <= k < |paths| ==> r[k] == Some(paths[k])
  {
    if paths == [] then [] else [Some(paths[0])] + Somes(paths[1..])
  }

  function CoverageFinding(required: Option<Path>, shown: set<Path>): Option<Code> {
    if required.Some? && required.value in shown then
      if |required.value| == 1 then None
      else Some(if ELEMENT in required.value then CollectionNotExpanded else StructuredValueUnsupported)
    else Some(ArgumentNotVisible)
  }

  /** What covering one input, and all of them, gets wrong. */
  function PathsFindings(required: seq<Option<Path>>, shown: set<Path>): seq<Code> {
    if required == [] then []
    else
      var n := |required| - 1;
      PathsFindings(required[..n], shown) + match CoverageFinding(required[n], shown)
        case None => []
        case Some(code) => [code]
  }

  function InputsFindings(inputs: seq<Input>, shown: set<Path>): seq<Code> {
    if inputs == [] then []
    else
      var n := |inputs| - 1;
      InputsFindings(inputs[..n], shown) + PathsFindings(RequiredPaths(inputs[n]), shown)
  }

  // ------------------------------------------------------------------ opaque values

  function Weight(r: Rendered): nat
    decreases r, 1
  {
    if r.List? then 1 + WeightAll(r.items) else 1
  }

  function WeightAll(rs: seq<Rendered>): nat
    decreases rs, 0
  {
    if rs == [] then 0 else WeightAll(rs[..|rs| - 1]) + Weight(rs[|rs| - 1])
  }

  /** Every value below is short enough to be reviewed in full. */
  predicate Reviewable(r: Rendered)
    decreases r, 1
  {
    match r
    case List(items) => forall k :: 0 <= k < |items| ==> Reviewable(items[k])
    case Bytes(truncated) => !truncated
    case Text(length) => length <= 256
    case Scalar => true
  }

  /** What is too long below a value, the last item of each list first. */
  function OpaqueCodes(r: Rendered): seq<Code>
    decreases r, 1
  {
    match r
    case List(items) => OpaqueCodesAll(items)
    case Bytes(truncated) => if truncated then [OpaqueValueTruncated] else []
    case Text(length) => if length > 256 then [OpaqueValueTooLong] else []
    case Scalar => []
  }

  function OpaqueCodesAll(rs: seq<Rendered>): seq<Code>
    decreases rs, 0
  {
    if rs == [] then [] else OpaqueCodes(rs[|rs| - 1]) + OpaqueCodesAll(rs[..|rs| - 1])
  }

  lemma StackPush(rs: seq<Rendered>, r: Rendered)
    ensures OpaqueCodesAll(rs + [r]) == OpaqueCodes(r) + OpaqueCodesAll(rs)
    ensures WeightAll(rs + [r]) == WeightAll(rs) + Weight(r)
  {
    hide OpaqueCodes, Weight;
    assert (rs + [r])[..|rs|] == rs;
  }

  lemma {:induction false} StackAppend(a: seq<Rendered>, b: seq<Rendered>)
    ensures OpaqueCodesAll(a + b) == OpaqueCodesAll(b) + OpaqueCodesAll(a)
    ensures WeightAll(a + b) == WeightAll(a) + WeightAll(b)
    decreases |b|
  {
    if b == [] {
      assert a + b == a;
    } else {
      hide OpaqueCodesAll, WeightAll;
      var front, last := b[..|b| - 1], b[|b| - 1];
      assert b == front + [last] && a + b == (a + front) + [last];
      StackAppend(a, front);
      StackPush(front, last);
      StackPush(a + front, last);
    }
  }

  /** Nothing is reported exactly when everything can be reviewed. */
  lemma {:induction false} NoCodesIff(r: Rendered)
    ensures OpaqueCodes(r) == [] <==> Reviewable(r)
    decreases r, 1
  {
    if r.List? { NoCodesAllIff(r.items); }
  }

  lemma {:induction false} NoCodesAllIff(rs: seq<Rendered>)
    ensures OpaqueCodesAll(rs) == [] <==> forall k :: 0 <= k < |rs| ==> Reviewable(rs[k])
    decreases rs, 0
  {
    if rs != [] {
      NoCodesIff(rs[|rs| - 1]);
      NoCodesAllIff(rs[..|rs| - 1]);
    }
  }

  /** The stack walk over one decoded argument. */
  method OpaqueFindings(value: Rendered) returns (codes: seq<Code>)
    ensures codes == OpaqueCodes(value)
    ensures codes == [] <==> Reviewable(value)
  {
    NoCodesIff(value);
    hide Reviewable;
    codes := [];
    var stack := [value];
    assert stack[..0] == [];
    while stack != []
      invariant codes + OpaqueCodesAll(stack) == OpaqueCodes(value)
      decreases WeightAll(stack)
    {
      var top := stack[|stack| - 1];
      assert WeightAll(stack) == WeightAll(stack[..|stack| - 1]) + Weight(top);
      stack := stack[..|stack| - 1];
      if top.List? {
        StackAppend(stack, top.items);
        stack := stack + top.items;
      } else if top.Bytes? && top.truncated {
        codes := codes + [OpaqueValueTruncated];
      } else if top.Text? && top.length > 256 {
        codes := codes + [OpaqueValueTooLong];
      }
    }
  }

  // ------------------------------------------------------------------ the binding

  ghost predicate Covers(fn: Function, h: Heuristics, fields: seq<Field>, p: Path) {
    exists k :: 0 <= k < |fields| && ShownPath(fn, h, fields[k]) == Some(p)
  }

  /** The input is named, and every signed leaf below it is a path of one segment on the screen. */
  ghost predicate InputBound(fn: Function, h: Heuristics, fields: seq<Field>, i: Input) {
    i.name != "" && forall k :: 0 <= k < |LeafPaths(i, [i.name])| ==>
      |LeafPaths(i, [i.name])[k]| == 1 && Covers(fn, h, fields, LeafPaths(i, [i.name])[k])
  }

  /** The screen is bound to the call: its intent is the call's, no field is wrong, and every
      input, the value and the decoded arguments can be seen in full. */
  ghost predicate Bound(fn: Function, h: Heuristics, fields: seq<Field>, value: nat, decoded: seq<Rendered>) {
    && h.intentMatches
    && (forall k :: 0 <= k < |fields| ==> FieldFindings(fn, h, fields[k]) == [])
    && (forall n :: 0 <= n < |fn.inputs| ==> InputBound(fn, h, fields, fn.inputs[n]))
    && (value > 0 ==> exists k :: 0 <= k < |fields| && ShowsValue(fields[k]) && fields[k].visible == Some("always"))
    && (forall n :: 0 <= n < |decoded| ==> Reviewable(decoded[n]))
  }

  function FieldsFindings(fn: Function, h: Heuristics, fields: seq<Field>): seq<Code> {
    if fields == [] then []
    else
      var n := |fields| - 1;
      FieldsFindings(fn, h, fields[..n]) + FieldFindings(fn, h, fields[n])
  }

  function DecodedFindings(decoded: seq<Rendered>): seq<Code> {
    if decoded == [] then []
    else
      var n := |decoded| - 1;
      DecodedFindings(decoded[..n]) + OpaqueCodes(decoded[n])
  }

  ghost function ShownPaths(fn: Function, h: Heuristics, fields: seq<Field>): set<Path> {
    set k | 0 <= k < |fields| && ShownPath(fn, h, fields[k]).Some? :: ShownPath(fn, h, fields[k]).value
  }

  ghost predicate AmountShown(fields: seq<Field>) {
    exists k :: 0 <= k < |fields| && ShowsValue(fields[k]) && fields[k].visible == Some("always")
  }

  /** Every finding, in the order in which it is reported. */
  ghost function Findings(fn: Function, h: Heuristics, fields: seq<Field>, value: nat, decoded: seq<Rendered>): seq<Code> {
    (if h.intentMatches then [] else [IntentActionMismatch])
    + FieldsFindings(fn, h, fields)
    + InputsFindings(fn.inputs, ShownPaths(fn, h, fields))
    + (if value > 0 && !AmountShown(fields) then [ValueNotVisible] else [])
    + DecodedFindings(decoded)
  }

  /** The loop over fields: what they get wrong, and what they put on the screen. */
  method ExamineFields(fn: Function, h: Heuristics, fields: seq<Field>)
    returns (findings: seq<Code>, shown: set<Path>, amountAlwaysShown: bool)
    ensures findings == FieldsFindings(fn, h, fields)
    ensures shown == ShownPaths(fn, h, fields)
    ensures amountAlwaysShown <==> AmountShown(fields)
  {
    hide FieldFindings, ShownPath, ShowsValue;
    findings, shown, amountAlwaysShown := [], {}, false;
    for i := 0 to |fields|
      invariant findings == FieldsFindings(fn, h, fields[..i])
      invariant shown == ShownPaths(fn, h, fields[..i])
      invariant amountAlwaysShown <==> AmountShown(fields[..i])
    {
      var f := fields[i];
      assert fields[..i + 1] == fields[..i] + [f];
      findings := findings + FieldFindings(fn, h, f);
      var path := ShownPath(fn, h, f);
      ShownSnoc(fn, h, fields[..i], f);
      if path.Some? {
        shown := shown + {path.value};
      }
      if ShowsValue(f) && f.visible == Some("always") {
        amountAlwaysShown := true;
      }
    }
    assert fields[..|fields|] == fields;
  }

  lemma ShownSnoc(fn: Function, h: Heuristics, fields: seq<Field>, f: Field)
    ensures ShownPaths(fn, h, fields + [f])
         == ShownPaths(fn, h, fields) + match ShownPath(fn, h, f) { case None => {} case Some(p) => {p} }
    ensures AmountShown(fields + [f]) <==> AmountShown(fields) || (ShowsValue(f) && f.visible == Some("always"))
  {
    hide ShownPath, ShowsValue;
    var more := fields + [f];
    assert more[|fields|] == f;
    assert forall k :: 0 <= k < |fields| ==> more[k] == fields[k];
  }

  /** The loop over the required paths of one input. */
  method ExamineInput(i: Input, shown: set<Path>) returns (findings: seq<Code>)
    ensures findings == PathsFindings(RequiredPaths(i), shown)
  {
    hide RequiredPaths, CoverageFinding, LeafPaths;
    findings := [];
    var required := RequiredPaths(i);
    for k := 0 to |required|
      invariant findings == PathsFindings(required[..k], shown)
    {
      assert required[..k + 1] == required[..k] + [required[k]];
      var finding := CoverageFinding(required[k], shown);
      if finding.Some? {
        findings := findings + [finding.value];
      }
    }
    assert required[..|required|] == required;
  }

  lemma {:induction false} NoPathFindingIff(required: seq<Option<Path>>, shown: set<Path>)
    ensures PathsFindings(required, shown) == [] <==>
            forall k :: 0 <= k < |required| ==> required[k].Some? && required[k].value in shown && |required[k].value| == 1
  {
    if required != [] {
      NoPathFindingIff(required[..|required| - 1], shown);
    }
  }

  ghost predicate Covered(i: Input, shown: set<Path>) {
    i.name != "" && forall k :: 0 <= k < |LeafPaths(i, [i.name])| ==>
      |LeafPaths(i, [i.name])[k]| == 1 && LeafPaths(i, [i.name])[k] in shown
  }

  lemma CoveredIff(i: Input, shown: set<Path>)
    ensures PathsFindings(RequiredPaths(i), shown) == [] <==> Covered(i, shown)
  {
    NoPathFindingIff(RequiredPaths(i), shown);
    assert i.name == "" ==> RequiredPaths(i)[0].None?;
    assert i.name != "" ==> forall m :: 0 <= m < |RequiredPaths(i)| ==> RequiredPaths(i)[m] == Some(LeafPaths(i, [i.name])[m]);
  }

  lemma {:induction false} AllCoveredIff(inputs: seq<Input>, shown: set<Path>)
    ensures InputsFindings(inputs, shown) == [] <==> forall n :: 0 <= n < |inputs| ==> Covered(inputs[n], shown)
  {
    hide RequiredPaths, PathsFindings, Covered;
    if inputs != [] {
      AllCoveredIff(inputs[..|inputs| - 1], shown);
      CoveredIff(inputs[|inputs| - 1], shown);
    }
  }

  lemma {:induction false} NoFieldFindingIff(fn: Function, h: Heuristics, fields: seq<Field>)
    ensures FieldsFindings(fn, h, fields) == [] <==> forall k :: 0 <= k < |fields| ==> FieldFindings(fn, h, fields[k]) == []
  {
    hide FieldFindings;
    if fields != [] { NoFieldFindingIff(fn, h, fields[..|fields| - 1]); }
  }

  lemma {:induction false} AllReviewableIff(decoded: seq<Rendered>)
    ensures DecodedFindings(decoded) == [] <==> forall n :: 0 <= n < |decoded| ==> Reviewable(decoded[n])
  {
    if decoded != [] {
      AllReviewableIff(decoded[..|decoded| - 1]);
      NoCodesIff(decoded[|decoded| - 1]);
    }
  }

  lemma CoveredIsBound(fn: Function, h: Heuristics, fields: seq<Field>, i: Input)
    ensures Covered(i, ShownPaths(fn, h, fields)) <==> InputBound(fn, h, fields, i)
  {
    hide ShownPath, LeafPaths;
    forall p ensures p in ShownPaths(fn, h, fields) <==> Covers(fn, h, fields, p) {}
  }

  /** Nothing is found exactly when the screen is bound to the call. */
  lemma NothingFoundIff(fn: Function, h: Heuristics, fields: seq<Field>, value: nat, decoded: seq<Rendered>)
    ensures Findings(fn, h, fields, value, decoded) == [] <==> Bound(fn, h, fields, value, decoded)
  {
    hide FieldFindings, ShownPath, ShowsValue, Reviewable, LeafPaths, Covered, InputBound;
    NoFieldFindingIff(fn, h, fields);
    AllCoveredIff(fn.inputs, ShownPaths(fn, h, fields));
    AllReviewableIff(decoded);
    forall n | 0 <= n < |fn.inputs|
      ensures Covered(fn.inputs[n], ShownPaths(fn, h, fields)) <==> InputBound(fn, h, fields, fn.inputs[n])
    {
      CoveredIsBound(fn, h, fields, fn.inputs[n]);
    }
  }

  method ExamineInputs(inputs: seq<Input>, shown: set<Path>) returns (findings: seq<Code>)
    ensures findings == InputsFindings(inputs, shown)
  {
    hide RequiredPaths, PathsFindings;
    findings := [];
    for n := 0 to |inputs|
      invariant findings == InputsFindings(inputs[..n], shown)
    {
      assert inputs[..n + 1] == inputs[..n] + [inputs[n]];
      var more := ExamineInput(inputs[n], shown);
      findings := findings + more;
    }
    assert inputs[..|inputs|] == inputs;
  }

  method ExamineDecoded(decoded: seq<Rendered>) returns (findings: seq<Code>)
    ensures findings == DecodedFindings(decoded)
  {
    hide OpaqueCodes;
    findings := [];
    for n := 0 to |decoded|
      invariant findings == DecodedFindings(decoded[..n])
    {
      assert decoded[..n + 1] == decoded[..n] + [decoded[n]];
      var more := OpaqueFindings(decoded[n]);
      findings := findings + more;
    }
    assert decoded[..|decoded|] == decoded;
  }

  /** The four loops in turn report exactly `Findings`, and so nothing exactly when the screen is
      bound to what is signed. */
  method PresentationBinding(fn: Function, h: Heuristics, fields: seq<Field>, value: nat, decoded: seq<Rendered>)
    returns (findings: seq<Code>)
    ensures findings == Findings(fn, h, fields, value, decoded)
    ensures findings == [] <==> Bound(fn, h, fields, value, decoded)
  {
    hide FieldFindings, FieldsFindings, InputsFindings, DecodedFindings, Bound, ShownPaths, AmountShown;
    NothingFoundIff(fn, h, fields, value, decoded);
    findings := if h.intentMatches then [] else [IntentActionMismatch];
    var fieldFindings, shown, amountAlwaysShown := ExamineFields(fn, h, fields);
    var inputFindings := ExamineInputs(fn.inputs, shown);
    findings := findings + fieldFindings + inputFindings;
    if value > 0 && !amountAlwaysShown {
      findings := findings + [ValueNotVisible];
    }
    var unreviewable := ExamineDecoded(decoded);
    findings := findings + unreviewable;
  }

  // ------------------------------------------------------------------ the verdict

  datatype Severity = CRITICAL | HIGH | MEDIUM | LOW

  datatype Reason =
    | MissingClearSigningFormat | PresentationCritical | DangerCritical | UnlimitedApproval | ComprehensionReview
    | PresentationReview | DangerReview | PresentationUnbound | NonpayableWithValue

  datatype Gate = Block(reason: Reason) | Review(reason: Reason) | SafeToPresent

  /** Findings of the analyses that are not modelled. */
  datatype Analysis = Analysis(audit: set<Severity>, danger: set<Severity>, tier: Severity, unlimitedApproval: bool)

  function CallVerdict(a: Analysis, hasFormat: bool): Gate {
    if !hasFormat then Block(MissingClearSigningFormat)
    else if CRITICAL in a.audit then Block(PresentationCritical)
    else if CRITICAL in a.danger then Block(DangerCritical)
    else if a.tier == CRITICAL || a.tier == HIGH then
      Review(if a.unlimitedApproval then UnlimitedApproval else ComprehensionReview)
    else if HIGH in a.audit || MEDIUM in a.audit then Review(PresentationReview)
    else if HIGH in a.danger || MEDIUM in a.danger then Review(DangerReview)
    else SafeToPresent
  }

  predicate IsPayable(fn: Function) {
    if fn.mutability.Some? then fn.mutability.value == "payable" else fn.payable == Some(true)
  }

  function ValueVerdict(fn: Function, value: nat): Option<Gate> {
    if value == 0 || IsPayable(fn) then None else Some(Block(NonpayableWithValue))
  }

  function BindingVerdict(findings: seq<Code>): Option<Gate> {
    if findings == [] then None else Some(Block(PresentationUnbound))
  }

  /** How the verdicts compose: unpayable value first, then the analyses' blocks, then an unbound
      screen, and last what the analyses leave for review. */
  ghost function Verdict(fn: Function, h: Heuristics, fields: Option<seq<Field>>, value: nat, decoded: seq<Rendered>, a: Analysis): Gate {
    var analyzer := CallVerdict(a, fields.Some?);
    if ValueVerdict(fn, value).Some? then ValueVerdict(fn, value).value
    else if analyzer.Block? then analyzer
    else
      var findings := if fields.Some? then Findings(fn, h, fields.value, value, decoded) else [];
      if BindingVerdict(findings).Some? then BindingVerdict(findings).value else analyzer
  }

  /** One call's verdict.  Without a format the binding has no findings of its own. */
  method CallGate(fn: Function, h: Heuristics, fields: Option<seq<Field>>, value: nat, decoded: seq<Rendered>, a: Analysis)
    returns (gate: Gate)
    ensures gate == Verdict(fn, h, fields, value, decoded, a)
    ensures gate == SafeToPresent <==>
            && fields.Some? && Bound(fn, h, fields.value, value, decoded)
            && (value > 0 ==> IsPayable(fn))
            && a.audit !! {CRITICAL, HIGH, MEDIUM} && a.danger !! {CRITICAL, HIGH, MEDIUM}
            && a.tier !in {CRITICAL, HIGH}
    ensures gate.Review? <==>
            && fields.Some? && Bound(fn, h, fields.value, value, decoded)
            && (value > 0 ==> IsPayable(fn)) && CRITICAL !in a.audit && CRITICAL !in a.danger
            && (HIGH in a.audit || MEDIUM in a.audit || HIGH in a.danger || MEDIUM in a.danger || a.tier in {CRITICAL, HIGH})
    ensures gate == Block(NonpayableWithValue) <==> value > 0 && !IsPayable(fn)
    ensures gate == Block(MissingClearSigningFormat) <==> fields.None? && (value > 0 ==> IsPayable(fn))
    ensures gate == Block(PresentationUnbound) <==>
            && fields.Some? && !Bound(fn, h, fields.value, value, decoded)
            && (value > 0 ==> IsPayable(fn)) && CRITICAL !in a.audit && CRITICAL !in a.danger
    ensures gate == Review(UnlimitedApproval) ==> a.unlimitedApproval
  {
    hide Bound, Findings;
    var findings: seq<Code> := [];
    if fields.Some? {
      findings := PresentationBinding(fn, h, fields.value, value, decoded);
    }
    var analyzer := CallVerdict(a, fields.Some?);
    var verdict := ValueVerdict(fn, value);
    if verdict.None? && analyzer.Block? {
      verdict := Some(analyzer);
    }
    if verdict.None? {
      verdict := BindingVerdict(findings);
    }
    return if verdict.Some? then verdict.value else analyzer;
  }
}
