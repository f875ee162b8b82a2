/** Canonical format keys: a parser of nested, possibly named parameter lists, proved against
the printer of canonical signatures. */
module Canonical {
  import opened Abi

  // ------------------------------------------------------------------ whitespace

  /** The characters that Python's `str.strip` and `str.split` treat as blank. */
  predicate IsSpace(c: char) {
    var v := c as int;
    || 0x09 <= v <= 0x0D || 0x1C <= v <= 0x20 || v == 0x85 || v == 0xA0 || v == 0x1680
    || 0x2000 <= v <= 0x200A || v == 0x2028 || v == 0x2029 || v == 0x202F || v == 0x205F || v == 0x3000
  }

  predicate Blank(s: string) { forall i :: 0 <= i < |s| ==> IsSpace(s[i]) }

  function StripLeft(s: string): string {
    if s != "" && IsSpace(s[0]) then StripLeft(s[1..]) else s
  }

  function StripRight(s: string): string {
    if s != "" && IsSpace(s[|s| - 1]) then StripRight(s[..|s| - 1]) else s
  }

  function Strip(s: string): string { StripRight(StripLeft(s)) }

  /** The leading run of non-blank characters. */
  function Word(s: string): string {
    if s == "" || IsSpace(s[0]) then "" else [s[0]] + Word(s[1..])
  }

  /** `s.split()[0]` for a string that is not blank. */
  function FirstWord(s: string): string { Word(StripLeft(s)) }

  // ------------------------------------------------------------------ nesting

  function Delta(c: char): int { if c == '(' then 1 else if c == ')' then -1 else 0 }

  /** Net number of parentheses opened. */
  function Net(s: string): int {
    if s == "" then 0 else Delta(s[0]) + Net(s[1..])
  }

  /** The pieces of `s` between commas at depth zero, `depth` parentheses being open. */
  function Pieces(s: string, depth: int): (r: seq<string>)
    ensures r != [] && |r[0]| <= |s|
    ensures forall i :: 0 <= i < |r| ==> |r[i]| <= |s|
  {
    if s == "" then [""]
    else if s[0] == ',' && depth == 0 then [""] + Pieces(s[1..], 0)
    else
      var rest := Pieces(s[1..], depth + Delta(s[0]));
      [[s[0]] + rest[0]] + rest[1..]
  }

  function StripParts(parts: seq<string>): (r: seq<string>)
    ensures forall i :: 0 <= i < |r| ==> r[i] != "" && exists j :: 0 <= j < |parts| && r[i] == Strip(parts[j])
  {
    if parts == [] then []
    else
      var first := Strip(parts[0]);
      var rest := StripParts(parts[1..]);
      assert forall i :: 0 <= i < |rest| ==> exists j :: 0 <= j < |parts| && rest[i] == Strip(parts[j]) by {
        forall i | 0 <= i < |rest| ensures exists j :: 0 <= j < |parts| && rest[i] == Strip(parts[j]) {
          var j :| 0 <= j < |parts[1..]| && rest[i] == Strip(parts[1..][j]);
          assert parts[j + 1] == parts[1..][j];
        }
      }
      assert first == Strip(parts[0]);
      if first == "" then rest else [first] + rest
  }

  /** A parameter list split on commas at depth zero, stripped, blanks dropped. */
  function SplitTop(params: string): seq<string> { StripParts(Pieces(params, 0)) }

  lemma {:induction false} StripShorter(s: string)
    ensures |StripLeft(s)| <= |s| && |StripRight(s)| <= |s| && |Strip(s)| <= |s|
  {
    StripLeftShorter(s);
    StripRightShorter(s);
    StripRightShorter(StripLeft(s));
  }

  lemma StripLeftShorter(s: string)
    ensures |StripLeft(s)| <= |s|
  {
  }

  lemma StripRightShorter(s: string)
    ensures |StripRight(s)| <= |s|
  {
  }

  lemma SplitTopShorter(params: string)
    ensures forall i :: 0 <= i < |SplitTop(params)| ==> SplitTop(params)[i] != "" && |SplitTop(params)[i]| <= |params|
  {
    var pieces := Pieces(params, 0);
    forall i | 0 <= i < |SplitTop(params)| ensures |SplitTop(params)[i]| <= |params| {
      var j :| 0 <= j < |pieces| && SplitTop(params)[i] == Strip(pieces[j]);
      StripShorter(pieces[j]);
    }
  }

  /** Where the parenthesis opened before `s`, `depth` deep, is closed; |s| if it never is. */
  function Closing(s: string, depth: int): (n: nat)
    ensures n <= |s|
  {
    if s == "" then 0
    else if depth + Delta(s[0]) == 0 then 0
    else 1 + Closing(s[1..], depth + Delta(s[0]))
  }

  function CanonComponent(c: string): string
    decreases |c|, 1
  {
    if c != "" && c[0] == '(' then
      var i := 1 + Closing(c[1..], 1);
      if i == |c| then c
      else
        var rest := c[i + 1..];
        SplitTopShorter(c[1..i]);
        "(" + Join(CanonComponents(SplitTop(c[1..i]), |c| - 1)) + ")"
          + if rest != "" && rest[0] == '[' then FirstWord(rest) else ""
    else FirstWord(c)
  }

  function CanonComponents(parts: seq<string>, bound: nat): (r: seq<string>)
    requires forall i :: 0 <= i < |parts| ==> |parts[i]| <= bound
    ensures |r| == |parts|
    ensures forall i :: 0 <= i < |parts| ==> r[i] == CanonComponent(parts[i])
    decreases bound, 2, |parts|
  {
    if parts == [] then [] else [CanonComponent(parts[0])] + CanonComponents(parts[1..], bound)
  }

  /** The index of the first opening parenthesis, or |s|. */
  function FirstOpen(s: string): (n: nat)
    ensures n <= |s| && (n < |s| ==> s[n] == '(') && forall i :: 0 <= i < n ==> s[i] != '('
  {
    if s == "" || s[0] == '(' then 0 else 1 + FirstOpen(s[1..])
  }

  /** The canonical form of a key: its name, then the canonical form of each parameter.  A text
      that is not of the form `name(...)` stays as it is. */
  function CanonicalKey(key: string): string {
    var n := FirstOpen(key);
    if n == |key| || key[|key| - 1] != ')' then key
    else
      var params := key[n + 1..|key| - 1];
      SplitTopShorter(params);
      key[..n] + "(" + Join(CanonComponents(SplitTop(params), |params|)) + ")"
  }
}
