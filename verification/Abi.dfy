/** ABI inputs as they stand in JSON, and the printer of canonical signatures. */
module Abi {
  /** One input or tuple component; its JSON may lack a `components` list. */
  datatype Input = Input(name: string, typ: string, components: Components)

  datatype Components = Absent | Listed(inputs: seq<Input>)

  const TUPLE := "tuple"

  predicate StartsWith(s: string, prefix: string) { |prefix| <= |s| && s[..|prefix|] == prefix }

  predicate IsTuple(typ: string) { StartsWith(typ, TUPLE) }

  function Join(parts: seq<string>): string {
    if parts == [] then "" else if |parts| == 1 then parts[0] else parts[0] + "," + Join(parts[1..])
  }

  function CanonicalType(i: Input): string
    decreases i, 1
  {
    if IsTuple(i.typ) then
      var inner := match i.components case Absent => [] case Listed(cs) => CanonicalTypes(cs);
      "(" + Join(inner) + ")" + i.typ[|TUPLE|..]
    else i.typ
  }

  function CanonicalTypes(inputs: seq<Input>): (r: seq<string>)
    decreases inputs, 0
    ensures |r| == |inputs|
    ensures forall i :: 0 <= i < |inputs| ==> r[i] == CanonicalType(inputs[i])
  {
    if inputs == [] then [] else [CanonicalType(inputs[0])] + CanonicalTypes(inputs[1..])
  }

  function Signature(name: string, inputs: seq<Input>): string {
    name + "(" + Join(CanonicalTypes(inputs)) + ")"
  }
}
