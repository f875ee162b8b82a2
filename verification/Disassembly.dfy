/** The opcode sweep against the assembler it undoes: instructions and bytes as they are written. */
module Disassembly {
  import opened Basics
  import opened Metadata
  import opened Bytecode

  datatype Instruction =
    | Push(data: seq<Byte>)   // 1 to 32 bytes of immediate data
    | Op(code: Byte)          // any opcode outside 0x60 to 0x7F

  predicate Legal(i: Instruction) {
    match i
    case Push(data) => 1 <= |data| <= 32
    case Op(code) => code < 0x60 || 0x80 <= code
  }

  function Encode(i: Instruction): (r: seq<Byte>)
    requires Legal(i)
    ensures r != []
  {
    match i
    case Push(data) => [0x5F + |data|] + data
    case Op(code) => [code]
  }

  function Assemble(prog: seq<Instruction>): seq<Byte>
    requires forall i :: i in prog ==> Legal(i)
  {
    if prog == [] then [] else Encode(prog[0]) + Assemble(prog[1..])
  }

  /** What may follow the last whole instruction: nothing, or a push cut off within its data. */
  ghost predicate CutOff(tail: seq<Byte>) {
    tail == [] || (0x60 <= tail[0] <= 0x7F && |tail| <= tail[0] - 0x5F)
  }

  lemma EncodedLength(i: Instruction)
    requires Legal(i)
    ensures InstructionLength(Encode(i)[0]) == |Encode(i)|
    ensures IsDispatch(Encode(i)[0]) <==> i in {Op(0xF2), Op(0xF4)}
  {
  }

  /** Boundaries behind the first instruction are the boundaries of the rest. */
  lemma {:induction false} BoundaryShift(first: seq<Byte>, rest: seq<Byte>, k: nat)
    requires first != [] && InstructionLength(first[0]) == |first|
    ensures Boundary(first + rest, |first| + k) <==> Boundary(rest, k)
    decreases k
  {
    hide Boundary, InstructionLength;
    if k == 0 {
      FirstBoundaries(first, rest);
    } else {
      forall j: nat | j < k && j < |rest| ensures Boundary(first + rest, |first| + j) <==> Boundary(rest, j) {
        BoundaryShift(first, rest, j);
      }
      if Boundary(first + rest, |first| + k) { ShiftDown(first, rest, k); }
      if Boundary(rest, k) { ShiftUp(first, rest, k); }
    }
  }

  lemma FirstBoundaries(first: seq<Byte>, rest: seq<Byte>)
    requires first != [] && InstructionLength(first[0]) == |first|
    ensures Boundary(first + rest, 0) && Boundary(rest, 0) && Boundary(first + rest, |first|)
  {
    assert Boundary(first + rest, 0) && (first + rest)[0] == first[0];
  }

  lemma Previous(code: seq<Byte>, k: nat) returns (j: nat)
    requires k > 0 && Boundary(code, k)
    ensures j < k && j < |code| && Boundary(code, j) && k == j + InstructionLength(code[j])
  {
    j :| j < k && j < |code| && Boundary(code, j) && k == j + InstructionLength(code[j]);
  }

  lemma Following(code: seq<Byte>, j: nat)
    requires j < |code| && Boundary(code, j)
    ensures Boundary(code, j + InstructionLength(code[j]))
  {
  }

  lemma ShiftDown(first: seq<Byte>, rest: seq<Byte>, k: nat)
    requires first != [] && InstructionLength(first[0]) == |first| && k > 0 && Boundary(first + rest, |first| + k)
    requires forall j: nat :: j < k && j < |rest| ==> (Boundary(first + rest, |first| + j) <==> Boundary(rest, j))
    ensures Boundary(rest, k)
  {
    hide Boundary, InstructionLength;
    var code, n := first + rest, |first|;
    FirstBoundaries(first, rest);
    var j := Previous(code, n + k);
    assert code[0] == first[0] && InstructionLength(code[0]) == n;
    if 0 < j < n { NoBoundaryInside(code, 0, j); }
    if j >= n {
      assert code[j] == rest[j - n] && Boundary(code, n + (j - n));
      Following(rest, j - n);
    }
  }

  lemma ShiftUp(first: seq<Byte>, rest: seq<Byte>, k: nat)
    requires first != [] && InstructionLength(first[0]) == |first| && k > 0 && Boundary(rest, k)
    requires forall j: nat :: j < k && j < |rest| ==> (Boundary(first + rest, |first| + j) <==> Boundary(rest, j))
    ensures Boundary(first + rest, |first| + k)
  {
    hide Boundary, InstructionLength;
    var j := Previous(rest, k);
    assert (first + rest)[|first| + j] == rest[j];
    Following(first + rest, |first| + j);
  }

  lemma DispatchShift(first: seq<Byte>, rest: seq<Byte>)
    requires first != [] && InstructionLength(first[0]) == |first|
    ensures Dispatches(first + rest) <==> IsDispatch(first[0]) || Dispatches(rest)
  {
    var code, n := first + rest, |first|;
    assert Boundary(code, 0) && code[0] == first[0];
    if Dispatches(code) {
      var k: nat :| k < |code| && Boundary(code, k) && IsDispatch(code[k]);
      if 0 < k < n { NoBoundaryInside(code, 0, k); }
      if k >= n {
        BoundaryShift(first, rest, k - n);
        assert code[k] == rest[k - n];
      }
    }
    if Dispatches(rest) {
      var k: nat :| k < |rest| && Boundary(rest, k) && IsDispatch(rest[k]);
      BoundaryShift(first, rest, k);
      assert code[n + k] == rest[k];
    }
  }

  lemma CutOffIsInert(tail: seq<Byte>)
    requires CutOff(tail)
    ensures !Dispatches(tail)
  {
    if Dispatches(tail) {
      var k: nat :| k < |tail| && Boundary(tail, k) && IsDispatch(tail[k]);
      assert Boundary(tail, 0);
      if k > 0 { NoBoundaryInside(tail, 0, k); }
    }
  }

  /** The sweep reads a program as it was assembled: it finds a dispatch exactly when 0xF2 or 0xF4
      is one of the instructions, whatever bytes the pushes carry and wherever the code is cut. */
  lemma {:induction false} DispatchIff(prog: seq<Instruction>, tail: seq<Byte>)
    requires (forall i :: i in prog ==> Legal(i)) && CutOff(tail)
    ensures Dispatches(Assemble(prog) + tail) <==> Op(0xF2) in prog || Op(0xF4) in prog
  {
    hide Dispatches, CutOff, Encode;
    if prog == [] {
      assert Assemble(prog) + tail == tail;
      CutOffIsInert(tail);
    } else {
      var first, rest := Encode(prog[0]), Assemble(prog[1..]);
      assert Assemble(prog) + tail == first + (rest + tail);
      EncodedLength(prog[0]);
      DispatchShift(first, rest + tail);
      DispatchIff(prog[1..], tail);
      assert prog == [prog[0]] + prog[1..];
    }
  }

  /** Every byte string is the assembly of exactly such a program. */
  lemma {:induction false} EveryCodeAssembles(code: seq<Byte>) returns (prog: seq<Instruction>, tail: seq<Byte>)
    ensures (forall i :: i in prog ==> Legal(i)) && CutOff(tail) && code == Assemble(prog) + tail
    decreases |code|
  {
    if code == [] {
      prog, tail := [], [];
    } else if 0x60 <= code[0] <= 0x7F && |code| <= code[0] - 0x5F {
      prog, tail := [], code;
    } else {
      var first := if 0x60 <= code[0] <= 0x7F then Push(code[1..code[0] - 0x5E]) else Op(code[0]);
      var n := |Encode(first)|;
      assert code == Encode(first) + code[n..];
      var rest;
      rest, tail := EveryCodeAssembles(code[n..]);
      prog := [first] + rest;
      assert prog[1..] == rest;
      assert Assemble(prog) + tail == Encode(first) + (Assemble(rest) + tail);
    }
  }

  /** The whole verdict on deployed bytecode, in literals: over code, 0xFE, metadata and its
      two-byte length, it is whether the program contains 0xF2 or 0xF4. */
  lemma VerdictIff(prog: seq<Instruction>, tail: seq<Byte>, metadata: seq<Byte>)
    requires (forall i :: i in prog ==> Legal(i)) && CutOff(tail) && IsMetadata(metadata)
    ensures |metadata| <= 159
    ensures var code := Assemble(prog) + tail + [0xFE] + metadata + [0, |metadata|];
            Dispatches(Stripped(code)) <==> Op(0xF2) in prog || Op(0xF4) in prog
  {
    hide Dispatches, Stripped, IsMetadata;
    MetadataSize(metadata);
    var body := Assemble(prog) + tail;
    TwoBytes(|metadata|);
    assert HasTrailer(body + [0xFE] + metadata + [0, |metadata|], body + [0xFE], metadata);
    StripsTrailer(body + [0xFE] + metadata + [0, |metadata|], body + [0xFE], metadata);
    InvalidIsInert(body);
    DispatchIff(prog, tail);
  }

  /** What stripping removes, in literals: it keeps a body exactly if that ends in 0xFE and is
      followed by metadata and the two bytes of its length, and keeps everything otherwise. */
  lemma StrippedIff(code: seq<Byte>, body: seq<Byte>)
    requires body != code
    ensures Stripped(code) == body <==>
            && body != [] && body[|body| - 1] == 0xFE
            && exists metadata :: IsMetadata(metadata) && |metadata| <= 159
                 && code == body + metadata + [0, |metadata|]
  {
    hide IsMetadata, Stripped;
    if Stripped(code) == body {
      StripsOnlyTrailer(code);
      var metadata :| HasTrailer(code, body, metadata);
      MetadataSize(metadata);
      TwoBytes(|metadata|);
    }
    if metadata :| body != [] && body[|body| - 1] == 0xFE && IsMetadata(metadata) && |metadata| <= 159
                   && code == body + metadata + [0, |metadata|] {
      TwoBytes(|metadata|);
      assert HasTrailer(code, body, metadata);
      StripsTrailer(code, body, metadata);
    }
  }
}
