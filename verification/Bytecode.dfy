/** Trailer stripping and the linear opcode sweep. */
module Bytecode {
  import opened Basics
  import opened Metadata

  const INVALID: Byte := 0xFE
  const CALLCODE: Byte := 0xF2
  const DELEGATECALL: Byte := 0xF4
  const PUSH1: Byte := 0x60
  const PUSH32: Byte := 0x7F

  // ------------------------------------------------------------------ the trailer

  /** The payload a trailer would have if the last two bytes are its big-endian length. */
  function DeclaredLength(code: seq<Byte>): nat
    requires |code| >= 2
  {
    256 * (code[|code| - 2] as int) + code[|code| - 1]
  }

  /** `code` is `body` ending in INVALID, then metadata, then the metadata's length. */
  ghost predicate HasTrailer(code: seq<Byte>, body: seq<Byte>, metadata: seq<Byte>) {
    && IsMetadata(metadata)
    && body != [] && body[|body| - 1] == INVALID
    && code == body + metadata + BigEndian(|metadata|, 2)
  }

  lemma TwoBytes(n: nat)
    requires n < 0x1_0000
    ensures BigEndian(n, 2) == [n / 256, n % 256]
  {
    assert BigEndian(n / 256, 1) == [n / 256];
  }

  lemma TrailerShape(code: seq<Byte>, body: seq<Byte>, metadata: seq<Byte>)
    requires HasTrailer(code, body, metadata)
    ensures |code| >= 4 && DeclaredLength(code) == |metadata| && |code| == |body| + |metadata| + 2
    ensures code[..|body|] == body && code[|body|..|code| - 2] == metadata && code[|body| - 1] == INVALID
  {
    MetadataSize(metadata);
    TwoBytes(|metadata|);
  }

  /** What the source removes, branch for branch. */
  ghost function Stripped(code: seq<Byte>): (r: seq<Byte>)
    ensures r <= code
  {
    if |code| < 4 then code
    else
      var length := DeclaredLength(code);
      var start := |code| - length - 2;
      if length == 0 || start < 1 || code[start - 1] != INVALID then code
      else if IsMetadata(code[start..|code| - 2]) then code[..start] else code
  }

  /** Stripping finds every trailer: it returns the body in front of it. */
  lemma StripsTrailer(code: seq<Byte>, body: seq<Byte>, metadata: seq<Byte>)
    requires HasTrailer(code, body, metadata)
    ensures Stripped(code) == body
  {
    TrailerShape(code, body, metadata);
    MetadataSize(metadata);
  }

  /** Stripping removes nothing but a trailer. */
  lemma StripsOnlyTrailer(code: seq<Byte>)
    requires Stripped(code) != code
    ensures exists metadata :: HasTrailer(code, Stripped(code), metadata)
  {
    hide IsMetadata, BigEndian;
    var length := DeclaredLength(code);
    var body := Stripped(code);
    var metadata := code[|body|..|code| - 2];
    MetadataSize(metadata);
    TwoBytes(length);
    assert code[|code| - 2..] == [length / 256, length % 256];
    assert code == body + metadata + code[|code| - 2..];
    assert HasTrailer(code, body, metadata);
  }

  method WithoutSolidityMetadata(code: seq<Byte>) returns (r: seq<Byte>)
    ensures r == Stripped(code)
  {
    hide IsMetadata;
    if |code| < 4 {
      return code;
    }
    var length := DeclaredLength(code);
    var start := |code| - length - 2;
    if length == 0 || start < 1 || code[start - 1] != INVALID {
      return code;
    }
    var ok := IsSolidityMetadata(code[start..|code| - 2]);
    return if ok then code[..start] else code;
  }

  /** A stripped code ends in INVALID, so it declares at least 254 bytes of metadata, and no
      metadata is that long: stripping twice is stripping once, for all bytecode. */
  lemma StripIdempotent(code: seq<Byte>)
    ensures Stripped(Stripped(code)) == Stripped(code)
  {
    var once := Stripped(code);
    if once != code {
      StripsOnlyTrailer(code);
      var metadata :| HasTrailer(code, once, metadata);
      if Stripped(once) != once {
        StripsOnlyTrailer(once);
        var more :| HasTrailer(once, Stripped(once), more);
        TrailerShape(once, Stripped(once), more);
        MetadataSize(more);
      }
    }
  }

  // ------------------------------------------------------------------ the sweep

  predicate IsDispatch(b: Byte) { b == CALLCODE || b == DELEGATECALL }

  /** One opcode and its immediate data. */
  function InstructionLength(b: Byte): (n: nat)
    ensures n >= 1
  {
    if PUSH1 <= b <= PUSH32 then 1 + (b - 0x5F) else 1
  }

  /** `k` is reached from the start of the code by whole instructions. */
  ghost predicate Boundary(code: seq<Byte>, k: nat)
  {
    k == 0 || exists j: nat :: j < k && j < |code| && Boundary(code, j) && k == j + InstructionLength(code[j])
  }

  /** Some instruction of the code is CALLCODE or DELEGATECALL. */
  ghost predicate Dispatches(code: seq<Byte>) {
    exists k: nat :: k < |code| && Boundary(code, k) && IsDispatch(code[k])
  }

  /** Boundaries are linearly ordered by the instructions between them: none lies inside one. */
  lemma {:induction false} NoBoundaryInside(code: seq<Byte>, j: nat, k: nat)
    requires j < |code| && Boundary(code, j) && Boundary(code, k) && j < k
    ensures k >= j + InstructionLength(code[j])
    decreases k
  {
    var i: nat :| i < k && i < |code| && Boundary(code, i) && k == i + InstructionLength(code[i]);
    if j < i {
      NoBoundaryInside(code, j, i);
    } else if i < j {
      NoBoundaryInside(code, i, j);
    }
  }

  lemma NextBoundary(code: seq<Byte>, at: nat, next: nat)
    requires at < |code| && Boundary(code, at) && next == at + InstructionLength(code[at])
    ensures Boundary(code, next) && forall k: nat :: at < k < next ==> !Boundary(code, k)
  {
    forall k: nat | at < k && Boundary(code, k) ensures k >= next {
      NoBoundaryInside(code, at, k);
    }
  }

  /** The sweep stops at the first CALLCODE or DELEGATECALL that starts an instruction of the
      stripped code, and finds one whenever there is one. */
  method HasUnsupportedDispatch(bytecode: seq<Byte>) returns (found: bool)
    ensures found <==> Dispatches(Stripped(bytecode))
  {
    var code := WithoutSolidityMetadata(bytecode);
    assert Boundary(code, 0);
    hide Boundary, Stripped;
    var offset := 0;
    while offset < |code|
      invariant Boundary(code, offset)
      invariant forall k: nat :: k < offset && k < |code| && Boundary(code, k) ==> !IsDispatch(code[k])
    {
      var at, opcode := offset, code[offset];
      offset := offset + 1;
      if IsDispatch(opcode) {
        return true;
      }
      if PUSH1 <= opcode <= PUSH32 {
        offset := offset + (opcode - 0x5F);
      }
      NextBoundary(code, at, offset);
    }
    return false;
  }

  lemma {:induction false} BoundaryPrefix(code: seq<Byte>, more: seq<Byte>, k: nat)
    requires code <= more
    ensures Boundary(code, k) ==> Boundary(more, k)
    ensures k <= |code| && Boundary(more, k) ==> Boundary(code, k)
    decreases k
  {
    if k > 0 {
      forall j: nat | j < k && j < |code| && k == j + InstructionLength(code[j])
        ensures Boundary(code, j) <==> Boundary(more, j)
      {
        BoundaryPrefix(code, more, j);
      }
      if k <= |code| && Boundary(more, k) {
        var j: nat :| j < k && j < |more| && Boundary(more, j) && k == j + InstructionLength(more[j]);
        assert code[j] == more[j];
      }
      if Boundary(code, k) {
        var j: nat :| j < k && j < |code| && Boundary(code, j) && k == j + InstructionLength(code[j]);
        assert code[j] == more[j];
      }
    }
  }

  /** A trailing INVALID adds no dispatch and hides none. */
  lemma InvalidIsInert(code: seq<Byte>)
    ensures Dispatches(code + [INVALID]) <==> Dispatches(code)
  {
    var more := code + [INVALID];
    forall k: nat | k < |code| ensures Boundary(code, k) <==> Boundary(more, k) {
      BoundaryPrefix(code, more, k);
    }
    if Dispatches(more) {
      var k: nat :| k < |more| && Boundary(more, k) && IsDispatch(more[k]);
      assert k < |code| && code[k] == more[k];
    }
    if Dispatches(code) {
      var k: nat :| k < |code| && Boundary(code, k) && IsDispatch(code[k]);
      assert more[k] == code[k];
    }
  }

  /** What a compiler deploys: code, INVALID, its metadata, and the metadata's length. */
  function Deployed(code: seq<Byte>, items: seq<Item>): seq<Byte>
    requires |items| < 24 && forall item :: item in items ==> WellFormedItem(item)
  {
    code + [INVALID] + Print(items) + BigEndian(|Print(items)|, 2)
  }

  /** Metadata never influences the verdict: for every code and every metadata map in any key
      order, the deployed bytecode dispatches exactly when some instruction of the code alone,
      outside PUSH data, is CALLCODE or DELEGATECALL. */
  lemma MetadataIsInvisible(code: seq<Byte>, items: seq<Item>)
    requires WellFormed(items)
    ensures Stripped(Deployed(code, items)) == code + [INVALID]
    ensures Dispatches(Stripped(Deployed(code, items))) <==> Dispatches(code)
  {
    var metadata := Print(items);
    assert PrintedAs(metadata, items);
    assert HasTrailer(Deployed(code, items), code + [INVALID], metadata);
    StripsTrailer(Deployed(code, items), code + [INVALID], metadata);
    InvalidIsInert(code);
  }
}
