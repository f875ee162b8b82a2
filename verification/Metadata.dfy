/** The Solidity metadata trailer: a reader for the CBOR subset that compilers emit, proved
against the printer of that subset. */
module Metadata {
  import opened Basics

  // ------------------------------------------------------------------ what compilers print

  datatype Item =
    | Ipfs(digest: seq<Byte>)          // a 32-byte sha2-256 multihash digest
    | Bzzr0(hash: seq<Byte>)
    | Bzzr1(hash: seq<Byte>)
    | Experimental
    | SolcRelease(version: seq<Byte>)  // three version bytes
    | SolcPrerelease(text: seq<Byte>)  // a version string

  const MAP := 5
  const TEXT := 3
  const BYTES := 2
  const TRUE: Byte := 0xF5

  const IPFS: seq<Byte> := [0x69, 0x70, 0x66, 0x73]
  const BZZR0: seq<Byte> := [0x62, 0x7A, 0x7A, 0x72, 0x30]
  const BZZR1: seq<Byte> := [0x62, 0x7A, 0x7A, 0x72, 0x31]
  const EXPERIMENTAL: seq<Byte> := [0x65, 0x78, 0x70, 0x65, 0x72, 0x69, 0x6D, 0x65, 0x6E, 0x74, 0x61, 0x6C]
  const SOLC: seq<Byte> := [0x73, 0x6F, 0x6C, 0x63]
  const MULTIHASH: seq<Byte> := [0x12, 0x20]

  function KeyBytes(item: Item): seq<Byte> {
    match item
    case Ipfs(_) => IPFS
    case Bzzr0(_) => BZZR0
    case Bzzr1(_) => BZZR1
    case Experimental => EXPERIMENTAL
    case SolcRelease(_) => SOLC
    case SolcPrerelease(_) => SOLC
  }

  /** Big-endian bytes of `n`, which has at most `count` of them. */
  function BigEndian(n: nat, count: nat): (r: seq<Byte>)
    ensures |r| == count
  {
    if count == 0 then [] else BigEndian(n / 256, count - 1) + [n % 256]
  }

  function FromBigEndian(bytes: seq<Byte>): nat {
    if bytes == [] then 0 else 256 * FromBigEndian(bytes[..|bytes| - 1]) + bytes[|bytes| - 1]
  }

  /** The shortest head of section 4.2.1 of RFC 8949 for lengths below 2^32. */
  function Head(major: nat, n: nat): seq<Byte>
    requires major < 8 && n < 0x1_0000_0000
  {
    if n < 24 then [32 * major + n]
    else if n < 0x100 then [32 * major + 24] + BigEndian(n, 1)
    else if n < 0x1_0000 then [32 * major + 25] + BigEndian(n, 2)
    else [32 * major + 26] + BigEndian(n, 4)
  }

  function Blob(major: nat, content: seq<Byte>): seq<Byte>
    requires major < 8 && |content| < 0x1_0000_0000
  {
    Head(major, |content|) + content
  }

  predicate Digit(b: Byte) { 0x30 <= b <= 0x39 }

  predicate VersionByte(b: Byte) {
    Digit(b) || 0x41 <= b <= 0x5A || 0x61 <= b <= 0x7A || b == 0x2E || b == 0x2B || b == 0x2D
  }

  /** A digit followed by 2 to 95 letters, digits, dots, pluses or dashes. */
  predicate VersionText(text: seq<Byte>) {
    3 <= |text| <= 96 && Digit(text[0]) && forall i :: 1 <= i < |text| ==> VersionByte(text[i])
  }

  predicate WellFormedItem(item: Item) {
    match item
    case Ipfs(digest) => |digest| == 32
    case Bzzr0(hash) => |hash| == 32
    case Bzzr1(hash) => |hash| == 32
    case Experimental => true
    case SolcRelease(version) => |version| == 3
    case SolcPrerelease(text) => VersionText(text)
  }

  function Value(item: Item): seq<Byte>
    requires WellFormedItem(item)
  {
    match item
    case Ipfs(digest) => Blob(BYTES, MULTIHASH + digest)
    case Bzzr0(hash) => Blob(BYTES, hash)
    case Bzzr1(hash) => Blob(BYTES, hash)
    case Experimental => [TRUE]
    case SolcRelease(version) => Blob(BYTES, version)
    case SolcPrerelease(text) => Blob(TEXT, text)
  }

  function PrintItem(item: Item): seq<Byte>
    requires WellFormedItem(item)
  {
    Blob(TEXT, KeyBytes(item)) + Value(item)
  }

  function PrintItems(items: seq<Item>): seq<Byte>
    requires forall item :: item in items ==> WellFormedItem(item)
  {
    if items == [] then [] else PrintItems(items[..|items| - 1]) + PrintItem(items[|items| - 1])
  }

  predicate SourceHash(item: Item) { item.Ipfs? || item.Bzzr0? || item.Bzzr1? }

  predicate Solc(item: Item) { item.SolcRelease? || item.SolcPrerelease? }

  function SourceHashes(items: seq<Item>): nat {
    if items == [] then 0
    else SourceHashes(items[..|items| - 1]) + if SourceHash(items[|items| - 1]) then 1 else 0
  }

  /** Every value well formed, every key at most once. */
  ghost predicate Distinct(items: seq<Item>) {
    && (forall item :: item in items ==> WellFormedItem(item))
    && forall i, j :: 0 <= i < j < |items| ==> KeyBytes(items[i]) != KeyBytes(items[j])
  }

  /** Metadata: a non-empty map with distinct known keys, in any order, one of them `solc`
      and at most one of them a source hash. */
  ghost predicate WellFormed(items: seq<Item>) {
    && 1 <= |items| <= 5
    && Distinct(items)
    && (exists i :: 0 <= i < |items| && Solc(items[i]))
    && SourceHashes(items) <= 1
  }

  function Print(items: seq<Item>): seq<Byte>
    requires |items| < 24 && forall item :: item in items ==> WellFormedItem(item)
  {
    Head(MAP, |items|) + PrintItems(items)
  }

  // ------------------------------------------------------------------ the reader

  /** The length in the head at `offset`, if that is a shortest head of the major type, and the
      offset behind it. */
  function CborLength(value: seq<Byte>, offset: nat, major: nat): (r: Option<(nat, nat)>)
  {
    if offset >= |value| then None
    else
      var initial := value[offset];
      if initial / 32 != major then None
      else
        var additional := initial % 32;
        if additional < 24 then Some((additional, offset + 1))
        else if additional != 24 && additional != 25 && additional != 26 then None
        else
          var count := if additional == 24 then 1 else if additional == 25 then 2 else 4;
          if offset + 1 + count > |value| then None
          else
            var length := FromBigEndian(value[offset + 1..offset + 1 + count]);
            var minimum := if count == 1 then 24 else if count == 2 then 0x100 else 0x1_0000;
            if length < minimum then None else Some((length, offset + 1 + count))
  }

  function CborBlob(value: seq<Byte>, offset: nat, major: nat): (r: Option<(seq<Byte>, nat)>)
  {
    match CborLength(value, offset, major)
    case None => None
    case Some((length, start)) =>
      if start + length > |value| then None else Some((value[start..start + length], start + length))
  }

  // ------------------------------------------------------------------ heads

  lemma {:induction false} BigEndianRoundTrip(n: nat, count: nat)
    requires count <= 4
    requires n < if count == 0 then 1 else if count == 1 then 0x100 else if count == 2 then 0x1_0000
                 else if count == 3 then 0x100_0000 else 0x1_0000_0000
    ensures FromBigEndian(BigEndian(n, count)) == n
  {
    if count > 0 {
      BigEndianRoundTrip(n / 256, count - 1);
      assert BigEndian(n, count)[..count - 1] == BigEndian(n / 256, count - 1);
    }
  }

  lemma {:induction false} BigEndianOf(bytes: seq<Byte>)
    ensures BigEndian(FromBigEndian(bytes), |bytes|) == bytes
    ensures |bytes| == 1 ==> FromBigEndian(bytes) < 0x100
    ensures |bytes| == 2 ==> FromBigEndian(bytes) < 0x1_0000
    ensures |bytes| == 3 ==> FromBigEndian(bytes) < 0x100_0000
    ensures |bytes| == 4 ==> FromBigEndian(bytes) < 0x1_0000_0000
  {
    if bytes != [] {
      var most := bytes[..|bytes| - 1];
      BigEndianOf(most);
      assert bytes == most + [bytes[|bytes| - 1]];
      assert FromBigEndian(bytes) / 256 == FromBigEndian(most);
    }
  }

  /** `value` holds `part` at `offset`. */
  ghost predicate HoldsAt(value: seq<Byte>, offset: nat, part: seq<Byte>) {
    offset + |part| <= |value| && value[offset..offset + |part|] == part
  }

  /** The length reader accepts exactly the shortest heads: it inverts `Head`, both ways. */
  lemma LengthInvertsHead(value: seq<Byte>, offset: nat, major: nat, n: nat, end: nat)
    requires major < 8
    ensures CborLength(value, offset, major) == Some((n, end))
       <==> n < 0x1_0000_0000 && HoldsAt(value, offset, Head(major, n)) && end == offset + |Head(major, n)|
  {
    if CborLength(value, offset, major) == Some((n, end)) {
      HeadFound(value, offset, major);
    }
    if n < 0x1_0000_0000 && HoldsAt(value, offset, Head(major, n)) && end == offset + |Head(major, n)| {
      HeadRead(value, offset, major, n);
    }
  }

  lemma HeadParts(major: nat, n: nat)
    requires major < 8 && n < 0x1_0000_0000
    ensures var head := Head(major, n);
            var count := if n < 24 then 0 else if n < 0x100 then 1 else if n < 0x1_0000 then 2 else 4;
            && |head| == 1 + count
            && head[0] / 32 == major
            && head[0] % 32 == (if n < 24 then n else if n < 0x100 then 24 else if n < 0x1_0000 then 25 else 26)
            && head[1..] == BigEndian(n, count)
  {
    hide BigEndian;
    assert BigEndian(n, 0) == [];
  }

  lemma HeadFound(value: seq<Byte>, offset: nat, major: nat)
    requires major < 8 && CborLength(value, offset, major).Some?
    ensures var (n, end) := CborLength(value, offset, major).value;
            n < 0x1_0000_0000 && HoldsAt(value, offset, Head(major, n)) && end == offset + |Head(major, n)|
  {
    hide BigEndian, FromBigEndian, Head;
    var (n, end) := CborLength(value, offset, major).value;
    var rest := value[offset + 1..end];
    BigEndianOf(rest);
    HeadParts(major, n);
    var head := Head(major, n);
    assert |head| == 1 + |rest| && head[0] / 32 == value[offset] / 32 && head[0] % 32 == value[offset] % 32;
    SameByte(head[0], value[offset]);
    assert head[1..] == rest by {
      if rest == [] { assert head[1..] == []; }
    }
    assert head == [head[0]] + head[1..];
    assert value[offset..end] == [value[offset]] + rest;
  }

  lemma SameByte(a: Byte, b: Byte)
    requires a / 32 == b / 32 && a % 32 == b % 32
    ensures a == b
  {
  }

  lemma HeadRead(value: seq<Byte>, offset: nat, major: nat, n: nat)
    requires major < 8 && n < 0x1_0000_0000 && HoldsAt(value, offset, Head(major, n))
    ensures CborLength(value, offset, major) == Some((n, offset + |Head(major, n)|))
  {
    hide BigEndian, FromBigEndian, Head;
    HeadParts(major, n);
    var head := Head(major, n);
    assert value[offset] == value[offset..offset + |head|][0] == head[0];
    assert value[offset + 1..offset + |head|] == value[offset..offset + |head|][1..] == head[1..];
    if n >= 24 {
      BigEndianRoundTrip(n, |head| - 1);
    }
  }

  lemma BlobFound(value: seq<Byte>, offset: nat, major: nat)
    requires major < 8 && CborBlob(value, offset, major).Some?
    ensures var (content, end) := CborBlob(value, offset, major).value;
            |content| < 0x1_0000_0000 && HoldsAt(value, offset, Blob(major, content)) && end == offset + |Blob(major, content)|
  {
    hide CborLength, Head;
    var (content, end) := CborBlob(value, offset, major).value;
    var (n, start) := CborLength(value, offset, major).value;
    LengthInvertsHead(value, offset, major, n, start);
    assert value[offset..end] == value[offset..start] + value[start..end];
  }

  lemma BlobRead(value: seq<Byte>, offset: nat, major: nat, content: seq<Byte>)
    requires major < 8 && |content| < 0x1_0000_0000 && HoldsAt(value, offset, Blob(major, content))
    ensures CborBlob(value, offset, major) == Some((content, offset + |Blob(major, content)|))
  {
    hide CborLength, Head;
    var head, end := Head(major, |content|), offset + |Blob(major, content)|;
    var start := offset + |head|;
    assert value[offset..start] == value[offset..end][..|head|] == head;
    LengthInvertsHead(value, offset, major, |content|, start);
    assert value[start..end] == value[offset..end][|head|..] == content;
  }

  // ------------------------------------------------------------------ items

  /** One key and its value, whichever key it is; the branches of the source's loop. */
  function ReadItem(value: seq<Byte>, offset: nat): Option<(Item, nat)> {
    match CborBlob(value, offset, TEXT)
    case None => None
    case Some((key, at)) =>
      if key == EXPERIMENTAL then
        if at < |value| && value[at] == TRUE then Some((Experimental, at + 1)) else None
      else if key == SOLC then ReadVersion(value, at)
      else if key == IPFS || key == BZZR0 || key == BZZR1 then ReadHash(value, at, key)
      else None
  }

  function ReadVersion(value: seq<Byte>, at: nat): Option<(Item, nat)> {
    var release := CborBlob(value, at, BYTES);
    if release.Some? && |release.value.0| == 3 then Some((SolcRelease(release.value.0), release.value.1))
    else
      match CborBlob(value, at, TEXT)
      case None => None
      case Some((text, end)) => if VersionText(text) then Some((SolcPrerelease(text), end)) else None
  }

  function ReadHash(value: seq<Byte>, at: nat, key: seq<Byte>): Option<(Item, nat)> {
    match CborBlob(value, at, BYTES)
    case None => None
    case Some((hash, end)) =>
      if key == IPFS then
        if |hash| == 34 && hash[..2] == MULTIHASH then Some((Ipfs(hash[2..]), end)) else None
      else if |hash| != 32 then None
      else Some((if key == BZZR0 then Bzzr0(hash) else Bzzr1(hash), end))
  }

  lemma HoldsSplit(value: seq<Byte>, offset: nat, a: seq<Byte>, b: seq<Byte>)
    ensures HoldsAt(value, offset, a + b) <==> HoldsAt(value, offset, a) && HoldsAt(value, offset + |a|, b)
  {
    var end := offset + |a| + |b|;
    if end <= |value| {
      var m := offset + |a|;
      assert value[offset..end] == value[offset..m] + value[m..end];
      assert value[offset..end][..|a|] == value[offset..m];
      assert value[offset..end][|a|..] == value[m..end];
      assert (a + b)[..|a|] == a && (a + b)[|a|..] == b;
    }
  }

  lemma KeysApart()
    ensures IPFS != SOLC && IPFS != BZZR0 && BZZR0 != BZZR1 && SOLC != EXPERIMENTAL && IPFS != EXPERIMENTAL
    ensures IPFS != BZZR1 && BZZR0 != SOLC && BZZR1 != SOLC && BZZR0 != EXPERIMENTAL && BZZR1 != EXPERIMENTAL
  {
    assert IPFS[0] != SOLC[0] && |IPFS| != |BZZR0| && BZZR0[4] != BZZR1[4] && |SOLC| != |EXPERIMENTAL|;
  }

  /** Reading an item is exactly the inverse of printing one. */
  lemma ItemFound(value: seq<Byte>, offset: nat)
    requires ReadItem(value, offset).Some?
    ensures var (item, end) := ReadItem(value, offset).value;
            WellFormedItem(item) && HoldsAt(value, offset, PrintItem(item)) && end == offset + |PrintItem(item)|
  {
    hide CborBlob, Blob;
    KeysApart();
    BlobFound(value, offset, TEXT);
    var (key, at) := CborBlob(value, offset, TEXT).value;
    var (item, end) := ReadItem(value, offset).value;
    ValueFound(value, offset);
    assert KeyBytes(item) == key;
    HoldsSplit(value, offset, Blob(TEXT, key), Value(item));
  }

  lemma ValueFound(value: seq<Byte>, offset: nat)
    requires ReadItem(value, offset).Some? && CborBlob(value, offset, TEXT).Some?
    ensures var (item, end) := ReadItem(value, offset).value;
            var at := CborBlob(value, offset, TEXT).value.1;
            WellFormedItem(item) && HoldsAt(value, at, Value(item)) && end == at + |Value(item)|
  {
    hide CborBlob, Blob, VersionText;
    KeysApart();
    var (item, end) := ReadItem(value, offset).value;
    var at := CborBlob(value, offset, TEXT).value.1;
    match item
    case Experimental =>
    case SolcPrerelease(_) => BlobFound(value, at, TEXT);
    case Ipfs(digest) =>
      BlobFound(value, at, BYTES);
      var hash := CborBlob(value, at, BYTES).value.0;
      assert hash == MULTIHASH + digest;
    case _ => BlobFound(value, at, BYTES);
  }

  /** A printed value is read back as itself: no byte string of three bytes is also a text. */
  lemma ItemRead(value: seq<Byte>, offset: nat, item: Item)
    requires WellFormedItem(item) && HoldsAt(value, offset, PrintItem(item))
    ensures ReadItem(value, offset) == Some((item, offset + |PrintItem(item)|))
  {
    hide CborBlob, Blob;
    KeysApart();
    var key := KeyBytes(item);
    HoldsSplit(value, offset, Blob(TEXT, key), Value(item));
    BlobRead(value, offset, TEXT, key);
    var at := offset + |Blob(TEXT, key)|;
    match item
    case Experimental => assert value[at..at + 1][0] == TRUE;
    case SolcPrerelease(text) =>
      BlobRead(value, at, TEXT, text);
      OneMajor(value, at);
    case SolcRelease(version) => BlobRead(value, at, BYTES, version);
    case Ipfs(digest) =>
      BlobRead(value, at, BYTES, MULTIHASH + digest);
      assert (MULTIHASH + digest)[..2] == MULTIHASH && (MULTIHASH + digest)[2..] == digest;
    case Bzzr0(hash) => BlobRead(value, at, BYTES, hash);
    case Bzzr1(hash) => BlobRead(value, at, BYTES, hash);
  }

  /** The two value shapes of `solc` have different major types. */
  lemma OneMajor(value: seq<Byte>, at: nat)
    ensures CborBlob(value, at, BYTES).None? || CborBlob(value, at, TEXT).None?
  {
  }

  // ------------------------------------------------------------------ the map

  ghost predicate PrintedAs(payload: seq<Byte>, items: seq<Item>) {
    WellFormed(items) && Print(items) == payload
  }

  /** The payload is the printing of some metadata map. */
  ghost predicate IsMetadata(payload: seq<Byte>) {
    exists items :: PrintedAs(payload, items)
  }

  ghost function Keys(items: seq<Item>): set<seq<Byte>> { set item | item in items :: KeyBytes(item) }

  lemma {:induction false} PrintPrefix(items: seq<Item>, i: nat)
    requires i <= |items| && forall item :: item in items ==> WellFormedItem(item)
    ensures |PrintItems(items[..i])| <= |PrintItems(items)|
    ensures PrintItems(items)[..|PrintItems(items[..i])|] == PrintItems(items[..i])
    decreases |items|
  {
    if i == |items| {
      assert items[..i] == items;
    } else {
      var front := items[..|items| - 1];
      PrintPrefix(front, i);
      assert front[..i] == items[..i];
    }
  }

  lemma WholeHolds(payload: seq<Byte>)
    ensures HoldsAt(payload, 0, payload)
  {
  }

  /** What is left of a printed map after its first `i` items starts with item `i`. */
  lemma NextItem(payload: seq<Byte>, items: seq<Item>, i: nat)
    requires PrintedAs(payload, items) && i < |items|
    ensures var offset := |Head(MAP, |items|)| + |PrintItems(items[..i])|;
            ReadItem(payload, offset) == Some((items[i], offset + |PrintItem(items[i])|))
  {
    WholeHolds(payload);
    hide Head, PrintItem, ReadItem, Distinct, SourceHashes, HoldsAt;
    assert forall item :: item in items ==> WellFormedItem(item) by { WellFormedItems(items); }
    var front, head := items[..i + 1], Head(MAP, |items|);
    assert front[..i] == items[..i] && front[i] == items[i];
    PrintPrefix(items, i + 1);
    var upTo := PrintItems(front);
    assert upTo == PrintItems(items[..i]) + PrintItem(items[i]);
    var rest := PrintItems(items)[|upTo|..];
    assert PrintItems(items) == upTo + rest;
    HoldsSplit(payload, 0, head, PrintItems(items));
    HoldsSplit(payload, |head|, upTo, rest);
    HoldsSplit(payload, |head|, PrintItems(items[..i]), PrintItem(items[i]));
    ItemRead(payload, |head| + |PrintItems(items[..i])|, items[i]);
  }

  lemma WellFormedItems(items: seq<Item>)
    requires WellFormed(items)
    ensures forall item :: item in items ==> WellFormedItem(item)
  {
  }

  lemma PrintedHead(payload: seq<Byte>, items: seq<Item>)
    requires PrintedAs(payload, items)
    ensures CborLength(payload, 0, MAP) == Some((|items|, |Head(MAP, |items|)|))
  {
    assert HoldsAt(payload, 0, payload);
    HoldsSplit(payload, 0, Head(MAP, |items|), PrintItems(items));
    HeadRead(payload, 0, MAP, |items|);
  }

  lemma {:induction false} SamePrefix(payload: seq<Byte>, a: seq<Item>, b: seq<Item>, i: nat)
    requires PrintedAs(payload, a) && PrintedAs(payload, b) && |a| == |b| && i <= |a|
    ensures a[..i] == b[..i]
  {
    hide PrintedAs, ReadItem, PrintItems, PrintItem, Head;
    if i > 0 {
      SamePrefix(payload, a, b, i - 1);
      NextItem(payload, a, i - 1);
      NextItem(payload, b, i - 1);
      assert a[..i] == a[..i - 1] + [a[i - 1]] && b[..i] == b[..i - 1] + [b[i - 1]];
    }
  }

  /** A payload is the printing of at most one map. */
  lemma PrintInjective(payload: seq<Byte>, a: seq<Item>, b: seq<Item>)
    requires PrintedAs(payload, a) && PrintedAs(payload, b)
    ensures a == b
  {
    PrintedHead(payload, a);
    PrintedHead(payload, b);
    SamePrefix(payload, a, b, |a|);
    assert a[..|a|] == a && b[..|b|] == b;
  }

  /** The reader stands at `offset` after `items`, which every printing of the payload starts with. */
  ghost predicate Reading(payload: seq<Byte>, count: nat, items: seq<Item>, offset: nat) {
    && 1 <= count <= 5 && |items| <= count
    && Distinct(items)
    && HoldsAt(payload, 0, Head(MAP, count) + PrintItems(items))
    && offset == |Head(MAP, count)| + |PrintItems(items)|
    && StartsAll(payload, count, items)
  }

  /** Every map that prints the payload has `count` items and starts with `items`. */
  ghost predicate StartsAll(payload: seq<Byte>, count: nat, items: seq<Item>) {
    forall all :: PrintedAs(payload, all) ==> |items| <= |all| == count && all[..|items|] == items
  }

  lemma BadHeader(payload: seq<Byte>)
    requires var header := CborLength(payload, 0, MAP); header.None? || !(1 <= header.value.0 <= 5)
    ensures !IsMetadata(payload)
  {
    forall items | PrintedAs(payload, items) ensures CborLength(payload, 0, MAP) == Some((|items|, |Head(MAP, |items|)|)) {
      PrintedHead(payload, items);
    }
  }

  lemma GoodHeader(payload: seq<Byte>)
    requires var header := CborLength(payload, 0, MAP); header.Some? && 1 <= header.value.0 <= 5
    ensures var (count, offset) := CborLength(payload, 0, MAP).value; Reading(payload, count, [], offset)
  {
    var (count, offset) := CborLength(payload, 0, MAP).value;
    HeadFound(payload, 0, MAP);
    assert Head(MAP, count) + PrintItems([]) == Head(MAP, count);
    forall all | PrintedAs(payload, all) ensures |all| == count && all[..0] == [] {
      PrintedHead(payload, all);
    }
  }

  lemma PrintedDistinct(payload: seq<Byte>, items: seq<Item>)
    requires PrintedAs(payload, items)
    ensures Distinct(items)
  {
  }

  lemma FreshKey(items: seq<Item>, i: nat)
    requires Distinct(items) && i < |items|
    ensures KeyBytes(items[i]) !in Keys(items[..i])
  {
    forall item | item in items[..i] ensures KeyBytes(item) != KeyBytes(items[i]) {
      var j :| 0 <= j < i && items[..i][j] == item;
    }
  }

  /** Whatever map the payload prints, the reader finds its next item, under a new key. */
  lemma FindsNext(payload: seq<Byte>, count: nat, items: seq<Item>, offset: nat, all: seq<Item>)
    requires Reading(payload, count, items, offset) && |items| < count && PrintedAs(payload, all)
    ensures ReadItem(payload, offset).Some?
    ensures var item := ReadItem(payload, offset).value.0;
            KeyBytes(item) !in Keys(items) && |all| == count && all[..|items| + 1] == items + [item]
  {
    hide ReadItem, PrintItem, PrintItems, Head, HoldsAt, Keys, Distinct;
    assert Distinct(all) by { PrintedDistinct(payload, all); }
    NextItem(payload, all, |items|);
    FreshKey(all, |items|);
    assert all[..|items| + 1] == all[..|items|] + [all[|items|]];
  }

  /** An unreadable item or a repeated key rules out every map. */
  lemma Stuck(payload: seq<Byte>, count: nat, items: seq<Item>, offset: nat)
    requires Reading(payload, count, items, offset) && |items| < count
    requires ReadItem(payload, offset).None? || KeyBytes(ReadItem(payload, offset).value.0) in Keys(items)
    ensures !IsMetadata(payload)
  {
    hide Reading, ReadItem;
    if IsMetadata(payload) {
      var all :| PrintedAs(payload, all);
      FindsNext(payload, count, items, offset, all);
    }
  }

  lemma AdvanceAll(payload: seq<Byte>, count: nat, items: seq<Item>, offset: nat)
    requires Reading(payload, count, items, offset) && |items| < count && ReadItem(payload, offset).Some?
    ensures StartsAll(payload, count, items + [ReadItem(payload, offset).value.0])
  {
    hide ReadItem, PrintedAs, Reading;
    forall all | PrintedAs(payload, all)
      ensures |all| == count && all[..|items| + 1] == items + [ReadItem(payload, offset).value.0]
    {
      FindsNext(payload, count, items, offset, all);
    }
  }

  lemma Advance(payload: seq<Byte>, count: nat, items: seq<Item>, offset: nat)
    requires Reading(payload, count, items, offset) && |items| < count
    requires ReadItem(payload, offset).Some? && KeyBytes(ReadItem(payload, offset).value.0) !in Keys(items)
    ensures var (item, end) := ReadItem(payload, offset).value;
            && Reading(payload, count, items + [item], end)
            && Keys(items + [item]) == Keys(items) + {KeyBytes(item)}
            && SourceHashes(items + [item]) == SourceHashes(items) + if SourceHash(item) then 1 else 0
  {
    hide ReadItem, PrintItem, PrintItems, Head, HoldsAt, StartsAll, Keys, SourceHashes, KeyBytes, WellFormedItem, Distinct;
    var (item, end) := ReadItem(payload, offset).value;
    ItemFound(payload, offset);
    ExtendPrinted(payload, count, items, item);
    AdvanceAll(payload, count, items, offset);
  }

  lemma Finish(payload: seq<Byte>, count: nat, items: seq<Item>, offset: nat)
    requires Reading(payload, count, items, offset) && |items| == count
    ensures IsMetadata(payload) <==> offset == |payload| && SOLC in Keys(items) && SourceHashes(items) <= 1
  {
    if IsMetadata(payload) {
      var all :| PrintedAs(payload, all);
      assert all == all[..count] == items;
      FinishPrinted(payload, count, items, offset);
    }
    if offset == |payload| && SOLC in Keys(items) && SourceHashes(items) <= 1 {
      FinishRead(payload, count, items, offset);
    }
  }

  lemma FinishPrinted(payload: seq<Byte>, count: nat, items: seq<Item>, offset: nat)
    requires Reading(payload, count, items, offset) && |items| == count && PrintedAs(payload, items)
    ensures offset == |payload| && SOLC in Keys(items) && SourceHashes(items) <= 1
  {
    hide Head, PrintItems, SourceHashes, Distinct;
    SolcKey(items);
  }

  lemma FinishRead(payload: seq<Byte>, count: nat, items: seq<Item>, offset: nat)
    requires Reading(payload, count, items, offset) && |items| == count
    requires offset == |payload| && SOLC in Keys(items) && SourceHashes(items) <= 1
    ensures PrintedAs(payload, items)
  {
    hide Head, PrintItems, SourceHashes, Distinct, Keys, Solc;
    SolcKey(items);
    assert payload[0..|payload|] == payload;
  }

  /** The reader's verdict: it accepts a payload exactly when some metadata map prints to it. */
  method IsSolidityMetadata(payload: seq<Byte>) returns (ok: bool)
    ensures ok <==> IsMetadata(payload)
  {
    hide Reading, ReadItem, IsMetadata, Keys, SourceHashes;
    var header := CborLength(payload, 0, MAP);
    if header.None? || !(1 <= header.value.0 <= 5) {
      BadHeader(payload);
      return false;
    }
    var (count, offset) := header.value;
    GoodHeader(payload);
    ghost var items: seq<Item> := [];
    var keys: set<seq<Byte>> := {};
    var sourceKeys := 0;
    NoKeys();
    for i := 0 to count
      invariant |items| == i && Reading(payload, count, items, offset)
      invariant keys == Keys(items) && sourceKeys == SourceHashes(items)
    {
      var next := ReadItem(payload, offset);
      if next.None? {
        Stuck(payload, count, items, offset);
        return false;
      }
      var (item, end) := next.value;
      if KeyBytes(item) in keys {
        Stuck(payload, count, items, offset);
        return false;
      }
      Advance(payload, count, items, offset);
      items := items + [item];
      keys := keys + {KeyBytes(item)};
      offset := end;
      if SourceHash(item) {
        sourceKeys := sourceKeys + 1;
      }
    }
    Finish(payload, count, items, offset);
    ok := offset == |payload| && SOLC in keys && sourceKeys <= 1;
  }

  lemma NoKeys()
    ensures Keys([]) == {} && SourceHashes([]) == 0
  {
  }

  lemma ExtendDistinct(items: seq<Item>, item: Item)
    requires Distinct(items) && WellFormedItem(item) && KeyBytes(item) !in Keys(items)
    ensures Distinct(items + [item]) && Keys(items + [item]) == Keys(items) + {KeyBytes(item)}
  {
    hide KeyBytes, WellFormedItem;
    var more := items + [item];
    assert forall x :: x in more <==> x in items || x == item;
    forall x | x in items ensures KeyBytes(x) in Keys(items) {}
    forall i, j | 0 <= i < j < |more| ensures KeyBytes(more[i]) != KeyBytes(more[j]) {
      assert more[i] in items;
    }
  }

  lemma ExtendPrinted(payload: seq<Byte>, count: nat, items: seq<Item>, item: Item)
    requires count < 24 && Distinct(items) && WellFormedItem(item) && KeyBytes(item) !in Keys(items)
    requires HoldsAt(payload, 0, Head(MAP, count) + PrintItems(items))
    requires HoldsAt(payload, |Head(MAP, count)| + |PrintItems(items)|, PrintItem(item))
    ensures Distinct(items + [item]) && Keys(items + [item]) == Keys(items) + {KeyBytes(item)}
    ensures SourceHashes(items + [item]) == SourceHashes(items) + if SourceHash(item) then 1 else 0
    ensures PrintItems(items + [item]) == PrintItems(items) + PrintItem(item)
    ensures HoldsAt(payload, 0, Head(MAP, count) + PrintItems(items + [item]))
  {
    hide KeyBytes, WellFormedItem, PrintItem, Head, HoldsAt, Keys;
    ExtendDistinct(items, item);
    var more, head := items + [item], Head(MAP, count);
    assert more[..|items|] == items && more[|items|] == item;
    assert PrintItems(more) == PrintItems(items) + PrintItem(item);
    HoldsSplit(payload, 0, head + PrintItems(items), PrintItem(item));
    assert (head + PrintItems(items)) + PrintItem(item) == head + PrintItems(more);
  }

  lemma SolcKey(items: seq<Item>)
    ensures SOLC in Keys(items) <==> exists i :: 0 <= i < |items| && Solc(items[i])
  {
    KeysApart();
    if SOLC in Keys(items) {
      var item :| item in items && KeyBytes(item) == SOLC;
      var i :| 0 <= i < |items| && items[i] == item;
      assert Solc(items[i]);
    }
    if i :| 0 <= i < |items| && Solc(items[i]) {
      assert items[i] in items;
    }
  }

  // ------------------------------------------------------------------ size

  function Count(items: seq<Item>, solc: bool): nat {
    if items == [] then 0
    else
      var last := items[|items| - 1];
      Count(items[..|items| - 1], solc) + if (if solc then Solc(last) else last.Experimental?) then 1 else 0
  }

  lemma {:induction false} CountAtMostOne(items: seq<Item>, solc: bool)
    requires Distinct(items)
    ensures Count(items, solc) <= 1
    ensures Count(items, solc) == 1 ==> exists i :: 0 <= i < |items| && KeyBytes(items[i]) == if solc then SOLC else EXPERIMENTAL
  {
    if items != [] {
      var front := items[..|items| - 1];
      CountAtMostOne(front, solc);
      var key := if solc then SOLC else EXPERIMENTAL;
      if Count(front, solc) == 1 {
        var i :| 0 <= i < |front| && KeyBytes(front[i]) == key;
        assert KeyBytes(items[i]) == key;
      }
      var last := |items| - 1;
      if KeyBytes(items[last]) == key { assert 0 <= last < |items|; }
    }
  }

  lemma ItemSize(item: Item)
    requires WellFormedItem(item)
    ensures |PrintItem(item)| <= if SourceHash(item) then 41 else if Solc(item) then 103 else 14
  {
  }

  lemma {:induction false} ItemsSize(items: seq<Item>)
    requires forall item :: item in items ==> WellFormedItem(item)
    ensures |PrintItems(items)| <= 41 * SourceHashes(items) + 103 * Count(items, true) + 14 * Count(items, false)
  {
    if items != [] {
      ItemsSize(items[..|items| - 1]);
      ItemSize(items[|items| - 1]);
    }
  }

  /** Any accepted metadata payload is at most 159 bytes long. */
  lemma MetadataSize(payload: seq<Byte>)
    requires IsMetadata(payload)
    ensures 1 <= |payload| <= 159
  {
    var items :| PrintedAs(payload, items);
    ItemsSize(items);
    CountAtMostOne(items, true);
    CountAtMostOne(items, false);
  }
}
