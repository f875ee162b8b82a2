/** The metadata trailer byte by byte: what is accepted, as literal layouts. */
module MetadataLayout {
  import opened Basics
  import opened Metadata

  // ------------------------------------------------------------------ the entries, as written

  function Ascii(s: string): (r: seq<Byte>)
    requires forall i :: 0 <= i < |s| ==> s[i] < 128 as char
    ensures |r| == |s| && forall i :: 0 <= i < |s| ==> r[i] == s[i] as int
  {
    seq(|s|, i requires 0 <= i < |s| => s[i] as int)
  }

  /** An entry under a source hash key: `prefix` and 32 bytes. */
  ghost predicate HashEntry(entry: seq<Byte>, prefix: seq<Byte>) {
    |entry| == |prefix| + 32 && prefix <= entry
  }

  ghost predicate SourceEntry(entry: seq<Byte>) {
    || HashEntry(entry, [0x64] + Ascii("ipfs") + [0x58, 0x22, 0x12, 0x20])
    || HashEntry(entry, [0x65] + Ascii("bzzr0") + [0x58, 0x20])
    || HashEntry(entry, [0x65] + Ascii("bzzr1") + [0x58, 0x20])
  }

  ghost predicate FlagEntry(entry: seq<Byte>) {
    entry == [0x6C] + Ascii("experimental") + [0xF5]
  }

  /** A version text: a digit, then 2 to 95 letters, digits, dots, pluses and dashes. */
  ghost predicate Version(text: seq<Byte>) {
    && 3 <= |text| <= 96 && '0' <= text[0] as char <= '9'
    && forall i :: 1 <= i < |text| ==>
         var c := text[i] as char;
         '0' <= c <= '9' || 'a' <= c <= 'z' || 'A' <= c <= 'Z' || c == '.' || c == '+' || c == '-'
  }

  ghost predicate ReleaseEntry(entry: seq<Byte>) {
    |entry| == 9 && [0x64] + Ascii("solc") + [0x43] <= entry
  }

  ghost predicate PrereleaseEntry(entry: seq<Byte>) {
    exists text :: Version(text) &&
      entry == [0x64] + Ascii("solc") + (if |text| < 24 then [0x60 + |text|] else [0x78, |text|]) + text
  }

  /** A compiler entry is a release or a prerelease; every other one is a hash or the flag. */
  ghost predicate Entry(entry: seq<Byte>) {
    SourceEntry(entry) || FlagEntry(entry) || ReleaseEntry(entry) || PrereleaseEntry(entry)
  }

  ghost predicate SameKind(a: seq<Byte>, b: seq<Byte>) {
    || (SourceEntry(a) && SourceEntry(b)) || (FlagEntry(a) && FlagEntry(b))
    || ((ReleaseEntry(a) || PrereleaseEntry(a)) && (ReleaseEntry(b) || PrereleaseEntry(b)))
  }

  function Concat(entries: seq<seq<Byte>>): seq<Byte> {
    if entries == [] then [] else Concat(entries[..|entries| - 1]) + entries[|entries| - 1]
  }

  /** A map of one to three entries, no two of a kind, one of them the compiler's. */
  ghost predicate Layout(payload: seq<Byte>, entries: seq<seq<Byte>>) {
    && 1 <= |entries| <= 3 && payload == [0xA0 + |entries|] + Concat(entries)
    && (forall i :: 0 <= i < |entries| ==> Entry(entries[i]))
    && (forall i, j :: 0 <= i < j < |entries| ==> !SameKind(entries[i], entries[j]))
    && exists i :: 0 <= i < |entries| && (ReleaseEntry(entries[i]) || PrereleaseEntry(entries[i]))
  }

  // ------------------------------------------------------------------ printed items are entries

  lemma KeyTexts()
    ensures IPFS == Ascii("ipfs") && BZZR0 == Ascii("bzzr0") && BZZR1 == Ascii("bzzr1")
    ensures EXPERIMENTAL == Ascii("experimental") && SOLC == Ascii("solc")
  {
  }

  lemma VersionIff(text: seq<Byte>)
    ensures VersionText(text) <==> Version(text)
  {
  }

  lemma SmallBlob(major: nat, content: seq<Byte>)
    requires major < 8 && |content| < 0x100
    ensures Blob(major, content)
         == (if |content| < 24 then [32 * major + |content|] else [32 * major + 24, |content|]) + content
  {
    assert BigEndian(|content|, 1) == [|content|];
  }

  /** An entry whose value is a byte string or a text. */
  lemma BlobEntry(key: seq<Byte>, major: nat, content: seq<Byte>)
    requires major < 8 && |key| < 24 && |content| < 0x100
    ensures Blob(TEXT, key) + Blob(major, content)
         == ([0x60 + |key|] + key) + (if |content| < 24 then [32 * major + |content|] else [32 * major + 24, |content|]) + content
  {
    hide Blob;
    SmallBlob(TEXT, key);
    SmallBlob(major, content);
  }

  lemma IpfsLayout(digest: seq<Byte>)
    requires |digest| == 32
    ensures PrintItem(Ipfs(digest)) == [0x64] + Ascii("ipfs") + [0x58, 0x22, 0x12, 0x20] + digest
  {
    hide Blob, Ascii;
    KeyTexts();
    BlobEntry(IPFS, BYTES, MULTIHASH + digest);
    assert PrintItem(Ipfs(digest)) == Blob(TEXT, IPFS) + Blob(BYTES, MULTIHASH + digest);
  }

  lemma BzzrLayout(hash: seq<Byte>)
    requires |hash| == 32
    ensures PrintItem(Bzzr0(hash)) == [0x65] + Ascii("bzzr0") + [0x58, 0x20] + hash
    ensures PrintItem(Bzzr1(hash)) == [0x65] + Ascii("bzzr1") + [0x58, 0x20] + hash
  {
    hide Blob, Ascii;
    KeyTexts();
    BlobEntry(BZZR0, BYTES, hash);
    BlobEntry(BZZR1, BYTES, hash);
  }

  lemma FlagLayout()
    ensures PrintItem(Experimental) == [0x6C] + Ascii("experimental") + [0xF5]
  {
    hide Blob, Ascii;
    KeyTexts();
    SmallBlob(TEXT, EXPERIMENTAL);
  }

  lemma SolcLayout(content: seq<Byte>)
    ensures |content| == 3 ==> PrintItem(SolcRelease(content)) == [0x64] + Ascii("solc") + [0x43] + content
    ensures VersionText(content) ==>
              PrintItem(SolcPrerelease(content))
                == [0x64] + Ascii("solc") + (if |content| < 24 then [0x60 + |content|] else [0x78, |content|]) + content
  {
    hide Blob, Ascii;
    KeyTexts();
    if |content| < 0x100 {
      BlobEntry(SOLC, BYTES, content);
      BlobEntry(SOLC, TEXT, content);
    }
  }

  // ------------------------------------------------------------------ entries are printed items

  lemma AfterPrefix(entry: seq<Byte>, prefix: seq<Byte>)
    requires prefix <= entry
    ensures entry == prefix + entry[|prefix|..]
  {
  }

  lemma SourceItem(entry: seq<Byte>) returns (item: Item)
    requires SourceEntry(entry)
    ensures WellFormedItem(item) && SourceHash(item) && PrintItem(item) == entry
  {
    hide PrintItem, Ascii;
    KeyTexts();
    var content := entry[|entry| - 32..];
    IpfsLayout(content);
    BzzrLayout(content);
    if HashEntry(entry, [0x64] + Ascii("ipfs") + [0x58, 0x22, 0x12, 0x20]) {
      AfterPrefix(entry, [0x64] + Ascii("ipfs") + [0x58, 0x22, 0x12, 0x20]);
      item := Ipfs(content);
    } else if HashEntry(entry, [0x65] + Ascii("bzzr0") + [0x58, 0x20]) {
      AfterPrefix(entry, [0x65] + Ascii("bzzr0") + [0x58, 0x20]);
      item := Bzzr0(content);
    } else {
      AfterPrefix(entry, [0x65] + Ascii("bzzr1") + [0x58, 0x20]);
      item := Bzzr1(content);
    }
  }

  lemma CompilerItem(entry: seq<Byte>) returns (item: Item)
    requires ReleaseEntry(entry) || PrereleaseEntry(entry)
    ensures WellFormedItem(item) && Solc(item) && PrintItem(item) == entry
  {
    hide PrintItem, Ascii, VersionText, Version;
    KeyTexts();
    if ReleaseEntry(entry) {
      AfterPrefix(entry, [0x64] + Ascii("solc") + [0x43]);
      SolcLayout(entry[6..]);
      item := SolcRelease(entry[6..]);
    } else {
      var text :| Version(text)
        && entry == [0x64] + Ascii("solc") + (if |text| < 24 then [0x60 + |text|] else [0x78, |text|]) + text;
      VersionIff(text);
      SolcLayout(text);
      item := SolcPrerelease(text);
    }
  }

  lemma PrintItemInjective(a: Item, b: Item)
    requires WellFormedItem(a) && WellFormedItem(b) && PrintItem(a) == PrintItem(b)
    ensures a == b
  {
    var value := PrintItem(a);
    assert HoldsAt(value, 0, value);
    ItemRead(value, 0, a);
    ItemRead(value, 0, b);
  }

  lemma SourceIff(item: Item)
    requires WellFormedItem(item)
    ensures SourceHash(item) <==> SourceEntry(PrintItem(item))
  {
    hide PrintItem, Ascii;
    KeyTexts();
    if SourceEntry(PrintItem(item)) {
      var other := SourceItem(PrintItem(item));
      PrintItemInjective(item, other);
    }
    match item
    case Ipfs(digest) => IpfsLayout(digest);
    case Bzzr0(hash) => BzzrLayout(hash);
    case Bzzr1(hash) => BzzrLayout(hash);
    case _ =>
  }

  lemma CompilerIff(item: Item)
    requires WellFormedItem(item)
    ensures Solc(item) <==> ReleaseEntry(PrintItem(item)) || PrereleaseEntry(PrintItem(item))
    ensures item.Experimental? <==> FlagEntry(PrintItem(item))
  {
    hide PrintItem, Ascii, VersionText, Version;
    KeyTexts();
    FlagLayout();
    if ReleaseEntry(PrintItem(item)) || PrereleaseEntry(PrintItem(item)) {
      var other := CompilerItem(PrintItem(item));
      PrintItemInjective(item, other);
    }
    if FlagEntry(PrintItem(item)) { PrintItemInjective(item, Experimental); }
    match item
    case SolcRelease(version) => SolcLayout(version);
    case SolcPrerelease(text) =>
      VersionIff(text);
      SolcLayout(text);
    case _ =>
  }

  // ------------------------------------------------------------------ the map

  lemma {:induction false} ConcatPrinted(items: seq<Item>, entries: seq<seq<Byte>>)
    requires |items| == |entries|
    requires forall i :: 0 <= i < |items| ==> WellFormedItem(items[i]) && entries[i] == PrintItem(items[i])
    ensures Concat(entries) == PrintItems(items)
  {
    hide PrintItem, WellFormedItem;
    var n := |items| - 1;
    if items != [] { ConcatPrinted(items[..n], entries[..n]); }
  }

  /** At most one source hash, counted and pair by pair. */
  lemma {:induction false} OneHashIff(items: seq<Item>)
    ensures SourceHashes(items) == 0 <==> forall i :: 0 <= i < |items| ==> !SourceHash(items[i])
    ensures SourceHashes(items) <= 1 <==> forall i, j :: 0 <= i < j < |items| ==> !(SourceHash(items[i]) && SourceHash(items[j]))
  {
    if items != [] {
      var front, last := items[..|items| - 1], items[|items| - 1];
      OneHashIff(front);
      assert forall i :: 0 <= i < |front| ==> front[i] == items[i];
    }
  }

  function Rank(item: Item): int { if SourceHash(item) then 0 else if Solc(item) then 1 else 2 }

  /** Different keys and at most one source hash: no two items of a rank. */
  lemma RanksApart(items: seq<Item>)
    requires forall item :: item in items ==> WellFormedItem(item)
    ensures Distinct(items) && SourceHashes(items) <= 1 <==>
            forall i, j :: 0 <= i < j < |items| ==> Rank(items[i]) != Rank(items[j])
  {
    hide SourceHashes;
    KeysApart();
    OneHashIff(items);
    forall i, j | 0 <= i < j < |items|
      ensures Rank(items[i]) != Rank(items[j]) <==>
              KeyBytes(items[i]) != KeyBytes(items[j]) && !(SourceHash(items[i]) && SourceHash(items[j]))
    {
    }
  }

  lemma AtMostThree(items: seq<Item>)
    requires forall i, j :: 0 <= i < j < |items| ==> Rank(items[i]) != Rank(items[j])
    ensures |items| <= 3
  {
    if |items| > 3 { SomePair(items[0], items[1], items[2], items[3]); }
  }

  lemma SomePair(a: Item, b: Item, c: Item, d: Item)
    ensures Rank(a) in {Rank(b), Rank(c), Rank(d)} || Rank(b) in {Rank(c), Rank(d)} || Rank(c) == Rank(d)
  {
  }

  lemma RankOfEntry(a: Item, b: Item)
    requires WellFormedItem(a) && WellFormedItem(b)
    ensures SameKind(PrintItem(a), PrintItem(b)) <==> Rank(a) == Rank(b)
    ensures Entry(PrintItem(a))
  {
    hide PrintItem, WellFormedItem, SourceEntry, ReleaseEntry, PrereleaseEntry, FlagEntry;
    SourceIff(a);
    SourceIff(b);
    CompilerIff(a);
    CompilerIff(b);
  }

  lemma ItemsLayout(payload: seq<Byte>, items: seq<Item>, entries: seq<seq<Byte>>)
    requires |items| == |entries|
    requires forall i :: 0 <= i < |items| ==> WellFormedItem(items[i]) && entries[i] == PrintItem(items[i])
    ensures Layout(payload, entries) <==> PrintedAs(payload, items)
  {
    hide PrintItem, WellFormedItem, Solc, Rank, Entry, SameKind, ReleaseEntry, PrereleaseEntry, Distinct, SourceHashes;
    forall i | 0 <= i < |items|
      ensures Entry(entries[i]) && (Solc(items[i]) <==> ReleaseEntry(entries[i]) || PrereleaseEntry(entries[i]))
    {
      RankOfEntry(items[i], items[i]);
      CompilerIff(items[i]);
    }
    forall i, j | 0 <= i < j < |items| ensures SameKind(entries[i], entries[j]) <==> Rank(items[i]) == Rank(items[j]) {
      RankOfEntry(items[i], items[j]);
    }
    RanksApart(items);
    ConcatPrinted(items, entries);
    if forall i, j :: 0 <= i < j < |items| ==> Rank(items[i]) != Rank(items[j]) { AtMostThree(items); }
  }

  lemma {:induction false} ItemsOf(entries: seq<seq<Byte>>) returns (items: seq<Item>)
    requires forall i :: 0 <= i < |entries| ==> Entry(entries[i])
    ensures |items| == |entries|
    ensures forall i :: 0 <= i < |items| ==> WellFormedItem(items[i]) && entries[i] == PrintItem(items[i])
  {
    hide PrintItem, WellFormedItem, SourceEntry, ReleaseEntry, PrereleaseEntry;
    items := [];
    if entries != [] {
      var item;
      if SourceEntry(entries[0]) {
        item := SourceItem(entries[0]);
      } else if FlagEntry(entries[0]) {
        FlagLayout();
        item := Experimental;
        assert WellFormedItem(item) by { FlagIsWellFormed(); }
      } else {
        item := CompilerItem(entries[0]);
      }
      var rest := ItemsOf(entries[1..]);
      items := [item] + rest;
    }
  }

  lemma FlagIsWellFormed()
    ensures WellFormedItem(Experimental)
  {
  }

  /** Exactly what is accepted as metadata: one byte 0xA1 to 0xA3, then that many entries in any
      order, at most one of a source hash, at most one the flag, exactly one of the compiler. */
  lemma AcceptedIff(payload: seq<Byte>)
    ensures IsMetadata(payload) <==> exists entries :: Layout(payload, entries)
  {
    hide Layout, PrintedAs;
    if IsMetadata(payload) {
      var items :| PrintedAs(payload, items);
      assert forall item :: item in items ==> WellFormedItem(item) by { WellFormedOf(payload, items); }
      var entries := seq(|items|, i requires 0 <= i < |items| => PrintItem(items[i]));
      ItemsLayout(payload, items, entries);
    }
    if entries :| Layout(payload, entries) {
      LayoutEntries(payload, entries);
      var items := ItemsOf(entries);
      ItemsLayout(payload, items, entries);
    }
  }

  lemma WellFormedOf(payload: seq<Byte>, items: seq<Item>)
    requires PrintedAs(payload, items)
    ensures forall item :: item in items ==> WellFormedItem(item)
  {
  }

  lemma LayoutEntries(payload: seq<Byte>, entries: seq<seq<Byte>>)
    requires Layout(payload, entries)
    ensures forall i :: 0 <= i < |entries| ==> Entry(entries[i])
  {
  }
}
