/**
 The sections of a record as bytes (src/eckit/codec/detail/RecordSections.h).
 */
module RecordFormat {
  import opened ByteStreams

  const RECORD_BEGIN := "ATLAS-IO"
  const RECORD_END := "ATLAS-IO-END"
  const METADATA_BEGIN := "METADATA-BEGIN"
  const METADATA_END := "METADATA-END"
  const INDEX_BEGIN := "INDEX-BEGIN"
  const INDEX_END := "INDEX-END"
  const DATA_BEGIN := "DATA-BEGIN"
  const DATA_END := "DATA-END"

  const HEAD_SIZE := 256
  const MARKER_SIZE := 32
  const ENTRY_SIZE := 80

  function Repeat(c: char, n: nat): (b: Bytes)
    ensures |b| == n
  {
    seq(n, _ => c)
  }

  /** A 32-byte marker: end of line, tag, padding that ends in `eols` ends of line. */
  function Marker(tag: Bytes, eols: nat): (b: Bytes)
    requires |tag| + eols <= 31
    ensures |b| == MARKER_SIZE && ValidMarker(b, tag)
  {
    var b := "\n" + tag + Repeat(' ', 31 - |tag| - eols) + Repeat('\n', eols);
    assert b[1..1 + |tag|] == tag;
    b
  }

  predicate ValidMarker(b: Bytes, tag: Bytes)
    requires 1 + |tag| <= |b|
  {
    b[1..1 + |tag|] == tag
  }

  function MetadataBegin(): (b: Bytes) ensures |b| == MARKER_SIZE { Marker(METADATA_BEGIN, 1) }
  function MetadataEnd(): (b: Bytes) ensures |b| == MARKER_SIZE { Marker(METADATA_END, 1) }
  function IndexBegin(): (b: Bytes) ensures |b| == MARKER_SIZE { Marker(INDEX_BEGIN, 1) }
  function IndexEnd(): (b: Bytes) ensures |b| == MARKER_SIZE { Marker(INDEX_END, 1) }
  function DataBegin(): (b: Bytes) ensures |b| == MARKER_SIZE { Marker(DATA_BEGIN, 1) }
  function DataEnd(): (b: Bytes) ensures |b| == MARKER_SIZE { Marker(DATA_END, 1) }
  function RecordEnd(): (b: Bytes) ensures |b| == MARKER_SIZE { Marker(RECORD_END, 4) }

  // ---------------------------------------------------------------- head

  datatype Head = Head(
    begin: Bytes, major: nat, minor: nat, time: Bytes, recordLength: nat, format: Bytes,
    metadataOffset: nat, metadataLength: nat, metadataChecksum: Bytes,
    indexOffset: nat, indexLength: nat, magic: nat)

  const YAML: Bytes := "yaml" + Repeat('\0', 4)
  const NATIVE := 1234

  /** The same number read in the other byte order. */
  const SWAPPED := 3523477504

  ghost predicate Encodable(h: Head) {
    && |h.begin| == 8 && h.major < U32 && h.minor < U32 && |h.time| == 16 && h.recordLength < U64
    && |h.format| == 8 && h.metadataOffset < U64 && h.metadataLength < U64 && |h.metadataChecksum| == 64
    && h.indexOffset < U64 && h.indexLength < U64 && h.magic < U32
  }

  function HeadFront(h: Head): (b: Bytes)
    requires |h.begin| == 8 && |h.time| == 16 && |h.format| == 8
    ensures |b| == 72
  {
    h.begin + ("\n" + Repeat('\0', 7)) + Little(h.major, 4) + Little(h.minor, 4) + h.time + Little(h.recordLength, 8)
    + h.format + Little(h.metadataOffset, 8) + Little(h.metadataLength, 8)
  }

  function HeadRest(h: Head): (b: Bytes)
    requires |h.metadataChecksum| == 64
    ensures |b| == 184
  {
    h.metadataChecksum + Little(h.indexOffset, 8) + Little(h.indexLength, 8) + Little(h.magic, 4)
    + Repeat('\0', 99) + "\n"
  }

  function HeadBytes(h: Head): (b: Bytes)
    requires |h.begin| == 8 && |h.time| == 16 && |h.format| == 8 && |h.metadataChecksum| == 64
    ensures |b| == HEAD_SIZE
  {
    HeadFront(h) + HeadRest(h)
  }

  function HeadFrom(b: Bytes): Head
    requires |b| == HEAD_SIZE
  {
    Head(b[..8], FromLittle(b[16..20]), FromLittle(b[20..24]), b[24..40], FromLittle(b[40..48]), b[48..56],
         FromLittle(b[56..64]), FromLittle(b[64..72]), b[72..136], FromLittle(b[136..144]), FromLittle(b[144..152]),
         FromLittle(b[152..156]))
  }

  lemma FrontFields(h: Head, b: Bytes)
    requires Encodable(h) && b == HeadFront(h)
    ensures b[..8] == h.begin && b[16..20] == Little(h.major, 4) && b[20..24] == Little(h.minor, 4)
    ensures b[24..40] == h.time && b[40..48] == Little(h.recordLength, 8) && b[48..56] == h.format
    ensures b[56..64] == Little(h.metadataOffset, 8) && b[64..72] == Little(h.metadataLength, 8)
  {
  }

  lemma BackFields(h: Head, b: Bytes)
    requires Encodable(h) && b == HeadRest(h)
    ensures b[..64] == h.metadataChecksum && b[64..72] == Little(h.indexOffset, 8)
    ensures b[72..80] == Little(h.indexLength, 8) && b[80..84] == Little(h.magic, 4)
  {
  }

  lemma HeadRoundTrip(h: Head)
    requires Encodable(h)
    ensures HeadFrom(HeadBytes(h)) == h
  {
    WordSizes();
    LittleRoundTrip(h.major, 4);
    LittleRoundTrip(h.minor, 4);
    LittleRoundTrip(h.recordLength, 8);
    LittleRoundTrip(h.metadataOffset, 8);
    LittleRoundTrip(h.metadataLength, 8);
    LittleRoundTrip(h.indexOffset, 8);
    LittleRoundTrip(h.indexLength, 8);
    LittleRoundTrip(h.magic, 4);
    hide Little, FromLittle, HeadFront, HeadRest;
    FrontFields(h, HeadFront(h));
    BackFields(h, HeadRest(h));
    Halves(HeadFront(h), HeadRest(h));
  }

  /** The fields of a head as they lie in its two parts. */
  lemma Halves(f: Bytes, g: Bytes)
    requires |f| == 72 && |g| == 184
    ensures var b := f + g;
            && b[..8] == f[..8] && b[16..20] == f[16..20] && b[20..24] == f[20..24] && b[24..40] == f[24..40]
            && b[40..48] == f[40..48] && b[48..56] == f[48..56] && b[56..64] == f[56..64] && b[64..72] == f[64..72]
            && b[72..136] == g[..64] && b[136..144] == g[64..72] && b[144..152] == g[72..80] && b[152..156] == g[80..84]
  {
  }

  // ---------------------------------------------------------------- index

  datatype Entry = Entry(offset: nat, length: nat, checksum: Bytes)

  /** What the index holds before it is patched. */
  function BlankEntry(): (e: Entry)
    ensures |e.checksum| == 64
  {
    Entry(0, 0, Repeat('\0', 64))
  }

  function EntryBytes(e: Entry): (b: Bytes)
    requires |e.checksum| == 64
    ensures |b| == ENTRY_SIZE
  {
    Little(e.offset, 8) + Little(e.length, 8) + e.checksum
  }

  function EntryFrom(b: Bytes): Entry
    requires |b| == ENTRY_SIZE
  {
    Entry(FromLittle(b[..8]), FromLittle(b[8..16]), b[16..80])
  }

  lemma EntryRoundTrip(e: Entry)
    requires |e.checksum| == 64 && e.offset < U64 && e.length < U64
    ensures EntryFrom(EntryBytes(e)) == e
  {
    WordSizes();
    LittleRoundTrip(e.offset, 8);
    LittleRoundTrip(e.length, 8);
    hide Little, FromLittle;
    var b := EntryBytes(e);
    assert b[..8] == Little(e.offset, 8) && b[8..16] == Little(e.length, 8) && b[16..80] == e.checksum;
  }

  ghost predicate GoodEntries(es: seq<Entry>) {
    forall i :: 0 <= i < |es| ==> |es[i].checksum| == 64
  }

  ghost function IndexBytes(es: seq<Entry>): (b: Bytes)
    requires GoodEntries(es)
    ensures |b| == ENTRY_SIZE * |es|
  {
    if es == [] then [] else EntryBytes(es[0]) + IndexBytes(es[1..])
  }

  lemma {:induction false} IndexAppend(es: seq<Entry>, e: Entry)
    requires GoodEntries(es) && |e.checksum| == 64
    ensures IndexBytes(es + [e]) == IndexBytes(es) + EntryBytes(e)
  {
    if es == [] {
      assert es + [e] == [e] && [e][1..] == [];
    } else {
      assert (es + [e])[1..] == es[1..] + [e];
      IndexAppend(es[1..], e);
    }
  }

  /** As many entries as fit into `b`. */
  function IndexFrom(b: Bytes): (es: seq<Entry>)
    ensures |es| == |b| / ENTRY_SIZE
  {
    if |b| < ENTRY_SIZE then [] else [EntryFrom(b[..80])] + IndexFrom(b[80..])
  }

  lemma {:induction false} IndexRoundTrip(es: seq<Entry>)
    requires GoodEntries(es) && forall i :: 0 <= i < |es| ==> es[i].offset < U64 && es[i].length < U64
    ensures IndexFrom(IndexBytes(es)) == es
  {
    if es != [] {
      var b := IndexBytes(es);
      assert b[..80] == EntryBytes(es[0]) && b[80..] == IndexBytes(es[1..]);
      EntryRoundTrip(es[0]);
      IndexRoundTrip(es[1..]);
    }
  }

  // ---------------------------------------------------------------- data sections

  ghost function SectionBytes(p: Bytes): (b: Bytes)
    ensures |b| == |p| + 2 * MARKER_SIZE
  {
    DataBegin() + p + DataEnd()
  }

  ghost function SectionsBytes(ps: seq<Bytes>): Bytes {
    if ps == [] then [] else SectionBytes(ps[0]) + SectionsBytes(ps[1..])
  }

  lemma {:induction false} SectionsAppend(ps: seq<Bytes>, p: Bytes)
    ensures SectionsBytes(ps + [p]) == SectionsBytes(ps) + SectionBytes(p)
  {
    hide SectionBytes;
    if ps == [] {
      assert ps + [p] == [p] && [p][1..] == [];
    } else {
      assert (ps + [p])[1..] == ps[1..] + [p];
      SectionsAppend(ps[1..], p);
    }
  }

  /** Section `i` starts where the sections before it end. */
  lemma {:induction false} SectionsAt(data: Bytes, o: nat, ps: seq<Bytes>, i: nat)
    requires At(data, o, SectionsBytes(ps)) && i < |ps|
    ensures At(data, o + |SectionsBytes(ps[..i])|, SectionBytes(ps[i]))
    decreases i
  {
    hide SectionBytes;
    AtSplit(data, o, SectionBytes(ps[0]), SectionsBytes(ps[1..]));
    if i > 0 {
      SectionsAt(data, o + |SectionBytes(ps[0])|, ps[1..], i - 1);
      assert ps[..i][1..] == ps[1..][..i - 1];
    }
  }
}
