/**
 Reading records back (src/eckit/codec/Record.cc, `read_data` of src/eckit/codec/RecordItemReader.cc) and the
 round trip with writing.
 */
module RecordReaders {
  import opened Common
  import opened ByteStreams
  import opened RecordFormat
  import opened RecordWriters

  datatype Error =
    | NotRecognized | UnexpectedEof | TooOld | BadMetadataLength | BadIndexLength | BadMarker
    | Corrupted | BadFormat | BadText | BadSectionLength | MixedEndian | NoSuchSection | BadEnd

  datatype Result<T> = Ok(value: T) | Err(error: Error) {
    predicate IsFailure() { Err? }
    function PropagateFailure<U>(): Result<U>
      requires Err?
    {
      Err(error)
    }
    function Extract(): T
      requires Ok?
    {
      value
    }
  }

  /** An item after `parse`: its metadata and, when it has a section, what the index says about its data. */
  datatype Item = Item(
    meta: Meta, section: nat, swapped: bool, compression: Option<Algorithm>,
    checksum: Bytes, compressedSize: nat, size: nat)

  datatype Parsed = Parsed(head: Head, items: map<Key, Item>, sections: seq<Entry>)

  function Rebased(es: seq<Entry>, begin: nat): (r: seq<Entry>)
    ensures |r| == |es|
  {
    seq(|es|, i requires 0 <= i < |es| => es[i].(offset := es[i].offset + begin))
  }

  /** `ParsedRecord::parse` for one item; `swapped` tells that the data is in the other byte order. */
  function ParsedItem(env: Env, m: ItemMeta, swapped: bool, es: seq<Entry>): Item
    requires m.section <= |es|
    requires m.section != 0 ==> es[m.section - 1].length >= 2 * MARKER_SIZE
  {
    if m.section == 0 then Item(m.meta, 0, swapped, m.compression, [], 0, 0) else
      var e := es[m.section - 1];
      var n: nat := e.length - 2 * MARKER_SIZE;
      var size := if m.compression.Some? then env.rawSize(m.meta) else n;
      Item(m.meta, m.section, swapped, m.compression, e.checksum, n, size)
  }

  /** A fixed block that must carry a tag. */
  function CheckMarker(b: Bytes, tag: Bytes): Option<Error>
    requires |tag| < MARKER_SIZE
  {
    if |b| < MARKER_SIZE then Some(UnexpectedEof)
    else if !ValidMarker(b, tag) then Some(BadMarker)
    else None
  }

  /** The head at `begin`. */
  function ReadHead(data: Bytes, begin: nat): Result<Head> {
    var b := Slice(data, begin, HEAD_SIZE);
    if |b| < HEAD_SIZE then
      // what was not read keeps its default, which is the right tag
      Err(if begin + |b| > 8 && b[..Min(|b|, 8)] != RECORD_BEGIN[..Min(|b|, 8)] then NotRecognized else UnexpectedEof)
    else
      var h := HeadFrom(b);
      if h.begin != RECORD_BEGIN then Err(NotRecognized)
      else if h.major == 0 && h.minor < 2 then Err(TooOld)
      else if h.metadataLength < 2 * MARKER_SIZE then Err(BadMetadataLength)
      else if h.indexLength < 2 * MARKER_SIZE then Err(BadIndexLength)
      else Ok(h)
  }

  /** The bytes between two markers, `length` counting both. */
  function ReadFramed(data: Bytes, o: nat, length: nat, begin: Bytes, end: Bytes): Result<Bytes>
    requires length >= 2 * MARKER_SIZE && |begin| < MARKER_SIZE && |end| < MARKER_SIZE
  {
    var n := length - 2 * MARKER_SIZE;
    var a, b := CheckMarker(Slice(data, o, MARKER_SIZE), begin), Slice(data, o + MARKER_SIZE, n);
    if a.Some? then Err(a.value)
    else if |b| < n then Err(UnexpectedEof)
    else
      var z := CheckMarker(Slice(data, o + MARKER_SIZE + n, MARKER_SIZE), end);
      if z.Some? then Err(z.value) else Ok(b)
  }

  /** With `read_to_end`, the end marker must be where the head says the record ends. */
  predicate EndOk(data: Bytes, begin: nat, length: nat) {
    && begin + length >= MARKER_SIZE
    && var b := Slice(data, begin + length - MARKER_SIZE, MARKER_SIZE);
       |b| == MARKER_SIZE && ValidMarker(b, RECORD_END)
  }

  /** The items with what the index says about their data, the offsets counted from the start of the stream. */
  function Interpret(env: Env, h: Head, items: map<Key, ItemMeta>, raw: seq<Entry>, begin: nat): Result<Parsed> {
    var es := Rebased(raw, begin);
    if exists i :: 0 <= i < |raw| && raw[i].length < 2 * MARKER_SIZE then Err(BadSectionLength)
    else if items != map[] && h.magic != NATIVE && h.magic != SWAPPED then Err(MixedEndian)
    else if exists k :: k in items && items[k].section > |es| then Err(NoSuchSection)
    else Ok(Parsed(h, map k | k in items :: ParsedItem(env, items[k], h.magic == SWAPPED, es), es))
  }

  /** What `Record::read` makes of the bytes at `begin`. */
  function ReadRecord(env: Env, data: Bytes, begin: nat, toEnd: bool): Result<Parsed> {
    var h0 :- ReadHead(data, begin);
    var h := h0.(metadataOffset := h0.metadataOffset + begin, indexOffset := h0.indexOffset + begin);
    assert h.metadataLength >= 2 * MARKER_SIZE && h.indexLength >= 2 * MARKER_SIZE;
    var text :- ReadFramed(data, h.metadataOffset, h.metadataLength, METADATA_BEGIN, METADATA_END);
    if !env.verifies(h.metadataChecksum, text) then Err(Corrupted)
    else if h.format != YAML then Err(BadFormat)
    else if env.parse(text).None? then Err(BadText)
    else
      var items := env.parse(text).value;
      var index :- ReadFramed(data, h.indexOffset, h.indexLength, INDEX_BEGIN, INDEX_END);
      var parsed :- Interpret(env, h, items, IndexFrom(index), begin);
      if toEnd && !EndOk(data, begin, h.recordLength) then Err(BadEnd) else Ok(parsed)
  }

  /** What `read_data` makes of a section. */
  function SectionData(data: Bytes, es: seq<Entry>, section: nat): Result<Bytes>
    requires 0 < section <= |es| ==> es[section - 1].length >= 2 * MARKER_SIZE
  {
    if section == 0 then Ok([])
    else if section > |es| then Err(NoSuchSection)
    else ReadFramed(data, es[section - 1].offset, es[section - 1].length, DATA_BEGIN, DATA_END)
  }

  // ---------------------------------------------------------------- the reader as it is written

  method ReadMarker(in_: Stream, tag: Bytes) returns (e: Option<Error>)
    requires |tag| < MARKER_SIZE
    modifies in_`pos
    ensures e == CheckMarker(Slice(in_.data, old(in_.pos), MARKER_SIZE), tag)
    ensures e.None? ==> in_.pos == old(in_.pos) + MARKER_SIZE
  {
    var b := in_.Read(MARKER_SIZE);
    e := CheckMarker(b, tag);
  }

  method ReadBetween(in_: Stream, o: nat, length: nat, begin: Bytes, end: Bytes) returns (r: Result<Bytes>)
    requires length >= 2 * MARKER_SIZE && |begin| < MARKER_SIZE && |end| < MARKER_SIZE
    modifies in_`pos
    ensures r == ReadFramed(in_.data, o, length, begin, end)
  {
    in_.Seek(o);
    var e := ReadMarker(in_, begin);
    if e.Some? { return Err(e.value); }
    var n := length - 2 * MARKER_SIZE;
    var b := in_.Read(n);
    if |b| != n { return Err(UnexpectedEof); }
    e := ReadMarker(in_, end);
    if e.Some? { return Err(e.value); }
    return Ok(b);
  }

  /** Rebases the offsets, refusing sections too short for their markers. */
  method Rebase(es: seq<Entry>, begin: nat) returns (r: Result<seq<Entry>>)
    ensures r ==
              if exists i :: 0 <= i < |es| && es[i].length < 2 * MARKER_SIZE then Err(BadSectionLength)
              else Ok(Rebased(es, begin))
  {
    var out: seq<Entry> := [];
    for i := 0 to |es|
      invariant |out| == i && forall k :: 0 <= k < i ==> out[k] == es[k].(offset := es[k].offset + begin)
      invariant forall k :: 0 <= k < i ==> es[k].length >= 2 * MARKER_SIZE
    {
      if es[i].length < 2 * MARKER_SIZE { return Err(BadSectionLength); }
      out := out + [es[i].(offset := es[i].offset + begin)];
    }
    assert out == Rebased(es, begin);
    return Ok(out);
  }

  /** `ParsedRecord::parse`. */
  method ParseItems(env: Env, magic: nat, items: map<Key, ItemMeta>, es: seq<Entry>) returns (r: Result<map<Key, Item>>)
    requires forall i :: 0 <= i < |es| ==> es[i].length >= 2 * MARKER_SIZE
    ensures r ==
              if items != map[] && magic != NATIVE && magic != SWAPPED then Err(MixedEndian)
              else if exists k :: k in items && items[k].section > |es| then Err(NoSuchSection)
              else Ok(map k | k in items :: ParsedItem(env, items[k], magic == SWAPPED, es))
  {
    var todo, out := items.Keys, map[];
    while todo != {}
      invariant todo <= items.Keys && out.Keys == items.Keys - todo
      invariant forall k :: k in out ==>
                  && (magic == NATIVE || magic == SWAPPED) && items[k].section <= |es|
                  && out[k] == ParsedItem(env, items[k], magic == SWAPPED, es)
    {
      var k :| k in todo;
      if magic != NATIVE && magic != SWAPPED { return Err(MixedEndian); }
      if items[k].section > |es| { return Err(NoSuchSection); }
      out := out[k := ParsedItem(env, items[k], magic == SWAPPED, es)];
      todo := todo - {k};
    }
    assert out == map k | k in items :: ParsedItem(env, items[k], magic == SWAPPED, es);
    return Ok(out);
  }

  /** `Record::read` on an empty record. */
  method Read(env: Env, in_: Stream, toEnd: bool) returns (r: Result<Parsed>)
    modifies in_`pos
    ensures r == ReadRecord(env, in_.data, old(in_.pos), toEnd)
  {
    hide ReadHead, ReadFramed, IndexFrom, Slice;
    var begin := in_.pos;
    var head := ReadHead(in_.data, begin);
    if head.Err? { return Err(head.error); }
    HeadLengths(in_.data, begin);
    var h := head.value;
    h := h.(metadataOffset := h.metadataOffset + begin, indexOffset := h.indexOffset + begin);
    var text := ReadBetween(in_, h.metadataOffset, h.metadataLength, METADATA_BEGIN, METADATA_END);
    if text.Err? { return Err(text.error); }
    if !env.verifies(h.metadataChecksum, text.value) { return Err(Corrupted); }
    if h.format != YAML { return Err(BadFormat); }
    var items := env.parse(text.value);
    if items.None? { return Err(BadText); }
    var index := ReadBetween(in_, h.indexOffset, h.indexLength, INDEX_BEGIN, INDEX_END);
    if index.Err? { return Err(index.error); }
    var es := Rebase(IndexFrom(index.value), begin);
    if es.Err? { return Err(es.error); }
    var parsed := ParseItems(env, h.magic, items.value, es.value);
    if parsed.Err? { return Err(parsed.error); }
    if toEnd {
      var ok := ReadEnd(in_, begin, h.recordLength);
      if !ok { return Err(BadEnd); }
    }
    return Ok(Parsed(h, parsed.value, es.value));
  }

  lemma HeadLengths(data: Bytes, begin: nat)
    ensures ReadHead(data, begin).Ok? ==>
              ReadHead(data, begin).value.metadataLength >= 2 * MARKER_SIZE &&
                ReadHead(data, begin).value.indexLength >= 2 * MARKER_SIZE
  {
  }

  method ReadEnd(in_: Stream, begin: nat, length: nat) returns (ok: bool)
    modifies in_`pos
    ensures ok <==> EndOk(in_.data, begin, length)
  {
    if begin + length < MARKER_SIZE { return false; }
    in_.Seek(begin + length - MARKER_SIZE);
    var b := in_.Read(MARKER_SIZE);
    // a short read leaves the position short of the end of the record
    return in_.pos == begin + length && ValidMarker(b, RECORD_END);
  }

  /** `read_data`; the entries of a record that was read are long enough for their markers. */
  method ReadData(parsed: Parsed, section: nat, in_: Stream) returns (r: Result<Bytes>)
    requires forall i :: 0 <= i < |parsed.sections| ==> parsed.sections[i].length >= 2 * MARKER_SIZE
    modifies in_`pos
    ensures r == SectionData(in_.data, parsed.sections, section)
  {
    if section == 0 { return Ok([]); }
    if section > |parsed.sections| { return Err(NoSuchSection); }
    var e := parsed.sections[section - 1];
    r := ReadBetween(in_, e.offset, e.length, DATA_BEGIN, DATA_END);
  }

  // ---------------------------------------------------------------- round trip

  lemma FramedBack(data: Bytes, o: nat, a: Bytes, b: Bytes, z: Bytes, begin: Bytes, end: Bytes)
    requires |begin| < MARKER_SIZE && |end| < MARKER_SIZE && |a| == MARKER_SIZE && |z| == MARKER_SIZE
    requires ValidMarker(a, begin) && ValidMarker(z, end)
    requires At(data, o, a) && At(data, o + MARKER_SIZE, b) && At(data, o + MARKER_SIZE + |b|, z)
    ensures ReadFramed(data, o, |b| + 2 * MARKER_SIZE, begin, end) == Ok(b)
  {
  }

  /** Where the pieces of a record lie. */
  lemma Pieces(data: Bytes, o: nat, head: Bytes, text: Bytes, index: Bytes, sections: Bytes)
    requires At(data, o, Framed(head, text, index, sections)) && |head| == HEAD_SIZE
    ensures At(data, o, head)
    ensures var m := o + HEAD_SIZE;
            At(data, m, MetadataBegin()) && At(data, m + 32, text) && At(data, m + 32 + |text|, MetadataEnd())
    ensures var i := o + HEAD_SIZE + |text| + 64;
            At(data, i, IndexBegin()) && At(data, i + 32, index) && At(data, i + 32 + |index|, IndexEnd())
    ensures var d := o + HEAD_SIZE + |text| + 64 + |index| + 64;
            At(data, d, sections) && At(data, d + |sections|, RecordEnd())
  {
    hide At, MetadataBegin, MetadataEnd, IndexBegin, IndexEnd, RecordEnd;
    var a := BeforeIndex(head, text);
    var z := IndexEnd() + (sections + RecordEnd());
    AtSplit(data, o, a + index, z);
    AtSplit(data, o, a, index);
    AtSplit(data, o, head + MetadataBegin() + text + MetadataEnd(), IndexBegin());
    AtSplit(data, o, head + MetadataBegin() + text, MetadataEnd());
    AtSplit(data, o, head + MetadataBegin(), text);
    AtSplit(data, o, head, MetadataBegin());
    AtSplit(data, o + |a| + |index|, IndexEnd(), sections + RecordEnd());
    AtSplit(data, o + |a| + |index| + 32, sections, RecordEnd());
  }

  /** The record of writer `w`, as it is written, stands at `begin`. */
  ghost predicate Written(env: Env, on: bool, w: Writer, time: Bytes, data: Bytes, begin: nat) {
    Sane(w) && |Payloads(env, w)| <= w.sections && RecordAt(env, on, ContentOf(env, w), time, data, begin)
  }

  lemma HeadReadsBack(env: Env, on: bool, c: Content, time: Bytes, data: Bytes, begin: nat)
    requires Sound(env) && |time| == 16 && RecordLength(c) < U64
    requires At(data, begin, HeadBytes(HeadOf(env, on, c, time)))
    ensures ReadHead(data, begin) == Ok(HeadOf(env, on, c, time))
  {
    var h := HeadOf(env, on, c, time);
    assert Encodable(h);
    HeadRoundTrip(h);
    AtSlice(data, begin, HeadBytes(h));
  }

  lemma {:induction false} SectionsGrow(ps: seq<Bytes>, i: nat)
    requires i < |ps|
    ensures |SectionsBytes(ps[..i])| + |ps[i]| + 2 * MARKER_SIZE <= |SectionsBytes(ps)|
    decreases i
  {
    hide SectionBytes;
    if i > 0 {
      SectionsGrow(ps[1..], i - 1);
      assert ps[..i][1..] == ps[1..][..i - 1];
    }
  }

  lemma IndexBack(env: Env, on: bool, c: Content)
    requires Sound(env) && RecordLength(c) < U64
    ensures GoodEntries(Index(env, on, c)) && IndexFrom(IndexBytes(Index(env, on, c))) == Index(env, on, c)
  {
    var es := Index(env, on, c);
    forall i | 0 <= i < |es| ensures es[i].offset < U64 && es[i].length < U64 {
      if i < |c.payloads| { SectionsGrow(c.payloads, i); }
    }
    IndexRoundTrip(es);
  }

  ghost predicate RecordAt(env: Env, on: bool, c: Content, time: Bytes, data: Bytes, begin: nat) {
    && Sound(env) && |time| == 16 && |c.payloads| <= c.entries && RecordLength(c) < U64
    && At(data, begin, RecordBytes(env, on, c, time))
  }

  lemma LocatedPieces(env: Env, on: bool, c: Content, time: Bytes, data: Bytes, begin: nat)
    requires RecordAt(env, on, c, time, data, begin)
    ensures GoodEntries(Index(env, on, c)) && |HeadOf(env, on, c, time).metadataChecksum| == 64
    ensures At(data, begin, HeadBytes(HeadOf(env, on, c, time)))
    ensures var m, text := begin + HEAD_SIZE, c.text;
            At(data, m, MetadataBegin()) && At(data, m + 32, text) && At(data, m + 32 + |text|, MetadataEnd())
    ensures var i, index := begin + HEAD_SIZE + |c.text| + 64, IndexBytes(Index(env, on, c));
            At(data, i, IndexBegin()) && At(data, i + 32, index) && At(data, i + 32 + |index|, IndexEnd())
    ensures var d, ps := begin + DataOffset(c), c.payloads;
            At(data, d, SectionsBytes(ps)) && At(data, d + |SectionsBytes(ps)|, RecordEnd())
  {
    hide At, IndexBytes, SectionsBytes, HeadBytes, Sound, IndexFrom, Index, Checksum, GoodEntries;
    hide MetadataBegin, MetadataEnd, IndexBegin, IndexEnd, RecordEnd;
    IndexBack(env, on, c);
    ChecksumSize(env, on, c.text);
    var h := HeadOf(env, on, c, time);
    Pieces(data, begin, HeadBytes(h), c.text, IndexBytes(Index(env, on, c)), SectionsBytes(c.payloads));
  }

  /** Every part of the record is found where the head says it is. */
  lemma Located(env: Env, on: bool, c: Content, time: Bytes, data: Bytes, begin: nat)
    requires RecordAt(env, on, c, time, data, begin)
    ensures GoodEntries(Index(env, on, c))
    ensures var h, index := HeadOf(env, on, c, time), IndexBytes(Index(env, on, c));
            && ReadHead(data, begin) == Ok(h)
            && ReadFramed(data, h.metadataOffset + begin, h.metadataLength, METADATA_BEGIN, METADATA_END) == Ok(c.text)
            && ReadFramed(data, h.indexOffset + begin, h.indexLength, INDEX_BEGIN, INDEX_END) == Ok(index)
            && EndOk(data, begin, h.recordLength)
  {
    hide At, ReadHead, ReadFramed, Sound, IndexBytes, SectionsBytes, HeadBytes, EndOk;
    LocatedPieces(env, on, c, time, data, begin);
    HeadReadsBack(env, on, c, time, data, begin);
    var index, o := IndexBytes(Index(env, on, c)), begin + HEAD_SIZE;
    FramedBack(data, o, MetadataBegin(), c.text, MetadataEnd(), METADATA_BEGIN, METADATA_END);
    FramedBack(data, o + |c.text| + 64, IndexBegin(), index, IndexEnd(), INDEX_BEGIN, INDEX_END);
    EndBack(data, begin, RecordLength(c));
  }

  /** What reading at the place of a written record gives: if every index entry has its section, the head, the items
      and the index, rebased; otherwise the blank entry makes the reader refuse the record. */
  lemma ReadsBack(env: Env, on: bool, w: Writer, time: Bytes, data: Bytes, begin: nat, toEnd: bool)
    requires Written(env, on, w, time, data, begin)
    ensures var c := ContentOf(env, w);
            var h, es := HeadOf(env, on, c, time), Rebased(Index(env, on, c), begin);
            ReadRecord(env, data, begin, toEnd) ==
              if |c.payloads| < w.sections then Err(BadSectionLength) else
                Ok(Parsed(h.(metadataOffset := h.metadataOffset + begin, indexOffset := h.indexOffset + begin),
                          map k | k in w.keys :: ParsedItem(env, Items(w)[k], false, es), es))
  {
    hide At, ReadHead, ReadFramed, Slice, Sound, IndexBytes, IndexFrom, HeadBytes, DataKeys, EndOk, Interpret;
    var c := ContentOf(env, w);
    Located(env, on, c, time, data, begin);
    IndexBack(env, on, c);
    EnvFacts(env, on, w);
    var h := HeadOf(env, on, c, time);
    h := h.(metadataOffset := h.metadataOffset + begin, indexOffset := h.indexOffset + begin);
    InterpretsBack(env, on, w, h, begin);
  }

  lemma InterpretsBack(env: Env, on: bool, w: Writer, h: Head, begin: nat)
    requires Sane(w) && |Payloads(env, w)| <= w.sections && h.magic == NATIVE
    ensures var c := ContentOf(env, w);
            var es := Rebased(Index(env, on, c), begin);
            Interpret(env, h, Items(w), Index(env, on, c), begin) ==
              if |c.payloads| < w.sections then Err(BadSectionLength) else
                Ok(Parsed(h, map k | k in w.keys :: ParsedItem(env, Items(w)[k], false, es), es))
  {
    hide DataKeys;
    var c := ContentOf(env, w);
    var raw, es := Index(env, on, c), Rebased(Index(env, on, c), begin);
    if |c.payloads| < w.sections {
      assert raw[|c.payloads|].length < 2 * MARKER_SIZE;
    } else {
      assert (map k | k in Items(w) :: ParsedItem(env, Items(w)[k], false, es)) ==
             map k | k in w.keys :: ParsedItem(env, Items(w)[k], false, es);
    }
  }

  /** The data of a key, as read: decompressed when it was compressed. */
  function Decoded(env: Env, item: Item, b: Bytes): Bytes {
    if item.compression.Some? then env.decompress(item.compression.value, b, item.size) else b
  }

  /** The encoder reports the size of its data, and its metadata lets a reader compute it. */
  ghost predicate Honest(env: Env, e: Encoder) {
    e.size == |e.data| && env.rawSize(e.meta) == |e.data|
  }

  lemma SectionBack(env: Env, on: bool, c: Content, time: Bytes, data: Bytes, begin: nat, i: nat)
    requires RecordAt(env, on, c, time, data, begin) && i < |c.payloads|
    ensures SectionData(data, Rebased(Index(env, on, c), begin), i + 1) == Ok(c.payloads[i])
  {
    hide At, ReadHead, ReadFramed, Slice, Sound, IndexBytes, HeadBytes, EndOk;
    LocatedPieces(env, on, c, time, data, begin);
    var d, ps := begin + DataOffset(c), c.payloads;
    SectionsAt(data, d, ps, i);
    var o, p := d + |SectionsBytes(ps[..i])|, ps[i];
    AtSplit(data, o, DataBegin() + p, DataEnd());
    AtSplit(data, o, DataBegin(), p);
    FramedBack(data, o, DataBegin(), p, DataEnd(), DATA_BEGIN, DATA_END);
  }

  /** A section number leads to the data of the key that was the so-manieth to be written. */
  lemma KeyBack(env: Env, on: bool, w: Writer, time: Bytes, data: Bytes, begin: nat, section: nat)
    requires Written(env, on, w, time, data, begin) && 0 < section <= |Payloads(env, w)|
    ensures SectionData(data, Rebased(Index(env, on, ContentOf(env, w)), begin), section) ==
              Ok(Payload(env, w, DataKeys(w.keys, w.info)[section - 1]))
  {
    hide At, Slice, DataKeys, ReadFramed, Sound, IndexBytes, HeadBytes;
    SectionBack(env, on, ContentOf(env, w), time, data, begin, section - 1);
  }

  /** Key `k` as a reader finds it: its metadata, its section number, how its data is stored, and that data. */
  ghost predicate Back(env: Env, on: bool, w: Writer, data: Bytes, r: Parsed, k: Key)
    requires k in w.encoders && k in w.info
    requires forall i :: 0 <= i < |r.sections| ==> r.sections[i].length >= 2 * MARKER_SIZE
  {
    && k in r.items
    && var item, e := r.items[k], w.encoders[k];
       && item.meta == e.meta && item.section == w.info[k].section && (item.section != 0 <==> e.EncodesData())
       && !item.swapped && item.compression == w.info[k].compression
       && (e.EncodesData() ==> SectionData(data, r.sections, item.section) == Ok(Payload(env, w, k)))
       && (e.EncodesData() ==>
             item.checksum == Checksum(env, on, Payload(env, w, k)) && item.compressedSize == |Payload(env, w, k)|)
       && (e.EncodesData() && Honest(env, e) ==>
             item.size == |e.data| && Decoded(env, item, Payload(env, w, k)) == e.data)
  }

  /** The round trip: at whatever offset a record was written, reading there yields exactly the keys that were set,
      each with its metadata and with the data of its last `set`; the section number given in `set` leads to it. */
  lemma RecordRoundTrip(env: Env, on: bool, w: Writer, time: Bytes, data: Bytes, begin: nat, toEnd: bool)
    requires Written(env, on, w, time, data, begin) && Consistent(w)
    ensures ReadRecord(env, data, begin, toEnd).Ok?
    ensures var r := ReadRecord(env, data, begin, toEnd).value;
            && (forall k :: k in r.items <==> k in w.keys)
            && (forall i :: 0 <= i < |r.sections| ==> r.sections[i].length >= 2 * MARKER_SIZE)
            && (forall k :: k in w.keys ==> Back(env, on, w, data, r, k))
  {
    hide ReadRecord, DataKeys, RecordAt, Consistent, Back, HeadOf, ParsedItem;
    ConsistentCounts(w);
    ReadsBack(env, on, w, time, data, begin, toEnd);
    var r := ReadRecord(env, data, begin, toEnd).value;
    LongEnough(env, on, ContentOf(env, w), begin);
    hide Index, Rebased, Payloads, RecordLength;
    forall k | k in w.keys ensures Back(env, on, w, data, r, k) {
      OwnBack(env, on, w, time, data, begin, k);
      ItemBack(env, on, w, time, data, begin, k, r);
    }
  }

  lemma LongEnough(env: Env, on: bool, c: Content, begin: nat)
    requires |c.payloads| >= c.entries
    ensures forall e :: e in Rebased(Index(env, on, c), begin) ==> e.length >= 2 * MARKER_SIZE
  {
  }

  /** An index entry has length and checksum of a payload. */
  ghost predicate Describes(env: Env, on: bool, e: Entry, p: Bytes) {
    e.length == |p| + 2 * MARKER_SIZE && e.checksum == Checksum(env, on, p)
  }

  /** A parsed item has the metadata of its key, and what the payload decodes to is what was encoded. */
  lemma ItemBack(env: Env, on: bool, w: Writer, time: Bytes, data: Bytes, begin: nat, k: Key, r: Parsed)
    requires Written(env, on, w, time, data, begin) && k in w.keys
    requires r.sections == Rebased(Index(env, on, ContentOf(env, w)), begin)
    requires forall i :: 0 <= i < |r.sections| ==> r.sections[i].length >= 2 * MARKER_SIZE
    requires k in r.items && r.items[k] == ParsedItem(env, Items(w)[k], false, r.sections)
    requires w.info[k].section != 0 <==> w.encoders[k].EncodesData()
    requires w.info[k].section != 0 ==> SectionData(data, r.sections, w.info[k].section) == Ok(Payload(env, w, k))
    requires w.info[k].section != 0 ==> Describes(env, on, r.sections[w.info[k].section - 1], Payload(env, w, k))
    ensures Back(env, on, w, data, r, k)
  {
    hide DataKeys, SectionData, Index, At, HeadBytes, IndexBytes;
  }

  /** In a consistent writer the section number of a key leads to its own data. */
  lemma OwnBack(env: Env, on: bool, w: Writer, time: Bytes, data: Bytes, begin: nat, k: Key)
    requires Written(env, on, w, time, data, begin) && Consistent(w) && k in w.keys
    ensures w.info[k].section != 0 ==>
              SectionData(data, Rebased(Index(env, on, ContentOf(env, w)), begin), w.info[k].section) ==
                Ok(Payload(env, w, k))
    ensures w.info[k].section != 0 ==>
              Describes(env, on, Index(env, on, ContentOf(env, w))[w.info[k].section - 1], Payload(env, w, k))
    ensures w.info[k].section != 0 <==> w.encoders[k].EncodesData()
  {
    hide RecordAt, DataKeys, ReadFramed;
    assert Placed(w, DataKeys(w.keys, w.info), k);
    if w.info[k].section != 0 { KeyBack(env, on, w, time, data, begin, w.info[k].section); }
  }

  lemma ChecksumSize(env: Env, on: bool, b: Bytes)
    requires Sound(env)
    ensures |Checksum(env, on, b)| == 64
  {
  }

  lemma EnvFacts(env: Env, on: bool, w: Writer)
    requires Sound(env) && WellKeyed(w)
    ensures var text := env.render(Items(w));
            env.parse(text) == Some(Items(w)) && env.verifies(Checksum(env, on, text), text)
  {
  }

  lemma EndBack(data: Bytes, begin: nat, length: nat)
    requires length >= MARKER_SIZE && At(data, begin + length - MARKER_SIZE, RecordEnd())
    ensures EndOk(data, begin, length)
  {
  }

  // ---------------------------------------------------------------- what is accepted

  ghost predicate MarkerAt(data: Bytes, o: nat, tag: Bytes)
    requires |tag| < MARKER_SIZE
  {
    o + MARKER_SIZE <= |data| && ValidMarker(data[o..o + MARKER_SIZE], tag)
  }

  /** `b` stands between two markers. */
  ghost predicate FramedAt(data: Bytes, o: nat, b: Bytes, begin: Bytes, end: Bytes)
    requires |begin| < MARKER_SIZE && |end| < MARKER_SIZE
  {
    MarkerAt(data, o, begin) && At(data, o + MARKER_SIZE, b) && MarkerAt(data, o + MARKER_SIZE + |b|, end)
  }

  /** The record that starts at `begin` ends with its end marker. */
  ghost predicate EndMarked(data: Bytes, begin: nat, length: nat) {
    begin + length >= MARKER_SIZE && MarkerAt(data, begin + length - MARKER_SIZE, RECORD_END)
  }

  ghost predicate GoodHead(h: Head) {
    && h.begin == RECORD_BEGIN && (h.major > 0 || h.minor >= 2) && h.format == YAML
    && h.metadataLength >= 2 * MARKER_SIZE && h.indexLength >= 2 * MARKER_SIZE
  }

  /** Every entry has room for its markers, and every item finds its entry. */
  ghost predicate GoodIndex(h: Head, items: map<Key, ItemMeta>, es: seq<Entry>) {
    && (forall i :: 0 <= i < |es| ==> es[i].length >= 2 * MARKER_SIZE)
    && (forall k :: k in items ==> items[k].section <= |es| && (h.magic == NATIVE || h.magic == SWAPPED))
  }

  /** A record whose metadata reads `text` and whose index reads `index` may be read. */
  ghost predicate Acceptable(env: Env, data: Bytes, begin: nat, toEnd: bool, text: Bytes, index: Bytes) {
    && begin + HEAD_SIZE <= |data|
    && var h := HeadFrom(data[begin..begin + HEAD_SIZE]);
       && GoodHead(h) && h.metadataLength == |text| + 2 * MARKER_SIZE && h.indexLength == |index| + 2 * MARKER_SIZE
       && FramedAt(data, begin + h.metadataOffset, text, METADATA_BEGIN, METADATA_END)
       && FramedAt(data, begin + h.indexOffset, index, INDEX_BEGIN, INDEX_END)
       && env.verifies(h.metadataChecksum, text) && env.parse(text).Some?
       && GoodIndex(h, env.parse(text).value, IndexFrom(index))
       && (toEnd ==> EndMarked(data, begin, h.recordLength))
  }

  lemma FramedExactly(data: Bytes, o: nat, length: nat, begin: Bytes, end: Bytes, b: Bytes)
    requires length >= 2 * MARKER_SIZE && |begin| < MARKER_SIZE && |end| < MARKER_SIZE
    ensures ReadFramed(data, o, length, begin, end) == Ok(b) <==>
              length == |b| + 2 * MARKER_SIZE && FramedAt(data, o, b, begin, end)
  {
  }

  lemma HeadExactly(data: Bytes, begin: nat)
    ensures ReadHead(data, begin).Ok? <==>
              && begin + HEAD_SIZE <= |data|
              && var h := HeadFrom(data[begin..begin + HEAD_SIZE]); GoodHead(h.(format := YAML))
    ensures ReadHead(data, begin).Ok? ==> ReadHead(data, begin).value == HeadFrom(data[begin..begin + HEAD_SIZE])
  {
    hide HeadFrom;
  }

  lemma EndExactly(data: Bytes, begin: nat, length: nat)
    ensures EndOk(data, begin, length) <==> EndMarked(data, begin, length)
  {
  }

  lemma InterpretsExactly(env: Env, h: Head, items: map<Key, ItemMeta>, raw: seq<Entry>, begin: nat)
    ensures Interpret(env, h, items, raw, begin).Ok? <==> GoodIndex(h, items, raw)
  {
  }

  /** Every step of reading succeeds. */
  ghost predicate Passes(env: Env, data: Bytes, begin: nat, toEnd: bool, h: Head, text: Bytes, index: Bytes) {
    && ReadHead(data, begin) == Ok(h) && h.metadataLength >= 2 * MARKER_SIZE && h.indexLength >= 2 * MARKER_SIZE
    && ReadFramed(data, h.metadataOffset + begin, h.metadataLength, METADATA_BEGIN, METADATA_END) == Ok(text)
    && env.verifies(h.metadataChecksum, text) && h.format == YAML && env.parse(text).Some?
    && ReadFramed(data, h.indexOffset + begin, h.indexLength, INDEX_BEGIN, INDEX_END) == Ok(index)
    && GoodIndex(h, env.parse(text).value, IndexFrom(index))
    && (toEnd ==> EndOk(data, begin, h.recordLength))
  }

  lemma Accepts(env: Env, data: Bytes, begin: nat, toEnd: bool, h: Head, text: Bytes, index: Bytes)
    requires Passes(env, data, begin, toEnd, h, text, index)
    ensures ReadRecord(env, data, begin, toEnd).Ok?
  {
    hide ReadHead, ReadFramed, IndexFrom, EndOk, Interpret;
    var h' := h.(metadataOffset := h.metadataOffset + begin, indexOffset := h.indexOffset + begin);
    InterpretsExactly(env, h', env.parse(text).value, IndexFrom(index), begin);
  }

  lemma AcceptedPasses(env: Env, data: Bytes, begin: nat, toEnd: bool) returns (h: Head, text: Bytes, index: Bytes)
    requires ReadRecord(env, data, begin, toEnd).Ok?
    ensures Passes(env, data, begin, toEnd, h, text, index)
  {
    HeadLengths(data, begin);
    hide ReadHead, ReadFramed, IndexFrom, EndOk, Interpret;
    h := ReadHead(data, begin).value;
    text := ReadFramed(data, h.metadataOffset + begin, h.metadataLength, METADATA_BEGIN, METADATA_END).value;
    index := ReadFramed(data, h.indexOffset + begin, h.indexLength, INDEX_BEGIN, INDEX_END).value;
    var h' := h.(metadataOffset := h.metadataOffset + begin, indexOffset := h.indexOffset + begin);
    InterpretsExactly(env, h', env.parse(text).value, IndexFrom(index), begin);
  }

  lemma PassedHead(env: Env, data: Bytes, begin: nat, toEnd: bool, h: Head, text: Bytes, index: Bytes)
    requires Passes(env, data, begin, toEnd, h, text, index)
    ensures begin + HEAD_SIZE <= |data| && h == HeadFrom(data[begin..begin + HEAD_SIZE])
  {
    HeadExactly(data, begin);
    hide ReadHead, HeadFrom;
  }

  lemma PassesExactly(env: Env, data: Bytes, begin: nat, toEnd: bool, h: Head, text: Bytes, index: Bytes)
    requires begin + HEAD_SIZE <= |data| && h == HeadFrom(data[begin..begin + HEAD_SIZE])
    ensures Passes(env, data, begin, toEnd, h, text, index) <==> Acceptable(env, data, begin, toEnd, text, index)
  {
    HeadExactly(data, begin);
    EndExactly(data, begin, h.recordLength);
    hide ReadHead, ReadFramed, FramedAt, EndMarked, HeadFrom, IndexFrom, EndOk, GoodIndex;
    if h.metadataLength >= 2 * MARKER_SIZE && h.indexLength >= 2 * MARKER_SIZE {
      FramedExactly(data, h.metadataOffset + begin, h.metadataLength, METADATA_BEGIN, METADATA_END, text);
      FramedExactly(data, h.indexOffset + begin, h.indexLength, INDEX_BEGIN, INDEX_END, index);
    }
  }

  /** The reader accepts exactly what is well formed, with the metadata that stands between the markers verified by
      the checksum in the head. */
  lemma AcceptsExactly(env: Env, data: Bytes, begin: nat, toEnd: bool)
    ensures ReadRecord(env, data, begin, toEnd).Ok? <==>
              exists text, index :: Acceptable(env, data, begin, toEnd, text, index)
  {
    hide ReadRecord, Passes;
    HeadExactly(data, begin);
    if ReadRecord(env, data, begin, toEnd).Ok? {
      var h, text, index := AcceptedPasses(env, data, begin, toEnd);
      PassedHead(env, data, begin, toEnd, h, text, index);
      PassesExactly(env, data, begin, toEnd, h, text, index);
    }
    if text, index :| Acceptable(env, data, begin, toEnd, text, index) {
      var h := HeadFrom(data[begin..begin + HEAD_SIZE]);
      PassesExactly(env, data, begin, toEnd, h, text, index);
      Accepts(env, data, begin, toEnd, h, text, index);
    }
  }

  /** Why a head is refused: the tag first, as far as it could be read, then the length, the version, the sections. */
  lemma HeadReasons(data: Bytes, begin: nat)
    ensures var (r, b) := (ReadHead(data, begin), Slice(data, begin, HEAD_SIZE));
            var tagged := b[..Min(|b|, 8)] == "ATLAS-IO"[..Min(|b|, 8)];
            && (r == Err(NotRecognized) <==> !tagged && (|b| == HEAD_SIZE || begin + |b| > 8))
            && (r == Err(UnexpectedEof) <==> |b| < HEAD_SIZE && (tagged || begin + |b| <= 8))
            && (r == Err(TooOld) <==> |b| == HEAD_SIZE && tagged && HeadFrom(b).major == 0 && HeadFrom(b).minor < 2)
            && (r == Err(BadMetadataLength) ==> HeadFrom(b).metadataLength < 64)
            && (r == Err(BadIndexLength) ==> HeadFrom(b).indexLength < 64 <= HeadFrom(b).metadataLength)
            && (r.Err? ==> r.error in {NotRecognized, UnexpectedEof, TooOld, BadMetadataLength, BadIndexLength})
  {
    hide FromLittle;
  }

  /** The metadata can be read and is `text`. */
  ghost predicate TextRead(data: Bytes, begin: nat, h: Head, text: Bytes) {
    && begin + HEAD_SIZE <= |data| && h == HeadFrom(data[begin..begin + HEAD_SIZE]) && GoodHead(h.(format := YAML))
    && h.metadataLength == |text| + 2 * MARKER_SIZE
    && FramedAt(data, begin + h.metadataOffset, text, METADATA_BEGIN, METADATA_END)
  }

  /** Why a record is refused whose metadata can be read. */
  lemma TextReasons(env: Env, data: Bytes, begin: nat, toEnd: bool, h: Head, text: Bytes)
    requires TextRead(data, begin, h, text)
    ensures var (r, checked) := (ReadRecord(env, data, begin, toEnd), env.verifies(h.metadataChecksum, text));
            && (r == Err(Corrupted) <==> !checked)
            && (r == Err(BadFormat) <==> checked && h.format != YAML)
            && (r == Err(BadText) <==> checked && h.format == YAML && env.parse(text).None?)
            && (r == Err(BadEnd) <==>
                  toEnd && ReadRecord(env, data, begin, false).Ok? && !EndMarked(data, begin, h.recordLength))
  {
    TextReadIs(data, begin, h, text);
    EndExactly(data, begin, h.recordLength);
    hide *;
    Reasons(env, data, begin, false, h, text);
    Reasons(env, data, begin, toEnd, h, text);
  }

  lemma TextReadIs(data: Bytes, begin: nat, h: Head, text: Bytes)
    requires TextRead(data, begin, h, text)
    ensures ReadHead(data, begin) == Ok(h) && h.metadataLength >= 2 * MARKER_SIZE && h.indexLength >= 2 * MARKER_SIZE
    ensures ReadFramed(data, h.metadataOffset + begin, h.metadataLength, METADATA_BEGIN, METADATA_END) == Ok(text)
  {
    HeadExactly(data, begin);
    FramedExactly(data, h.metadataOffset + begin, h.metadataLength, METADATA_BEGIN, METADATA_END, text);
    hide ReadHead, ReadFramed, FramedAt, HeadFrom;
  }

  lemma Reasons(env: Env, data: Bytes, begin: nat, toEnd: bool, h: Head, text: Bytes)
    requires ReadHead(data, begin) == Ok(h) && h.metadataLength >= 2 * MARKER_SIZE && h.indexLength >= 2 * MARKER_SIZE
    requires ReadFramed(data, h.metadataOffset + begin, h.metadataLength, METADATA_BEGIN, METADATA_END) == Ok(text)
    ensures var (r, checked) := (ReadRecord(env, data, begin, toEnd), env.verifies(h.metadataChecksum, text));
            && (r == Err(Corrupted) <==> !checked)
            && (r == Err(BadFormat) <==> checked && h.format != YAML)
            && (r == Err(BadText) <==> checked && h.format == YAML && env.parse(text).None?)
            && (r.Ok? ==> ReadRecord(env, data, begin, false).Ok? && (toEnd ==> EndOk(data, begin, h.recordLength)))
            && (r == Err(BadEnd) <==>
                  toEnd && ReadRecord(env, data, begin, false).Ok? && !EndOk(data, begin, h.recordLength))
  {
    hide ReadHead, ReadFramed, IndexFrom, EndOk, Interpret;
    var h' := h.(metadataOffset := h.metadataOffset + begin, indexOffset := h.indexOffset + begin);
    var index := ReadFramed(data, h'.indexOffset, h.indexLength, INDEX_BEGIN, INDEX_END);
    FramedReasons(data, h'.indexOffset, h.indexLength, INDEX_BEGIN, INDEX_END);
    if env.parse(text).Some? && index.Ok? {
      InterpretReasons(env, h', env.parse(text).value, IndexFrom(index.value), begin);
    }
  }

  lemma FramedReasons(data: Bytes, o: nat, length: nat, begin: Bytes, end: Bytes)
    requires length >= 2 * MARKER_SIZE && |begin| < MARKER_SIZE && |end| < MARKER_SIZE
    ensures var r := ReadFramed(data, o, length, begin, end); r.Err? ==> r.error in {UnexpectedEof, BadMarker}
    ensures ReadFramed(data, o, length, begin, end) == Err(BadMarker) ==>
              o + MARKER_SIZE <= |data| && !(MarkerAt(data, o, begin) && MarkerAt(data, o + length - MARKER_SIZE, end))
  {
  }

  lemma InterpretReasons(env: Env, h: Head, items: map<Key, ItemMeta>, raw: seq<Entry>, begin: nat)
    ensures var (r, short) := (Interpret(env, h, items, raw, begin),
                               exists i :: 0 <= i < |raw| && raw[i].length < 2 * MARKER_SIZE);
            var mixed := items != map[] && h.magic != NATIVE && h.magic != SWAPPED;
            && (r == Err(BadSectionLength) <==> short)
            && (r == Err(MixedEndian) <==> !short && mixed)
            && (r == Err(NoSuchSection) <==> !short && !mixed && exists k :: k in items && items[k].section > |raw|)
            && (r.Err? ==> r.error in {BadSectionLength, MixedEndian, NoSuchSection})
  {
  }

  /** A written record in which the metadata text was replaced by another of the same length that its checksum does
      not verify is refused as corrupted. */
  lemma AlterationDetected(env: Env, on: bool, w: Writer, time: Bytes, data: Bytes, begin: nat, text: Bytes,
                           toEnd: bool)
    requires Written(env, on, w, time, data, begin) && begin + HEAD_SIZE + MARKER_SIZE + |text| <= |data|
    requires |text| == |env.render(Items(w))|
    requires !env.verifies(if on then env.digest(env.render(Items(w))) else NO_CHECKSUM, text)
    ensures ReadRecord(env, Overwrite(data, begin + HEAD_SIZE + MARKER_SIZE, text), begin, toEnd) == Err(Corrupted)
  {
    hide RecordAt, Payloads, Overwrite, ReadRecord;
    AlteredText(env, on, ContentOf(env, w), time, data, begin, text, toEnd);
  }

  lemma AlteredText(env: Env, on: bool, c: Content, time: Bytes, data: Bytes, begin: nat, text: Bytes, toEnd: bool)
    requires RecordAt(env, on, c, time, data, begin) && begin + HEAD_SIZE + MARKER_SIZE + |text| <= |data|
    requires |text| == |c.text| && !env.verifies(Checksum(env, on, c.text), text)
    ensures ReadRecord(env, Overwrite(data, begin + HEAD_SIZE + MARKER_SIZE, text), begin, toEnd) == Err(Corrupted)
  {
    hide Sound, ReadHead, ReadFramed, Index, IndexBytes, SectionsBytes, HeadBytes, ReadRecord, Checksum;
    hide At, Overwrite;
    var o := begin + HEAD_SIZE;
    var data' := Overwrite(data, o + MARKER_SIZE, text);
    LocatedPieces(env, on, c, time, data, begin);
    Replaced(data, o + MARKER_SIZE, text, begin, HeadBytes(HeadOf(env, on, c, time)));
    Replaced(data, o + MARKER_SIZE, text, o, MetadataBegin());
    Replaced(data, o + MARKER_SIZE, text, o + MARKER_SIZE + |text|, MetadataEnd());
    HeadReadsBack(env, on, c, time, data', begin);
    FramedBack(data', o, MetadataBegin(), text, MetadataEnd(), METADATA_BEGIN, METADATA_END);
    Refuses(env, data', begin, toEnd, HeadOf(env, on, c, time), text);
  }

  /** Writing over some bytes leaves what lies before or behind them. */
  lemma Replaced(data: Bytes, o: nat, b: Bytes, p: nat, chunk: Bytes)
    requires o + |b| <= |data| && At(data, p, chunk) && (p + |chunk| <= o || o + |b| <= p)
    ensures At(Overwrite(data, o, b), p, chunk) && At(Overwrite(data, o, b), o, b)
  {
    var data' := Overwrite(data, o, b);
    assert forall i :: 0 <= i < |data| && !(o <= i < o + |b|) ==> data'[i] == data[i];
    assert data'[p..p + |chunk|] == data[p..p + |chunk|];
  }

  lemma Refuses(env: Env, data: Bytes, begin: nat, toEnd: bool, h: Head, text: Bytes)
    requires ReadHead(data, begin) == Ok(h) && h.metadataLength >= 2 * MARKER_SIZE
    requires ReadFramed(data, h.metadataOffset + begin, h.metadataLength, METADATA_BEGIN, METADATA_END) == Ok(text)
    requires !env.verifies(h.metadataChecksum, text)
    ensures ReadRecord(env, data, begin, toEnd) == Err(Corrupted)
  {
    HeadLengths(data, begin);
    hide ReadHead, ReadFramed;
  }

  // ---------------------------------------------------------------- truncated files

  lemma AcceptedToEnd(env: Env, data: Bytes, begin: nat)
    requires ReadRecord(env, data, begin, true).Ok?
    ensures ReadHead(data, begin).Ok? && EndOk(data, begin, ReadHead(data, begin).value.recordLength)
  {
  }

  lemma HeadOfPart(data: Bytes, begin: nat, m: nat)
    requires m <= |data| && ReadHead(data[..m], begin).Ok?
    ensures ReadHead(data[..m], begin) == ReadHead(data, begin)
  {
    hide HeadFrom;
    assert Slice(data[..m], begin, HEAD_SIZE) == Slice(data, begin, HEAD_SIZE);
  }

  lemma NoEndPast(data: Bytes, begin: nat, length: nat)
    requires |data| < begin + length
    ensures !EndOk(data, begin, length)
  {
  }

  /** A record that lost any bytes at its end is refused when it is read to its end. */
  lemma TruncationDetected(env: Env, on: bool, w: Writer, time: Bytes, data: Bytes, begin: nat, m: nat)
    requires Written(env, on, w, time, data, begin)
    requires m <= |data| && m < begin + RecordLength(ContentOf(env, w))
    ensures ReadRecord(env, data[..m], begin, true).Err?
  {
    hide ReadHead, ReadRecord, ReadFramed, EndOk, RecordLength, Index, At;
    Located(env, on, ContentOf(env, w), time, data, begin);
    NoEndPast(data[..m], begin, RecordLength(ContentOf(env, w)));
    if ReadRecord(env, data[..m], begin, true).Ok? {
      AcceptedToEnd(env, data[..m], begin);
      HeadOfPart(data, begin, m);
    }
  }

  // ---------------------------------------------------------------- from `set` to reading

  ghost predicate Last(calls: seq<SetCall>, i: nat)
    requires i < |calls|
  {
    forall j :: i < j < |calls| ==> calls[j].key != calls[i].key
  }

  /** The last `set` of a key decides what is written for it. */
  lemma {:induction false} LastDecides(calls: seq<SetCall>, i: nat)
    requires i < |calls|
    ensures calls[i].key in Build(calls).keys && calls[i].key in Build(calls).encoders
    ensures Last(calls, i) ==> Build(calls).encoders[calls[i].key] == calls[i].encoder
    decreases |calls|
  {
    hide Sane;
    var n := |calls| - 1;
    assert calls[n].key in Build(calls).keys by { assert Build(calls).keys[|Build(calls).keys| - 1] == calls[n].key; }
    if i < n {
      LastDecides(calls[..n], i);
      assert Build(calls[..n]).keys <= Build(calls).keys;
    }
  }

  ghost predicate First(calls: seq<SetCall>, i: nat)
    requires i < |calls|
  {
    forall j :: 0 <= j < i ==> calls[j].key != calls[i].key
  }

  /** The first and the last `set` of the same key. */
  ghost predicate Spans(calls: seq<SetCall>, i: int, j: int) {
    0 <= i < |calls| && 0 <= j < |calls| && calls[i].key == calls[j].key && First(calls, i) && Last(calls, j)
  }

  /** The first `set` of a key decides how its data is stored. */
  lemma {:induction false} FirstDecides(calls: seq<SetCall>, i: nat)
    requires i < |calls| && First(calls, i)
    ensures calls[i].key in Build(calls).info
    ensures Build(calls).info[calls[i].key].compression ==
              if calls[i].encoder.size > 0 then calls[i].compression else None
    decreases |calls|
  {
    var n := |calls| - 1;
    if i < n {
      FirstDecides(calls[..n], i);
    } else {
      KeysSet(calls[..n], calls[n].key);
    }
    hide Sane;
  }

  /** What a call set with compression `x`, as a reader finds it: the metadata, and between the markers of its section
      the data, compressed with `x` unless there is none, with its checksum. */
  ghost predicate Found(env: Env, on: bool, data: Bytes, r: Parsed, c: SetCall, x: Option<Algorithm>)
    requires forall i :: 0 <= i < |r.sections| ==> r.sections[i].length >= 2 * MARKER_SIZE
  {
    && c.key in r.items
    && var item, e := r.items[c.key], c.encoder;
       && item.meta == e.meta && !item.swapped && item.compression == x && (item.section != 0 <==> e.size > 0)
       && (e.size == 0 ==> SectionData(data, r.sections, item.section) == Ok([]))
       && (e.size > 0 ==>
             var stored := if x.Some? && e.data != [] then env.compress(x.value, e.data) else e.data;
             && SectionData(data, r.sections, item.section) == Ok(stored)
             && item.checksum == (if on then env.digest(stored) else NO_CHECKSUM)
             && item.compressedSize == |stored|
             && (Honest(env, e) ==> item.size == |e.data| && Decoded(env, item, stored) == e.data))
  }

  /** The head tells when and how long, and has the checksum of what stands between the metadata markers. */
  ghost predicate HeadFound(env: Env, on: bool, time: Bytes, length: nat, data: Bytes, h: Head) {
    && h.time == time && h.recordLength == length && h.metadataLength >= 2 * MARKER_SIZE
    && var text := Slice(data, h.metadataOffset + MARKER_SIZE, h.metadataLength - 2 * MARKER_SIZE);
       h.metadataChecksum == if on then env.digest(text) else NO_CHECKSUM
  }

  /** A reader finds the keys that were set and no others, each as it was set last, stored as it was set first. */
  ghost predicate FindsAll(env: Env, on: bool, data: Bytes, r: Parsed, calls: seq<SetCall>) {
    && (forall i :: 0 <= i < |r.sections| ==> r.sections[i].length >= 2 * MARKER_SIZE)
    && (forall k :: k in r.items <==> exists i :: 0 <= i < |calls| && calls[i].key == k)
    && (forall i, j :: Spans(calls, i, j) ==>
          Found(env, on, data, r, calls[j], if calls[i].encoder.size > 0 then calls[i].compression else None))
  }

  lemma CallsBack(env: Env, on: bool, calls: seq<SetCall>, time: Bytes, data: Bytes, begin: nat, toEnd: bool)
    requires Written(env, on, Build(calls), time, data, begin) && Consistent(Build(calls))
    ensures var r := ReadRecord(env, data, begin, toEnd);
            && r.Ok? && FindsAll(env, on, data, r.value, calls)
            && HeadFound(env, on, time, RecordLength(ContentOf(env, Build(calls))), data, r.value.head)
  {
    hide Written, Consistent, ReadRecord, SectionData, Build, Decoded, Honest, HeadFound, Found, Back, First, Last;
    var w := Build(calls);
    RecordRoundTrip(env, on, w, time, data, begin, toEnd);
    HeadBack(env, on, w, time, data, begin, toEnd);
    var r := ReadRecord(env, data, begin, toEnd).value;
    forall k ensures k in w.keys <==> Sets(calls, k) { KeysSet(calls, k); }
    forall i, j | Spans(calls, i, j)
      ensures Found(env, on, data, r, calls[j], if calls[i].encoder.size > 0 then calls[i].compression else None)
    {
      LastDecides(calls, j);
      FirstDecides(calls, i);
      BackFound(env, on, w, data, r, calls[j]);
    }
  }

  lemma BackFound(env: Env, on: bool, w: Writer, data: Bytes, r: Parsed, c: SetCall)
    requires c.key in w.encoders && c.key in w.info && w.encoders[c.key] == c.encoder
    requires forall i :: 0 <= i < |r.sections| ==> r.sections[i].length >= 2 * MARKER_SIZE
    requires Back(env, on, w, data, r, c.key)
    ensures Found(env, on, data, r, c, w.info[c.key].compression)
  {
    hide Decoded, Honest, ReadFramed;
  }

  lemma HeadBack(env: Env, on: bool, w: Writer, time: Bytes, data: Bytes, begin: nat, toEnd: bool)
    requires Written(env, on, w, time, data, begin)
    ensures var r := ReadRecord(env, data, begin, toEnd);
            r.Ok? ==> HeadFound(env, on, time, RecordLength(ContentOf(env, w)), data, r.value.head)
  {
    hide ReadRecord, RecordAt, HeadFound, DataKeys, HeadOf, Index;
    ReadsBack(env, on, w, time, data, begin, toEnd);
    HeadFoundOf(env, on, ContentOf(env, w), time, data, begin);
  }

  lemma HeadFoundOf(env: Env, on: bool, c: Content, time: Bytes, data: Bytes, begin: nat)
    requires RecordAt(env, on, c, time, data, begin)
    ensures var h := HeadOf(env, on, c, time);
            HeadFound(env, on, time, RecordLength(c), data,
                      h.(metadataOffset := h.metadataOffset + begin, indexOffset := h.indexOffset + begin))
  {
    LocatedPieces(env, on, c, time, data, begin);
    AtSlice(data, begin + HEAD_SIZE + MARKER_SIZE, c.text);
    hide RecordAt, RecordLength, At, Slice, Index, IndexBytes, HeadBytes, SectionsBytes;
  }

  lemma KeysSet(calls: seq<SetCall>, k: Key)
    ensures k in Build(calls).keys <==> Sets(calls, k)
  {
    hide Build, StartsWithData;
    Counts(calls);
  }

  /** Reading a written record succeeds exactly if as many calls carried data as were for keys that did at first;
      otherwise the record is refused. */
  lemma ReadableExactly(env: Env, on: bool, calls: seq<SetCall>, time: Bytes, data: Bytes, begin: nat, toEnd: bool)
    requires Written(env, on, Build(calls), time, data, begin)
    ensures var r := ReadRecord(env, data, begin, toEnd);
            (r.Ok? <==> Produced(calls) == Announced(calls)) && (r.Err? ==> r.error == BadSectionLength)
  {
    hide ReadRecord, Build, DataKeys, RecordAt;
    ReadsBack(env, on, Build(calls), time, data, begin, toEnd);
    Counts(calls);
  }

  /** A key set without data and then with data makes the whole record unreadable. */
  lemma DataAddedLaterRefused(env: Env, on: bool, k: Key, meta: Meta, time: Bytes, data: Bytes, begin: nat, toEnd: bool)
    requires var calls := [SetCall(k, Encoder(meta, 0, []), None), SetCall(k, Encoder(meta, 1, "x"), None)];
             Written(env, on, Build(calls), time, data, begin)
    ensures ReadRecord(env, data, begin, toEnd) == Err(BadSectionLength)
  {
    hide ReadRecord, Build, Written, Announced, Produced;
    var calls := [SetCall(k, Encoder(meta, 0, []), None), SetCall(k, Encoder(meta, 1, "x"), None)];
    DataAddedLater(k, meta);
    ReadableExactly(env, on, calls, time, data, begin, toEnd);
  }

  /** From any sequence of `set` to reading what was written at any place over any bytes. */
  method WriteThenRead(env: Env, on: bool, calls: seq<SetCall>, time: Bytes, data: Bytes, begin: nat)
    returns (after: Bytes, r: Option<Result<Parsed>>)
    requires Sound(env) && |time| == 16 && begin <= |data| && RecordLength(ContentOf(env, Build(calls))) < U64
    ensures r.Some? <==> Produced(calls) <= Announced(calls)
    ensures r.Some? ==>
              (r.value.Ok? <==> Produced(calls) == Announced(calls)) &&
                (r.value.Err? ==> r.value.error == BadSectionLength)
    ensures Consistent(Build(calls)) ==>
              && r.Some? && r.value.Ok? && FindsAll(env, on, after, r.value.value, calls)
              && HeadFound(env, on, time, RecordLength(ContentOf(env, Build(calls))), after, r.value.value.head)
    ensures KindStable(calls) ==> Consistent(Build(calls))
  {
    hide Sound, Consistent, WellKeyed, KindStable, RecordBytes, Overwrite, RecordLength, ContentOf, ReadRecord,
      Written, FindsAll, HeadFound;
    hide Build, DataKeys, Announced, Produced;
    ghost var w := Build(calls);
    Counts(calls);
    ConsistentCounts(w);
    if KindStable(calls) { BuildConsistent(calls); }
    var writer := SetAll(on, calls);
    var stream := new Stream(data, begin);
    var length := writer.Write(env, stream, time);
    after := stream.data;
    if length.None? { return after, None; }
    WrittenThere(env, on, w, time, data, begin);
    stream.Seek(begin);
    var read := Read(env, stream, true);
    ReadableExactly(env, on, calls, time, after, begin, true);
    if Consistent(w) { CallsBack(env, on, calls, time, after, begin, true); }
    r := Some(read);
  }

  method SetAll(on: bool, calls: seq<SetCall>) returns (writer: RecordWriter)
    ensures fresh(writer) && writer.Valid() && writer.State() == Build(calls) && writer.doChecksum == on
  {
    writer := new RecordWriter(on);
    for i := 0 to |calls|
      invariant fresh(writer) && writer.Valid() && writer.State() == Build(calls[..i]) && writer.doChecksum == on
    {
      assert calls[..i + 1] == calls[..i] + [calls[i]];
      CountsStep(calls[..i], calls[i]);
      hide Build, SetItem, Sane, DataKeys;
      writer.Set(calls[i].key, calls[i].encoder, calls[i].compression);
    }
    assert calls[..|calls|] == calls;
  }

  lemma ConsistentCounts(w: Writer)
    requires Sane(w)
    ensures Consistent(w) ==> |DataKeys(w.keys, w.info)| == w.sections
  {
  }

  lemma WrittenThere(env: Env, on: bool, w: Writer, time: Bytes, data: Bytes, begin: nat)
    requires Sound(env) && Sane(w) && |DataKeys(w.keys, w.info)| <= w.sections && |time| == 16 && begin <= |data|
    requires RecordLength(ContentOf(env, w)) < U64
    ensures Written(env, on, w, time, Overwrite(data, begin, RecordBytes(env, on, ContentOf(env, w), time)), begin)
  {
    hide RecordBytes, Sound, DataKeys;
    assert |Payloads(env, w)| == |DataKeys(w.keys, w.info)|;
  }

  // ---------------------------------------------------------------- files of several records

  /** A readable record as it was written: by which writer, with checksums or not, and when. */
  datatype Source = Source(on: bool, w: Writer, time: Bytes)

  ghost predicate GoodSource(env: Env, r: Source) {
    && Sound(env) && Sane(r.w) && |Payloads(env, r.w)| == r.w.sections && |r.time| == 16
    && RecordLength(ContentOf(env, r.w)) < U64
  }

  ghost function BytesOf(env: Env, r: Source): Bytes
    requires GoodSource(env, r)
  {
    RecordBytes(env, r.on, ContentOf(env, r.w), r.time)
  }

  ghost function FileOf(env: Env, rs: seq<Source>): Bytes
    requires forall r :: r in rs ==> GoodSource(env, r)
  {
    if rs == [] then [] else FileOf(env, rs[..|rs| - 1]) + BytesOf(env, rs[|rs| - 1])
  }

  /** Record `i` lies behind the records before it. */
  lemma {:induction false} RecordInFile(env: Env, rs: seq<Source>, i: nat)
    requires (forall r :: r in rs ==> GoodSource(env, r)) && i < |rs|
    ensures At(FileOf(env, rs), |FileOf(env, rs[..i])|, BytesOf(env, rs[i]))
    ensures |FileOf(env, rs[..i + 1])| == |FileOf(env, rs[..i])| + |BytesOf(env, rs[i])| <= |FileOf(env, rs)|
    decreases |rs|
  {
    hide BytesOf, GoodSource;
    var front := rs[..|rs| - 1];
    assert rs[..i + 1][..i] == rs[..i];
    if i < |front| {
      RecordInFile(env, front, i);
      assert front[..i] == rs[..i];
      assert front[..i + 1] == rs[..i + 1];
      AtExtend(FileOf(env, front), BytesOf(env, rs[|rs| - 1]), |FileOf(env, rs[..i])|, BytesOf(env, rs[i]));
    } else {
      assert front == rs[..i] && rs == rs[..i + 1];
    }
  }

  lemma ListedRecord(env: Env, rs: seq<Source>, i: nat, toEnd: bool)
    requires (forall r :: r in rs ==> GoodSource(env, r)) && i < |rs|
    ensures var start := |FileOf(env, rs[..i])|;
            var r := ReadRecord(env, FileOf(env, rs), start, toEnd);
            && start < |FileOf(env, rs)|
            && r.Ok? && r.value.head.recordLength == |FileOf(env, rs[..i + 1])| - start > 0
  {
    hide ReadRecord, FileOf, At, Sound, SectionsBytes, DataKeys;
    var r := rs[i];
    assert r in rs;
    RecordInFile(env, rs, i);
    ReadsBack(env, r.on, r.w, r.time, FileOf(env, rs), |FileOf(env, rs[..i])|, toEnd);
    RecordBytesLength(env, r.on, ContentOf(env, r.w), r.time);
  }

  /** The listing loop over a file of appended records finds the start of each record once and stops at the end of the
      file. */
  method ListRecords(env: Env, in_: Stream, ghost rs: seq<Source>) returns (starts: seq<nat>, ok: bool)
    requires forall r :: r in rs ==> GoodSource(env, r)
    requires in_.data == FileOf(env, rs)
    modifies in_`pos
    ensures ok && |starts| == |rs|
    ensures forall i :: 0 <= i < |rs| ==> starts[i] == |FileOf(env, rs[..i])|
  {
    hide ReadRecord, FileOf, GoodSource;
    var pos: nat := 0;
    starts := [];
    EmptyFile(env);
    assert rs[..0] == [];
    while pos < |in_.data|
      invariant |starts| <= |rs| && pos == |FileOf(env, rs[..|starts|])|
      invariant forall i :: 0 <= i < |starts| ==> starts[i] == |FileOf(env, rs[..i])|
      decreases |rs| - |starts|
    {
      assert rs[..|rs|] == rs;
      ListedRecord(env, rs, |starts|, true);
      in_.Seek(pos);
      var r := Read(env, in_, true);
      if r.Err? { return starts, false; }
      starts := starts + [pos];
      pos := pos + r.value.head.recordLength;
    }
    if |starts| < |rs| { ListedRecord(env, rs, |starts|, true); }
    return starts, true;
  }

  lemma EmptyFile(env: Env)
    ensures FileOf(env, []) == []
  {
  }

  /** Writing one more record at the end of a file of records gives a file of one more record. */
  lemma AppendRecord(env: Env, rs: seq<Source>, r: Source)
    requires (forall r :: r in rs ==> GoodSource(env, r)) && GoodSource(env, r)
    ensures Overwrite(FileOf(env, rs), |FileOf(env, rs)|, BytesOf(env, r)) == FileOf(env, rs + [r])
  {
    hide BytesOf, GoodSource;
    var all := rs + [r];
    assert all[..|rs|] == rs && all[|rs|] == r;
  }
}
