/**
 Writing records: the bookkeeping of `set`, the layout that `write` produces by writing forwards and
 patching the head and the index afterwards (src/eckit/codec/RecordWriter.cc).
 */
module RecordWriters {
  import opened Common
  import opened ByteStreams
  import opened RecordFormat

  type Key(==, !new)

  /** A compressor; no compression is `None`. */
  type Algorithm(==, !new)

  /** What an encoder puts into the metadata of its item. */
  type Meta(==, !new)

  datatype ItemMeta = ItemMeta(meta: Meta, section: nat, compression: Option<Algorithm>)

  /** Text format, checksum and compression come from elsewhere. */
  datatype Env = Env(
    render: map<Key, ItemMeta> -> Bytes,
    parse: Bytes -> Option<map<Key, ItemMeta>>,
    digest: Bytes -> Bytes,
    verifies: (Bytes, Bytes) -> bool,
    compress: (Algorithm, Bytes) -> Bytes,
    decompress: (Algorithm, Bytes, nat) -> Bytes,
    rawSize: Meta -> nat)

  const NO_CHECKSUM: Bytes := "none:" + Repeat('\0', 59)

  /** Metadata text parses back, checksums verify, compression can be undone. */
  ghost predicate Sound(env: Env) {
    && (forall m :: env.parse(env.render(m)) == Some(m))
    && (forall b :: |env.digest(b)| == 64 && env.verifies(env.digest(b), b) && env.verifies(NO_CHECKSUM, b))
    && (forall a, b :: env.decompress(a, env.compress(a, b), |b|) == b)
  }

  /** `size` is what `encode_metadata` returns, `data` what `encode_data` produces. A link has neither. */
  datatype Encoder = Encoder(meta: Meta, size: nat, data: Bytes) {
    predicate EncodesData() { size > 0 }
  }

  datatype DataInfo = DataInfo(section: nat, compression: Option<Algorithm>)

  datatype Writer = Writer(keys: seq<Key>, encoders: map<Key, Encoder>, info: map<Key, DataInfo>, sections: nat)

  const NewWriter := Writer([], map[], map[], 0)

  /** `set`: the encoder of a repeated key is replaced, but `emplace` keeps its first section info. */
  function SetItem(w: Writer, key: Key, e: Encoder, compression: Option<Algorithm>): Writer {
    var sections := if e.EncodesData() then w.sections + 1 else w.sections;
    var info := if e.EncodesData() then DataInfo(sections, compression) else DataInfo(0, None);
    Writer(w.keys + [key], w.encoders[key := e], if key in w.info then w.info else w.info[key := info], sections)
  }

  // ---------------------------------------------------------------- section numbers

  ghost predicate WellKeyed(w: Writer) {
    && (forall k :: k in w.keys ==> k in w.encoders && k in w.info)
    && (forall k :: k in w.info ==> k in w.keys)
  }

  /** What every sequence of `set` keeps: keys are known, and no section number exceeds the counter. */
  ghost predicate Sane(w: Writer) {
    WellKeyed(w) && forall k :: k in w.info ==> w.info[k].section <= w.sections
  }

  /** The keys in the order in which `write` writes their data sections. */
  function DataKeys(keys: seq<Key>, info: map<Key, DataInfo>): (d: seq<Key>)
    requires forall k :: k in keys ==> k in info
    ensures forall k :: k in d ==> k in keys
  {
    if keys == [] then [] else
      var last := keys[|keys| - 1];
      DataKeys(keys[..|keys| - 1], info) + if info[last].section != 0 then [last] else []
  }

  lemma {:induction false} DataKeysAgree(keys: seq<Key>, info: map<Key, DataInfo>, info': map<Key, DataInfo>)
    requires forall k :: k in keys ==> k in info && k in info' && info[k] == info'[k]
    ensures DataKeys(keys, info) == DataKeys(keys, info')
  {
    if keys != [] { DataKeysAgree(keys[..|keys| - 1], info, info'); }
  }

  /** Key `k` has a section if it has data, and then its number is the place of its data in `d`. */
  ghost predicate Placed(w: Writer, d: seq<Key>, k: Key)
    requires k in w.info && k in w.encoders
  {
    && (w.info[k].section != 0 <==> w.encoders[k].EncodesData())
    && (w.info[k].section != 0 ==> w.info[k].section <= |d| && d[w.info[k].section - 1] == k)
  }

  /** The counter is the number of sections that will be written, and the number given to a key in `set` is the place
      of its data in the sequence of sections. */
  ghost predicate Consistent(w: Writer) {
    && WellKeyed(w)
    && w.sections == |DataKeys(w.keys, w.info)|
    && forall k :: k in w.keys ==> Placed(w, DataKeys(w.keys, w.info), k)
  }

  lemma SetItemSane(w: Writer, key: Key, e: Encoder, compression: Option<Algorithm>)
    requires Sane(w)
    ensures Sane(SetItem(w, key, e, compression))
  {
    assert forall k :: k in w.keys + [key] <==> k in w.keys || k == key;
  }

  lemma SetItemDataKeys(w: Writer, key: Key, e: Encoder, compression: Option<Algorithm>)
    requires WellKeyed(w)
    ensures var w' := SetItem(w, key, e, compression);
            && WellKeyed(w')
            && DataKeys(w'.keys, w'.info) == DataKeys(w.keys, w.info) + if w'.info[key].section != 0 then [key] else []
  {
    var w' := SetItem(w, key, e, compression);
    assert w'.keys[..|w'.keys| - 1] == w.keys;
    assert forall k :: k in w'.keys <==> k in w.keys || k == key;
    DataKeysAgree(w.keys, w.info, w'.info);
  }

  /** Exactly the calls of `set` that do not change whether a key carries data keep a writer consistent. */
  lemma SetItemConsistent(w: Writer, key: Key, e: Encoder, compression: Option<Algorithm>)
    requires Consistent(w)
    ensures Consistent(SetItem(w, key, e, compression)) <==>
            (key in w.keys ==> e.EncodesData() == w.encoders[key].EncodesData())
  {
    hide DataKeys;
    var w' := SetItem(w, key, e, compression);
    SetItemDataKeys(w, key, e, compression);
    assert key in w.keys ==> Placed(w, DataKeys(w.keys, w.info), key);
    if key in w.keys ==> e.EncodesData() == w.encoders[key].EncodesData() {
      forall k | k in w'.keys && k != key ensures Placed(w', DataKeys(w'.keys, w'.info), k) {
        assert Placed(w, DataKeys(w.keys, w.info), k);
      }
    }
  }

  datatype SetCall = SetCall(key: Key, encoder: Encoder, compression: Option<Algorithm>)

  ghost function Build(calls: seq<SetCall>): (w: Writer)
    ensures Sane(w)
  {
    if calls == [] then NewWriter else
      var c, front := calls[|calls| - 1], Build(calls[..|calls| - 1]);
      SetItemSane(front, c.key, c.encoder, c.compression);
      SetItem(front, c.key, c.encoder, c.compression)
  }

  /** A key that is set again carries data again exactly if it did before. */
  ghost predicate KindStable(calls: seq<SetCall>) {
    forall i, j :: 0 <= i < j < |calls| && calls[i].key == calls[j].key ==>
      calls[i].encoder.EncodesData() == calls[j].encoder.EncodesData()
  }

  lemma {:induction false} EncoderIsSomeCall(calls: seq<SetCall>, k: Key) returns (i: nat)
    requires k in Build(calls).keys
    ensures i < |calls| && calls[i].key == k && k in Build(calls).encoders &&
            Build(calls).encoders[k] == calls[i].encoder
    decreases |calls|
  {
    var n := |calls| - 1;
    if calls[n].key == k { return n; }
    i := EncoderIsSomeCall(calls[..n], k);
  }

  /** Distinct keys, or repeated ones that stay of one kind, make a consistent writer. */
  lemma {:induction false} BuildConsistent(calls: seq<SetCall>)
    requires KindStable(calls)
    ensures Consistent(Build(calls))
    decreases |calls|
  {
    if calls != [] {
      var n := |calls| - 1;
      var front, c := calls[..n], calls[n];
      BuildConsistent(front);
      SetItemConsistent(Build(front), c.key, c.encoder, c.compression);
      if c.key in Build(front).keys {
        var i := EncoderIsSomeCall(front, c.key);
        assert calls[i] == front[i];
      }
    }
  }

  // ---------------------------------------------------------------- how many sections

  ghost predicate Sets(calls: seq<SetCall>, k: Key) { exists i :: 0 <= i < |calls| && calls[i].key == k }

  /** Whether the first `set` of a key carried data. */
  ghost predicate StartsWithData(calls: seq<SetCall>, k: Key) {
    calls != [] &&
    var c, front := calls[|calls| - 1], calls[..|calls| - 1];
    if Sets(front, k) then StartsWithData(front, k) else c.key == k && c.encoder.EncodesData()
  }

  /** The calls that carry data: so many index entries are made. */
  ghost function Announced(calls: seq<SetCall>): nat {
    if calls == [] then 0 else
      Announced(calls[..|calls| - 1]) + if calls[|calls| - 1].encoder.EncodesData() then 1 else 0
  }

  /** The calls for keys that carried data at first: so many data sections are written. */
  ghost function Produced(calls: seq<SetCall>): nat {
    if calls == [] then 0 else
      Produced(calls[..|calls| - 1]) + if StartsWithData(calls, calls[|calls| - 1].key) then 1 else 0
  }

  /** The counter of the writer and the number of its data keys, read off the calls. */
  lemma {:induction false} Counts(calls: seq<SetCall>)
    ensures var w := Build(calls);
            && w.sections == Announced(calls) && |DataKeys(w.keys, w.info)| == Produced(calls)
            && (forall k :: k in w.keys <==> Sets(calls, k))
            && (forall k :: k in w.info ==> (w.info[k].section != 0 <==> StartsWithData(calls, k)))
    decreases |calls|
  {
    hide DataKeys;
    if calls == [] {
      NothingBuilt();
    } else {
      var n := |calls| - 1;
      var c, front := calls[n], calls[..n];
      Counts(front);
      SetItemDataKeys(Build(front), c.key, c.encoder, c.compression);
      forall k ensures Sets(calls, k) <==> Sets(front, k) || k == c.key { SetsStep(calls, k); }
      assert calls[n].key == c.key;
    }
  }

  /** The counter rises with every call that carries data, and the data keys with every call for a key that has a
      section. */
  lemma CountsStep(calls: seq<SetCall>, c: SetCall)
    ensures var w, w' := Build(calls), Build(calls + [c]);
            && w' == SetItem(w, c.key, c.encoder, c.compression)
            && DataKeys(w'.keys, w'.info) ==
               DataKeys(w.keys, w.info) + if w'.info[c.key].section != 0 then [c.key] else []
  {
    hide DataKeys;
    assert (calls + [c])[..|calls|] == calls;
    SetItemDataKeys(Build(calls), c.key, c.encoder, c.compression);
  }

  lemma SetsStep(calls: seq<SetCall>, k: Key)
    requires calls != []
    ensures Sets(calls, k) <==> Sets(calls[..|calls| - 1], k) || k == calls[|calls| - 1].key
  {
    var n := |calls| - 1;
    if i :| 0 <= i < n && calls[i].key == k { assert calls[..n][i].key == k; }
  }

  lemma CountsGrow(calls: seq<SetCall>, c: SetCall)
    ensures Announced(calls + [c]) == Announced(calls) + if c.encoder.EncodesData() then 1 else 0
    ensures Produced(calls + [c]) == Produced(calls) + if StartsWithData(calls + [c], c.key) then 1 else 0
    ensures Sets(calls + [c], c.key)
    ensures StartsWithData(calls + [c], c.key) <==>
              if Sets(calls, c.key) then StartsWithData(calls, c.key) else c.encoder.EncodesData()
  {
    assert (calls + [c])[..|calls|] == calls && (calls + [c])[|calls|] == c;
  }

  /** Two calls for one key. */
  lemma SetTwice(a: SetCall, b: SetCall)
    requires a.key == b.key
    ensures Announced([a, b]) == (if a.encoder.EncodesData() then 1 else 0) + if b.encoder.EncodesData() then 1 else 0
    ensures Produced([a, b]) == if a.encoder.EncodesData() then 2 else 0
  {
    CountsGrow([], a);
    CountsGrow([a], b);
    assert [] + [a] == [a] && [a] + [b] == [a, b];
  }

  /** Set without data and then with data, a key leaves an index entry without a section. */
  lemma DataAddedLater(k: Key, meta: Meta)
    ensures var calls := [SetCall(k, Encoder(meta, 0, []), None), SetCall(k, Encoder(meta, 1, "x"), None)];
            Announced(calls) == 1 && Produced(calls) == 0
  {
    SetTwice(SetCall(k, Encoder(meta, 0, []), None), SetCall(k, Encoder(meta, 1, "x"), None));
  }

  /** Set with data and then without, a key has two sections for one index entry. */
  lemma DataDroppedLater(k: Key, meta: Meta)
    ensures var calls := [SetCall(k, Encoder(meta, 1, "x"), None), SetCall(k, Encoder(meta, 0, []), None)];
            Announced(calls) == 1 && Produced(calls) == 2
  {
    SetTwice(SetCall(k, Encoder(meta, 1, "x"), None), SetCall(k, Encoder(meta, 0, []), None));
  }

  /** The counts can agree again and still lead a key to the data of another: here `k` to the data of `m`. */
  lemma DataMisplaced(j: Key, k: Key, m: Key, no: Encoder, yes: Encoder) returns (calls: seq<SetCall>)
    requires j != k && k != m && m != j && !no.EncodesData() && yes.EncodesData()
    ensures var w := Build(calls);
            var d := DataKeys(w.keys, w.info);
            && |d| == w.sections && k in w.keys && w.info[k].section != 0 && w.encoders[k].EncodesData()
            && d[w.info[k].section - 1] == m
  {
    hide DataKeys, Build;
    NothingBuilt();
    CountsStep([], SetCall(j, no, None));
    var c1 := [] + [SetCall(j, no, None)];
    CountsStep(c1, SetCall(j, yes, None));
    var c2 := c1 + [SetCall(j, yes, None)];
    CountsStep(c2, SetCall(k, yes, None));
    var c3 := c2 + [SetCall(k, yes, None)];
    CountsStep(c3, SetCall(m, yes, None));
    var c4 := c3 + [SetCall(m, yes, None)];
    CountsStep(c4, SetCall(m, no, None));
    calls := c4 + [SetCall(m, no, None)];
  }

  lemma NothingBuilt()
    ensures Build([]) == NewWriter && DataKeys([], map[]) == []
  {
  }

  // ---------------------------------------------------------------- layout

  function Items(w: Writer): map<Key, ItemMeta>
    requires WellKeyed(w)
  {
    map k | k in w.keys :: ItemMeta(w.encoders[k].meta, w.info[k].section, w.info[k].compression)
  }

  /** The bytes between the markers of a data section; empty data is not compressed. */
  function Payload(env: Env, w: Writer, k: Key): Bytes
    requires k in w.encoders && k in w.info
  {
    var data := w.encoders[k].data;
    if data == [] || w.info[k].compression.None? then data else env.compress(w.info[k].compression.value, data)
  }

  ghost function Payloads(env: Env, w: Writer): seq<Bytes>
    requires WellKeyed(w)
  {
    PayloadsOf(env, w, DataKeys(w.keys, w.info))
  }

  ghost function PayloadsOf(env: Env, w: Writer, d: seq<Key>): (ps: seq<Bytes>)
    requires forall k :: k in d ==> k in w.encoders && k in w.info
    ensures |ps| == |d|
  {
    seq(|d|, i requires 0 <= i < |d| => Payload(env, w, d[i]))
  }

  /** What `estimateMaximumSize` sets aside for the data of a key: with compression a fifth more than reported, at
      least 10 KB. */
  function Allowance(w: Writer, k: Key): nat
    requires k in w.encoders && k in w.info
  {
    var size := w.encoders[k].size;
    if w.info[k].compression.None? then size
    else if size * 12 / 10 < 10 * 1024 then 10 * 1024 else size * 12 / 10
  }

  lemma AllowanceIs(w: Writer, k: Key)
    requires k in w.encoders && k in w.info
    ensures w.info[k].compression.None? ==> Allowance(w, k) == w.encoders[k].size
    ensures w.info[k].compression.Some? ==> Allowance(w, k) == Max(10240, w.encoders[k].size * 12 / 10)
  {
  }

  lemma {:induction false} DataKeysIn(keys: seq<Key>, info: map<Key, DataInfo>)
    requires forall k :: k in keys ==> k in info
    ensures forall k :: k in DataKeys(keys, info) <==> k in keys && info[k].section != 0
  {
    if keys != [] {
      var n := |keys| - 1;
      DataKeysIn(keys[..n], info);
      assert forall k :: k in keys <==> k in keys[..n] || k == keys[n];
    }
  }

  function Checksum(env: Env, on: bool, b: Bytes): Bytes { if on then env.digest(b) else NO_CHECKSUM }

  /** What goes into a record: the metadata, the number of index entries, and the payloads of the data sections. */
  datatype Content = Content(text: Bytes, entries: nat, payloads: seq<Bytes>)

  ghost function ContentOf(env: Env, w: Writer): Content
    requires WellKeyed(w)
  {
    Content(env.render(Items(w)), w.sections, Payloads(env, w))
  }

  /** Where the data sections start. */
  ghost function DataOffset(c: Content): nat {
    HEAD_SIZE + |c.text| + ENTRY_SIZE * c.entries + 4 * MARKER_SIZE
  }

  ghost function EntryOf(env: Env, on: bool, c: Content, i: nat): Entry
    requires i < |c.payloads|
  {
    var p := c.payloads[i];
    Entry(DataOffset(c) + |SectionsBytes(c.payloads[..i])|, |p| + 2 * MARKER_SIZE, Checksum(env, on, p))
  }

  /** The index: an entry for each data section, the rest left blank. */
  ghost function Index(env: Env, on: bool, c: Content): (es: seq<Entry>)
    ensures |es| == c.entries
    ensures forall i :: 0 <= i < |es| ==> es[i] == if i < |c.payloads| then EntryOf(env, on, c, i) else BlankEntry()
  {
    seq(c.entries, i requires 0 <= i < c.entries => if i < |c.payloads| then EntryOf(env, on, c, i) else BlankEntry())
  }

  ghost function RecordLength(c: Content): nat {
    DataOffset(c) + |SectionsBytes(c.payloads)| + MARKER_SIZE
  }

  ghost function HeadOf(env: Env, on: bool, c: Content, time: Bytes): Head {
    Head(RECORD_BEGIN, 0, 2, time, RecordLength(c), YAML,
         HEAD_SIZE, |c.text| + 2 * MARKER_SIZE, Checksum(env, on, c.text),
         HEAD_SIZE + |c.text| + 2 * MARKER_SIZE, ENTRY_SIZE * c.entries + 2 * MARKER_SIZE, NATIVE)
  }

  /** Everything up to the index entries, and everything from their end to the data sections. */
  ghost function BeforeIndex(head: Bytes, text: Bytes): Bytes {
    head + MetadataBegin() + text + MetadataEnd() + IndexBegin()
  }

  ghost function Framed(head: Bytes, text: Bytes, index: Bytes, sections: Bytes): Bytes {
    BeforeIndex(head, text) + index + (IndexEnd() + (sections + RecordEnd()))
  }

  /** A record: head, metadata, index, data sections, end marker, without gap or overlap. */
  ghost function RecordBytes(env: Env, on: bool, c: Content, time: Bytes): Bytes
    requires Sound(env) && |time| == 16
  {
    Framed(HeadBytes(HeadOf(env, on, c, time)), c.text, IndexBytes(Index(env, on, c)), SectionsBytes(c.payloads))
  }

  lemma RecordBytesLength(env: Env, on: bool, c: Content, time: Bytes)
    requires Sound(env) && |time| == 16
    ensures |RecordBytes(env, on, c, time)| == RecordLength(c)
  {
  }

  // ---------------------------------------------------------------- writing

  /** An index of which the first `i` entries have been written for good. */
  ghost function Patched(es: seq<Entry>, i: nat): (r: seq<Entry>)
    requires GoodEntries(es) && i <= |es|
    ensures |r| == |es| && GoodEntries(r)
    ensures forall k :: 0 <= k < |r| ==> r[k] == if k < i then es[k] else BlankEntry()
  {
    var blank := BlankEntry();
    var r := seq(|es|, k requires 0 <= k < |es| => if k < i then es[k] else blank);
    assert forall k :: 0 <= k < |r| ==> |r[k].checksum| == 64;
    r
  }

  lemma {:induction false} IndexSplit(es: seq<Entry>, i: nat)
    requires GoodEntries(es) && i < |es|
    ensures IndexBytes(es) == IndexBytes(es[..i]) + EntryBytes(es[i]) + IndexBytes(es[i + 1..])
  {
    if i > 0 {
      hide EntryBytes;
      IndexSplit(es[1..], i - 1);
      assert es[1..][..i - 1] == es[..i][1..] && es[1..][i..] == es[i + 1..];
      var a, b, c, d := EntryBytes(es[0]), IndexBytes(es[..i][1..]), EntryBytes(es[i]), IndexBytes(es[i + 1..]);
      assert IndexBytes(es) == a + (b + c + d) && IndexBytes(es[..i]) == a + b;
      assert a + (b + c + d) == (a + b) + c + d;
    } else {
      assert es[..0] == [] && [] + EntryBytes(es[0]) == EntryBytes(es[0]);
    }
  }

  /** Writing entry `i` over the index turns it from blank into the final one. */
  lemma PatchEntry(es: seq<Entry>, i: nat, a: Bytes, z: Bytes)
    requires GoodEntries(es) && i < |es|
    ensures var w, k := a + IndexBytes(Patched(es, i)) + z, |a| + ENTRY_SIZE * i;
            && k + ENTRY_SIZE <= |w|
            && w[..k] + EntryBytes(es[i]) + w[k + ENTRY_SIZE..] == a + IndexBytes(Patched(es, i + 1)) + z
  {
    hide IndexBytes, EntryBytes, Patched;
    var p, p' := Patched(es, i), Patched(es, i + 1);
    PatchedAgree(es, i);
    IndexSplit(p, i);
    IndexSplit(p', i);
    var f, b := IndexBytes(p[..i]), IndexBytes(p[i + 1..]);
    Replace(a, IndexBytes(p), IndexBytes(p'), z, f, EntryBytes(p[i]), EntryBytes(es[i]), b);
  }

  lemma PatchedAgree(es: seq<Entry>, i: nat)
    requires GoodEntries(es) && i < |es|
    ensures var p, p' := Patched(es, i), Patched(es, i + 1);
            p[..i] == p'[..i] && p[i + 1..] == p'[i + 1..] && p'[i] == es[i]
  {
  }

  /** Writing `y` over `x` in the middle of some bytes. */
  lemma Replace(a: Bytes, old_: Bytes, new_: Bytes, z: Bytes, front: Bytes, x: Bytes, y: Bytes, back: Bytes)
    requires |x| == |y| && old_ == front + x + back && new_ == front + y + back
    ensures var w, k := a + old_ + z, |a| + |front|;
            k + |y| <= |w| && w[..k] + y + w[k + |y|..] == a + new_ + z
  {
    var w, k := a + old_ + z, |a| + |front|;
    assert w[..k] == a + front;
    assert w[k + |y|..] == back + z;
  }

  class RecordWriter {
    var keys: seq<Key>
    var encoders: map<Key, Encoder>
    var info: map<Key, DataInfo>
    var sections: nat
    var doChecksum: bool

    function State(): Writer
      reads this
    {
      Writer(keys, encoders, info, sections)
    }

    ghost predicate Valid()
      reads this
    {
      Sane(State())
    }

    constructor (doChecksum: bool)
      ensures Valid() && State() == NewWriter && this.doChecksum == doChecksum
    {
      keys, encoders, info, sections := [], map[], map[], 0;
      this.doChecksum := doChecksum;
    }

    method Set(key: Key, encoder: Encoder, compression: Option<Algorithm>)
      requires Valid()
      modifies this
      ensures Valid() && State() == SetItem(old(State()), key, encoder, compression) && doChecksum == old(doChecksum)
    {
      SetItemSane(State(), key, encoder, compression);
      hide Sane;
      var i := DataInfo(0, None);
      if encoder.EncodesData() {
        sections := sections + 1;
        i := DataInfo(sections, compression);
      }
      keys := keys + [key];
      encoders := encoders[key := encoder];
      if key !in info { info := info[key := i]; }
    }

    /** Appends to what has been written over `d0` from `begin` on. */
    method Emit(out: Stream, b: Bytes, ghost d0: Bytes, ghost begin: nat, ghost written: Bytes)
      requires begin <= |d0| && out.data == Overwrite(d0, begin, written) && out.pos == begin + |written|
      modifies out
      ensures out.data == Overwrite(d0, begin, written + b) && out.pos == begin + |written + b|
    {
      OverwriteAppend(d0, begin, written, b);
      out.Write(b);
    }

    /** One data section: its index entry and its bytes. */
    method WriteSection(env: Env, out: Stream, key: Key, begin: nat, ghost d0: Bytes, ghost before: Bytes)
      returns (entry: Entry)
      requires key in encoders && key in info
      requires begin <= |d0| && out.data == Overwrite(d0, begin, before) && out.pos == begin + |before|
      modifies out
      ensures var p := Payload(env, State(), key);
              && entry == Entry(|before|, |p| + 2 * MARKER_SIZE, Checksum(env, doChecksum, p))
              && out.data == Overwrite(d0, begin, before + SectionBytes(p)) &&
                 out.pos == begin + |before + SectionBytes(p)|
    {
      hide Overwrite;
      var data := encoders[key].data;
      if data != [] && info[key].compression.Some? {
        data := env.compress(info[key].compression.value, data);
      }
      var offset := out.pos - begin;
      Emit(out, DataBegin(), d0, begin, before);
      Emit(out, data, d0, begin, before + DataBegin());
      Emit(out, DataEnd(), d0, begin, before + DataBegin() + data);
      assert before + DataBegin() + data + DataEnd() == before + SectionBytes(data);
      entry := Entry(offset, out.pos - begin - offset, Checksum(env, doChecksum, data));
    }

    /** The data sections, one per key with a section number, and the index that describes them. Fails where it would
        leave the index, after as many sections as the index has entries. */
    method WriteSections(env: Env, out: Stream, begin: nat, ghost d0: Bytes, ghost before: Bytes, ghost text: Bytes)
      returns (ok: bool, index: seq<Entry>)
      requires Valid()
      requires begin <= |d0| && out.data == Overwrite(d0, begin, before) && out.pos == begin + |before|
      requires |before| == DataOffset(Content(text, sections, Payloads(env, State())))
      modifies out
      ensures ok <==> |DataKeys(keys, info)| <= sections
      ensures var c := Content(text, sections, Payloads(env, State()));
              var all := before + SectionsBytes(if ok then c.payloads else c.payloads[..sections]);
              && out.data == Overwrite(d0, begin, all) && out.pos == begin + |all|
              && (ok ==> index == Index(env, doChecksum, c))
    {
      hide Overwrite, SectionsBytes, SectionBytes, DataKeys;
      ghost var c := Content(text, sections, Payloads(env, State()));
      ghost var ps := c.payloads;
      index := seq(sections, _ => BlankEntry());
      var i := 0;
      NoSections();
      assert ps[..0] == [] && before + [] == before;
      for n := 0 to |keys|
        invariant 0 <= i <= |ps| && i <= sections && DataKeys(keys[..n], info) == DataKeys(keys, info)[..i]
        invariant Written(out, d0, begin, before + SectionsBytes(ps[..i]))
        invariant |index| == sections
        invariant forall k :: 0 <= k < sections ==>
                  index[k] == if k < i then Index(env, doChecksum, c)[k] else BlankEntry()
      {
        var key := keys[n];
        DataKeysStep(keys, info, n);
        if info[key].section != 0 {
          if i == sections { return false, index; }
          assert Payload(env, State(), key) == ps[i];
          var entry := WriteSection(env, out, key, begin, d0, before + SectionsBytes(ps[..i]));
          index := index[i := entry];
          OneMoreSection(before, ps, i);
          i := i + 1;
        }
      }
      assert keys[..|keys|] == keys;
      assert i == |ps| && ps[..|ps|] == ps;
      assert index == Index(env, doChecksum, c);
      return true, index;
    }

    /** What has been written over `d0` from `begin` on is `w`. */
    ghost predicate Written(out: Stream, d0: Bytes, begin: nat, w: Bytes)
      requires begin <= |d0|
      reads out
    {
      out.data == Overwrite(d0, begin, w) && out.pos == begin + |w|
    }

    /** `estimateMaximumSize`: exact if nothing is compressed and encoders report the size of their data; never too
        small if no data that is compressed outgrows a fifth more than reported, or 10 KB if that is more. */
    method EstimateMaximumSize(env: Env) returns (size: nat)
      requires Valid()
      ensures (forall k :: k in keys && info[k].section != 0 ==>
                 info[k].compression.None? && encoders[k].size == |encoders[k].data|) ==>
                size == RecordLength(ContentOf(env, State()))
      ensures var c, d := ContentOf(env, State()), DataKeys(keys, info);
              (forall i :: 0 <= i < |d| ==>
                 |c.payloads[i]| <= if info[d[i]].compression.None? then encoders[d[i]].size
                                    else Max(10240, encoders[d[i]].size * 12 / 10)) ==>
                size >= RecordLength(c)
      ensures var c, d := ContentOf(env, State()), DataKeys(keys, info);
              (forall i :: 0 <= i < |d| ==>
                 |c.payloads[i]| == if info[d[i]].compression.None? then encoders[d[i]].size
                                    else Max(10240, encoders[d[i]].size * 12 / 10)) ==>
                size == RecordLength(c)
    {
      size := Estimate(env);
      ghost var d := DataKeys(keys, info);
      DataKeysIn(keys, info);
      forall i | 0 <= i < |d|
        ensures info[d[i]].compression.None? ==> Allowance(State(), d[i]) == encoders[d[i]].size
        ensures info[d[i]].compression.Some? ==> Allowance(State(), d[i]) == Max(10240, encoders[d[i]].size * 12 / 10)
      {
        AllowanceIs(State(), d[i]);
      }
      hide DataKeys, Allowance, RecordLength;
    }

    /** The sum, term by term. */
    method Estimate(env: Env) returns (size: nat)
      requires Valid()
      ensures var c, d := ContentOf(env, State()), DataKeys(keys, info);
              && ((forall i :: 0 <= i < |d| ==> |c.payloads[i]| == Allowance(State(), d[i])) ==>
                    size == RecordLength(c))
              && ((forall i :: 0 <= i < |d| ==> |c.payloads[i]| <= Allowance(State(), d[i])) ==>
                    size >= RecordLength(c))
    {
      hide SectionsBytes, SectionBytes, DataKeys, Allowance;
      ghost var ps, d := Payloads(env, State()), DataKeys(keys, info);
      size := HEAD_SIZE;
      var text := env.render(Items(State()));
      size := size + MARKER_SIZE + |text| + MARKER_SIZE;
      size := size + MARKER_SIZE + sections * ENTRY_SIZE + MARKER_SIZE;
      ghost var base, i := size, 0;
      NoSections();
      assert ps[..0] == [];
      for n := 0 to |keys|
        invariant 0 <= i <= |ps| && DataKeys(keys[..n], info) == d[..i]
        invariant (forall j :: 0 <= j < |d| ==> |ps[j]| == Allowance(State(), d[j])) ==>
                  size == base + |SectionsBytes(ps[..i])|
        invariant (forall j :: 0 <= j < |d| ==> |ps[j]| <= Allowance(State(), d[j])) ==>
                  size >= base + |SectionsBytes(ps[..i])|
      {
        var key := keys[n];
        DataKeysStep(keys, info, n);
        if info[key].section != 0 {
          size := size + MARKER_SIZE + Allowance(State(), key) + MARKER_SIZE;
          SectionsAppend(ps[..i], ps[i]);
          assert ps[..i + 1] == ps[..i] + [ps[i]];
          i := i + 1;
        }
      }
      assert keys[..|keys|] == keys;
      assert i == |ps| && ps[..|ps|] == ps;
      size := size + MARKER_SIZE;
    }

    /** Head, metadata and index, the head and the index entries still blank. */
    method WriteFront(env: Env, out: Stream, text: Bytes, blank: Head)
      returns (metadataLength: nat, indexOffset: nat, indexLength: nat)
      requires |blank.begin| == 8 && |blank.time| == 16 && |blank.format| == 8 && |blank.metadataChecksum| == 64
      requires out.pos <= |out.data|
      modifies out
      ensures GoodEntries(Blanks(sections))
      ensures var w := BeforeIndex(HeadBytes(blank), text) + IndexBytes(Blanks(sections)) + IndexEnd();
              out.data == Overwrite(old(out.data), old(out.pos), w) && out.pos == old(out.pos) + |w|
      ensures metadataLength == |text| + 2 * MARKER_SIZE && indexOffset == HEAD_SIZE + metadataLength
      ensures indexLength == ENTRY_SIZE * sections + 2 * MARKER_SIZE
    {
      hide Overwrite, IndexBytes, HeadBytes, MetadataBegin, MetadataEnd, IndexBegin, IndexEnd, EntryBytes;
      ghost var d0 := out.data;
      var begin := out.pos;
      NothingWritten(d0, begin);
      Emit(out, HeadBytes(blank), d0, begin, []);
      ghost var w := HeadBytes(blank);
      assert [] + w == w;
      var metadataOffset := out.pos - begin;
      Emit(out, MetadataBegin(), d0, begin, w);
      Emit(out, text, d0, begin, w + MetadataBegin());
      Emit(out, MetadataEnd(), d0, begin, w + MetadataBegin() + text);
      metadataLength := out.pos - begin - metadataOffset;
      indexOffset := out.pos - begin;
      w := w + MetadataBegin() + text + MetadataEnd();
      Emit(out, IndexBegin(), d0, begin, w);
      w := w + IndexBegin();
      assert w + IndexBytes(Blanks(0)) == w;
      for i := 0 to sections
        invariant out.data == Overwrite(d0, begin, w + IndexBytes(Blanks(i))) &&
                  out.pos == begin + |w + IndexBytes(Blanks(i))|
      {
        Emit(out, EntryBytes(BlankEntry()), d0, begin, w + IndexBytes(Blanks(i)));
        IndexAppend(Blanks(i), BlankEntry());
        assert Blanks(i + 1) == Blanks(i) + [BlankEntry()];
        assert w + IndexBytes(Blanks(i)) + EntryBytes(BlankEntry()) == w + IndexBytes(Blanks(i + 1));
      }
      w := w + IndexBytes(Blanks(sections));
      Emit(out, IndexEnd(), d0, begin, w);
      indexLength := out.pos - begin - indexOffset;
    }

    /** Goes back to fill in the head and the index, then to the end of the record. */
    method Patch(out: Stream, begin: nat, head: Head, index: seq<Entry>, indexOffset: nat,
                 ghost d0: Bytes, ghost blank: Bytes, ghost text: Bytes, ghost body: Bytes)
      requires |head.begin| == 8 && |head.time| == 16 && |head.format| == 8 && |head.metadataChecksum| == 64
      requires GoodEntries(index) && begin <= |d0| && |blank| == HEAD_SIZE
      requires out.data == Overwrite(d0, begin, Framed(blank, text, IndexBytes(Blanks(|index|)), body))
      requires out.pos == begin + |Framed(blank, text, IndexBytes(Blanks(|index|)), body)|
      requires indexOffset == HEAD_SIZE + |text| + 2 * MARKER_SIZE
      modifies out
      ensures out.data == Overwrite(d0, begin, Framed(HeadBytes(head), text, IndexBytes(index), body))
      ensures out.pos == old(out.pos)
    {
      hide Overwrite, IndexBytes, HeadBytes, MetadataBegin, MetadataEnd, IndexBegin, IndexEnd, EntryBytes, RecordEnd;
      var end := out.pos;
      ghost var z := IndexEnd() + (body + RecordEnd());
      ghost var w := Framed(blank, text, IndexBytes(Blanks(|index|)), body);
      out.Seek(begin);
      OverwritePatch(d0, begin, w, 0, HeadBytes(head));
      out.Write(HeadBytes(head));
      assert Patched(index, 0) == Blanks(|index|);
      PatchHead(blank, HeadBytes(head), text, IndexBytes(Blanks(|index|)), body);
      ghost var a := BeforeIndex(HeadBytes(head), text);
      out.Seek(begin + indexOffset + MARKER_SIZE);
      for i := 0 to |index|
        invariant out.data == Overwrite(d0, begin, a + IndexBytes(Patched(index, i)) + z)
        invariant out.pos == begin + |a| + ENTRY_SIZE * i
      {
        PatchEntry(index, i, a, z);
        OverwritePatch(d0, begin, a + IndexBytes(Patched(index, i)) + z, |a| + ENTRY_SIZE * i, EntryBytes(index[i]));
        out.Write(EntryBytes(index[i]));
      }
      assert Patched(index, |index|) == index;
      out.Seek(end);
    }

    /** Writes the record over the stream from its position on and leaves the stream behind it. Fails when there are
        more data sections than index entries, which the source does not notice: it writes past the end of its index. */
    method Write(env: Env, out: Stream, time: Bytes) returns (length: Option<nat>)
      requires Valid() && Sound(env) && |time| == 16 && out.pos <= |out.data|
      modifies out
      ensures length.Some? <==> |DataKeys(keys, info)| <= sections
      ensures length.Some? ==>
                var record := RecordBytes(env, doChecksum, ContentOf(env, State()), time);
                && length.value == |record| && out.pos == old(out.pos) + |record|
                && out.data == Overwrite(old(out.data), old(out.pos), record)
      ensures length.None? ==> old(out.data)[..old(out.pos)] <= out.data
    {
      hide Overwrite, IndexBytes, HeadBytes, EntryBytes, SectionsBytes, DataKeys, Index, WellKeyed;
      hide MetadataBegin, MetadataEnd, IndexBegin, IndexEnd, RecordEnd;
      ghost var d0, ps := out.data, Payloads(env, State());
      var begin := out.pos;
      var text := env.render(Items(State()));
      var blank := Head(RECORD_BEGIN, 0, 2, Repeat('\0', 16), 0, YAML, HEAD_SIZE, 0, Repeat('\0', 64), 0, 0, NATIVE);
      var metadataLength, indexOffset, indexLength := WriteFront(env, out, text, blank);
      ghost var w := BeforeIndex(HeadBytes(blank), text) + IndexBytes(Blanks(sections)) + IndexEnd();
      var ok, index := WriteSections(env, out, begin, d0, w, text);
      if !ok {
        OverwriteKeeps(d0, begin, w + SectionsBytes(ps[..sections]));
        return None;
      }
      Emit(out, RecordEnd(), d0, begin, w + SectionsBytes(ps));
      length := Some(out.pos - begin);
      var head := Head(RECORD_BEGIN, 0, 2, time, length.value, YAML, HEAD_SIZE, metadataLength,
                       Checksum(env, doChecksum, text), indexOffset, indexLength, NATIVE);
      assert w + SectionsBytes(ps) + RecordEnd() ==
             Framed(HeadBytes(blank), text, IndexBytes(Blanks(sections)), SectionsBytes(ps));
      Patch(out, begin, head, index, indexOffset, d0, HeadBytes(blank), text, SectionsBytes(ps));
    }
  }

  lemma OneMoreSection(before: Bytes, ps: seq<Bytes>, i: nat)
    requires i < |ps|
    ensures before + SectionsBytes(ps[..i]) + SectionBytes(ps[i]) == before + SectionsBytes(ps[..i + 1])
  {
    hide SectionsBytes, SectionBytes;
    SectionsAppend(ps[..i], ps[i]);
    assert ps[..i + 1] == ps[..i] + [ps[i]];
  }

  ghost function Blanks(n: nat): (es: seq<Entry>)
    ensures |es| == n && GoodEntries(es)
  {
    seq(n, _ => BlankEntry())
  }

  lemma NothingWritten(d: Bytes, pos: nat)
    requires pos <= |d|
    ensures Overwrite(d, pos, []) == d
  {
  }

  lemma PatchHead(head: Bytes, head': Bytes, text: Bytes, index: Bytes, sections: Bytes)
    requires |head| == |head'|
    ensures var w := Framed(head, text, index, sections);
            w[..0] + head' + w[|head'|..] == Framed(head', text, index, sections)
  {
  }

  lemma NoSections()
    ensures SectionsBytes([]) == [] && forall info :: DataKeys([], info) == []
  {
  }

  /** The first `n` keys contribute a prefix of the sections, and key `n` the next one if it has data. */
  lemma {:induction false} DataKeysStep(keys: seq<Key>, info: map<Key, DataInfo>, n: nat)
    requires n < |keys| && forall k :: k in keys ==> k in info
    ensures var d, p := DataKeys(keys, info), DataKeys(keys[..n], info);
            && |p| <= |d| && d[..|p|] == p
            && (if info[keys[n]].section == 0 then DataKeys(keys[..n + 1], info) == p
                else |p| < |d| && d[|p|] == keys[n] && DataKeys(keys[..n + 1], info) == d[..|p| + 1])
    decreases |keys|
  {
    var front := keys[..|keys| - 1];
    assert keys[..n + 1][..n] == keys[..n];
    if n < |front| {
      DataKeysStep(front, info, n);
      assert front[..n] == keys[..n] && front[..n + 1] == keys[..n + 1];
    } else {
      assert keys[..n] == front && keys[..n + 1] == keys;
    }
  }
}