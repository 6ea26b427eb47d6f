/**
 Byte strings, little-endian integers and the seekable stream that records are written to
 (src/eckit/codec/Stream.cc).
 */
module ByteStreams {
  import opened Common

  /** A byte is a `char` below 256. */
  type Bytes = seq<char>

  // ---------------------------------------------------------------- integers

  /** The `width` bytes of an unsigned integer in memory. */
  function Little(n: nat, width: nat): (b: Bytes)
    ensures |b| == width
  {
    if width == 0 then [] else [(n % 256) as char] + Little(n / 256, width - 1)
  }

  function FromLittle(b: Bytes): nat {
    if b == [] then 0 else b[0] as int + 256 * FromLittle(b[1..])
  }

  function Values(width: nat): nat { if width == 0 then 1 else 256 * Values(width - 1) }

  lemma {:induction false} LittleRoundTrip(n: nat, width: nat)
    requires n < Values(width)
    ensures FromLittle(Little(n, width)) == n
  {
    if width > 0 {
      LittleRoundTrip(n / 256, width - 1);
      assert Little(n, width)[1..] == Little(n / 256, width - 1);
    }
  }

  const U32 := 0x1_0000_0000
  const U64 := 0x1_0000_0000_0000_0000

  lemma WordSizes()
    ensures Values(4) == U32 && Values(8) == U64
  {
  }

  // ---------------------------------------------------------------- positions

  /** The bytes of `data` from `o` on, at most `n` of them. */
  function Slice(data: Bytes, o: nat, n: nat): Bytes {
    if o >= |data| then [] else data[o..Min(o + n, |data|)]
  }

  ghost predicate At(data: Bytes, o: nat, chunk: Bytes) {
    o + |chunk| <= |data| && data[o..o + |chunk|] == chunk
  }

  lemma AtSplit(data: Bytes, o: nat, a: Bytes, b: Bytes)
    ensures At(data, o, a + b) <==> At(data, o, a) && At(data, o + |a|, b)
  {
    if o + |a| + |b| <= |data| {
      assert data[o..o + |a| + |b|] == data[o..o + |a|] + data[o + |a|..o + |a| + |b|];
      if At(data, o, a + b) {
        assert data[o..o + |a|] == (a + b)[..|a|] == a;
        assert data[o + |a|..o + |a| + |b|] == (a + b)[|a|..] == b;
      }
    }
  }

  lemma AtSlice(data: Bytes, o: nat, chunk: Bytes)
    requires At(data, o, chunk)
    ensures Slice(data, o, |chunk|) == chunk
  {
  }

  lemma AtExtend(data: Bytes, more: Bytes, o: nat, chunk: Bytes)
    requires At(data, o, chunk)
    ensures At(data + more, o, chunk)
  {
  }

  /** `b` written over `data` from `pos` on. */
  function Overwrite(data: Bytes, pos: nat, b: Bytes): Bytes
    requires pos <= |data|
  {
    data[..pos] + b + if pos + |b| <= |data| then data[pos + |b|..] else []
  }

  lemma OverwriteAppend(data: Bytes, pos: nat, w: Bytes, b: Bytes)
    requires pos <= |data|
    ensures pos + |w| <= |Overwrite(data, pos, w)|
    ensures Overwrite(Overwrite(data, pos, w), pos + |w|, b) == Overwrite(data, pos, w + b)
  {
  }

  lemma OverwriteKeeps(data: Bytes, pos: nat, b: Bytes)
    requires pos <= |data|
    ensures data[..pos] <= Overwrite(data, pos, b)
  {
  }

  /** Going back into what was written changes only the bytes that are written again. */
  lemma OverwritePatch(data: Bytes, pos: nat, w: Bytes, k: nat, b: Bytes)
    requires pos <= |data| && k + |b| <= |w|
    ensures pos + k <= |Overwrite(data, pos, w)|
    ensures Overwrite(Overwrite(data, pos, w), pos + k, b) == Overwrite(data, pos, w[..k] + b + w[k + |b|..])
  {
  }

  class Stream {
    var data: Bytes
    var pos: nat

    constructor (data: Bytes, pos: nat)
      ensures this.data == data && this.pos == pos
    {
      this.data, this.pos := data, pos;
    }

    method Write(b: Bytes)
      requires pos <= |data|
      modifies this
      ensures data == Overwrite(old(data), old(pos), b) && pos == old(pos) + |b| <= |data|
    {
      data := Overwrite(data, pos, b);
      pos := pos + |b|;
    }

    method Seek(offset: nat)
      modifies `pos
      ensures pos == offset
    {
      pos := offset;
    }

    method Read(n: nat) returns (b: Bytes)
      modifies `pos
      ensures b == Slice(data, old(pos), n) && pos == old(pos) + |b|
    {
      b := Slice(data, pos, n);
      pos := pos + |b|;
    }
  }
}
