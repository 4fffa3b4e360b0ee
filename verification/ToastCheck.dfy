/** The check of a value stored out of line in chunks. */
module ToastCheck {
  import opened Wrappers

  /** Bytes of a full chunk, with pages of 8192 bytes. */
  const MAX_CHUNK: nat := 1996

  /** The data of a chunk: null, of a known size with either kind of header, or with a header that a
      chunk must not have. */
  datatype ChunkData = NullData | Sized(size: nat) | Short(size: nat) | BadHeader

  type Int32 = x: int | -0x8000_0000 <= x < 0x8000_0000

  type Uint32 = x: int | 0 <= x < 0x1_0000_0000

  datatype Chunk = Chunk(number: Option<Int32>, data: ChunkData)

  function Next(number: Int32): Int32 { if number == 0x7fff_ffff then -0x8000_0000 else number + 1 }

  /** Sizes are known modulo 2^32; a size of 0 reads as 2^32. */
  function FullSize(extsize: Uint32): nat { if extsize == 0 then 0x1_0000_0000 else extsize }

  function LastChunk(extsize: Uint32): Int32 { (extsize - 1) % 0x1_0000_0000 / MAX_CHUNK }

  function ExpectedSize(extsize: Uint32, i: int): Uint32
  {
    if i < LastChunk(extsize) then MAX_CHUNK else (extsize - LastChunk(extsize) * MAX_CHUNK) % 0x1_0000_0000
  }

  /** The remaining size never wraps around. */
  lemma LastSize(extsize: Uint32)
    ensures LastChunk(extsize) == (FullSize(extsize) - 1) / MAX_CHUNK >= 0
    ensures ExpectedSize(extsize, LastChunk(extsize)) == FullSize(extsize) - LastChunk(extsize) * MAX_CHUNK
  {
    var full := FullSize(extsize);
    assert (extsize - 1) % 0x1_0000_0000 == full - 1;
    var last := LastChunk(extsize);
    assert last * MAX_CHUNK <= full - 1 < last * MAX_CHUNK + MAX_CHUNK;
    var rest := full - last * MAX_CHUNK;
    assert (extsize - last * MAX_CHUNK) % 0x1_0000_0000 == rest;
  }

  predicate HasSize(c: Chunk) { c.data.Sized? || c.data.Short? }

  function SizeOf(c: Chunk): nat { if HasSize(c) then c.data.size else 0 }

  /** Chunk `i` is what it should be. */
  predicate ChunkOk(c: Chunk, i: int, extsize: Uint32)
  {
    c.number == Some(i) && HasSize(c) && i <= LastChunk(extsize) && SizeOf(c) == ExpectedSize(extsize, i)
  }

  class ToastChecker {
    var expected: Int32
    var corrupt: bool

    /** One chunk; what is wrong is reported, and the next chunk is expected after this one. */
    method CheckTuple(c: Chunk, extsize: Uint32)
      modifies this
      ensures corrupt <==> old(corrupt) || !ChunkOk(c, old(expected), extsize)
      ensures c.number.Some? ==> expected == Next(c.number.value)
    {
      if c.number.None? {
        corrupt := true;
        return;
      }
      if c.number.value != expected {
        corrupt := true;
      }
      expected := Next(c.number.value);
      if c.data.NullData? || c.data.BadHeader? {
        corrupt := true;
        return;
      }
      if c.number.value > LastChunk(extsize) {
        corrupt := true;
        return;
      }
      if c.data.size != ExpectedSize(extsize, c.number.value) {
        corrupt := true;
      }
    }

    /** Corruption is reported if and only if the chunks are not exactly those of the value. */
    method CheckAttribute(chunks: seq<Chunk>, extsize: Uint32)
      modifies this
      ensures corrupt <==> !Complete(chunks, extsize)
    {
      expected, corrupt := 0, false;
      var i: nat := 0;
      while i < |chunks|
        invariant i <= |chunks|
        invariant !corrupt <==> forall k :: 0 <= k < i ==> ChunkOk(chunks[k], k, extsize)
        invariant !corrupt ==> expected == i
      {
        CheckTuple(chunks[i], extsize);
        i := i + 1;
      }
      assert !corrupt && i > 0 ==> ChunkOk(chunks[i - 1], i - 1, extsize);
      if |chunks| == 0 {
        corrupt := true;
      } else if expected <= LastChunk(extsize) {
        corrupt := true;
      }
      CompleteIff(chunks, extsize);
    }
  }

  function TotalSize(chunks: seq<Chunk>): nat
  {
    if chunks == [] then 0
    else TotalSize(chunks[..|chunks| - 1]) + SizeOf(chunks[|chunks| - 1])
  }

  /** The chunks are numbered from 0 to the last one in order, have valid data, all but the last are
      full, and together they have the size of the value. */
  predicate Complete(chunks: seq<Chunk>, extsize: Uint32)
  {
    && |chunks| == LastChunk(extsize) + 1
    && (forall i :: 0 <= i < |chunks| ==> chunks[i].number == Some(i) && HasSize(chunks[i]))
    && (forall i :: 0 <= i < |chunks| - 1 ==> SizeOf(chunks[i]) == MAX_CHUNK)
    && TotalSize(chunks) == FullSize(extsize)
  }

  lemma {:induction false} FullChunks(chunks: seq<Chunk>, n: nat)
    requires n <= |chunks| && forall i :: 0 <= i < n ==> SizeOf(chunks[i]) == MAX_CHUNK
    ensures TotalSize(chunks[..n]) == n * MAX_CHUNK
  {
    if n > 0 {
      FullChunks(chunks, n - 1);
      assert chunks[..n][..n - 1] == chunks[..n - 1];
    }
  }

  /** The chunk by chunk tests amount to that. */
  lemma CompleteIff(chunks: seq<Chunk>, extsize: Uint32)
    ensures Complete(chunks, extsize) <==>
      && |chunks| == LastChunk(extsize) + 1
      && forall k :: 0 <= k < |chunks| ==> ChunkOk(chunks[k], k, extsize)
  {
    var last := LastChunk(extsize);
    LastSize(extsize);
    if |chunks| == last + 1 && (forall i :: 0 <= i < |chunks| ==> chunks[i].number == Some(i) && HasSize(chunks[i])) {
      if forall i :: 0 <= i < last ==> SizeOf(chunks[i]) == MAX_CHUNK {
        FullChunks(chunks, last);
        assert TotalSize(chunks) == last * MAX_CHUNK + SizeOf(chunks[last]);
      }
    }
  }
}
