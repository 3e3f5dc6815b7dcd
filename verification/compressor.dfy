/** The Hadoop block stream that carries compressed cellblocks (region/compressor.go). */
module Compressor {
  import opened Bytes
  import opened Cellblock

  /** compression.Codec: Decode can fail; both append to a buffer and report the length of what they add. */
  datatype Codec = Codec(encode: Key -> Key, decode: Key -> Option<Key>, chunkLen: nat)

  /** Decode inverts Encode on chunks, and a compressed chunk has a length that fits its field. */
  ghost predicate Lawful(c: Codec) {
    && 0 < c.chunkLen < M32
    && forall s: Key :: |s| <= c.chunkLen ==> |c.encode(s)| < M32 && c.decode(c.encode(s)) == Some(s)
  }

  // ----- The grammar of the stream

  predicate Decodable(c: Codec, chunks: seq<Key>) {
    forall i :: 0 <= i < |chunks| ==> |chunks[i]| < M32 && c.decode(chunks[i]).Some?
  }

  function Decoded(c: Codec, chunks: seq<Key>): Key
    requires Decodable(c, chunks)
  {
    if chunks == [] then [] else assert c.decode(chunks[0]).Some?; c.decode(chunks[0]).value + Decoded(c, chunks[1..])
  }

  function PrintChunks(chunks: seq<Key>): Key {
    if chunks == [] then [] else BigEndian(|chunks[0]|, 4) + chunks[0] + PrintChunks(chunks[1..])
  }

  /** The length of a block, and its compressed chunks. */
  datatype BlockData = BlockData(total: nat, chunks: seq<Key>)

  /** The uint32 counter of decoded bytes stays below the length before each chunk, and ends on it. */
  predicate Ends(c: Codec, total: nat, soFar: nat, chunks: seq<Key>)
    requires Decodable(c, chunks)
    decreases |chunks|
  {
    if chunks == [] then soFar == total
    else
      assert c.decode(chunks[0]).Some?;
      soFar < total && Ends(c, total, Wrap(soFar + |c.decode(chunks[0]).value|), chunks[1..])
  }

  predicate BlockOk(c: Codec, d: BlockData) {
    d.total < M32 && Decodable(c, d.chunks) && Ends(c, d.total, 0, d.chunks)
  }

  predicate AllOk(c: Codec, blocks: seq<BlockData>) {
    forall i :: 0 <= i < |blocks| ==> BlockOk(c, blocks[i])
  }

  function PrintBlocks(blocks: seq<BlockData>): Key {
    if blocks == [] then []
    else BigEndian(blocks[0].total, 4) + PrintChunks(blocks[0].chunks) + PrintBlocks(blocks[1..])
  }

  function DecodedBlocks(c: Codec, blocks: seq<BlockData>): Key
    requires AllOk(c, blocks)
  {
    if blocks == [] then []
    else assert BlockOk(c, blocks[0]); Decoded(c, blocks[0].chunks) + DecodedBlocks(c, blocks[1..])
  }

  /** In a block of less than 2^32 bytes: the length is that of the data, and the last chunk is not void. */
  lemma {:induction false} EndsMeans(c: Codec, total: nat, soFar: nat, chunks: seq<Key>)
    requires Decodable(c, chunks) && soFar + |Decoded(c, chunks)| < M32
    ensures Ends(c, total, soFar, chunks) <==>
      soFar + |Decoded(c, chunks)| == total && (chunks != [] ==> c.decode(chunks[|chunks| - 1]).value != [])
    decreases |chunks|
  {
    if chunks != [] {
      var n := |c.decode(chunks[0]).value|;
      assert Wrap(soFar + n) == soFar + n;
      EndsMeans(c, total, soFar + n, chunks[1..]);
      if c.decode(chunks[|chunks| - 1]).value != [] { DecodedNonempty(c, chunks); }
    }
  }

  // ----- Compression

  /** Data cut into chunks of at most `size` bytes. */
  function Cut(size: nat, data: Key): seq<Key>
    requires size > 0
    decreases |data|
  {
    if |data| <= size then (if data == [] then [] else [data]) else [data[..size]] + Cut(size, data[size..])
  }

  function EncodeChunks(c: Codec, chunks: seq<Key>): seq<Key> {
    if chunks == [] then [] else [c.encode(chunks[0])] + EncodeChunks(c, chunks[1..])
  }

  /** net.Buffers: after a read no empty buffer is left at the front. */
  method Consume(v: seq<Key>, n: nat) returns (rest: seq<Key>)
    requires v != [] && n <= |v[0]|
    ensures v[0][..n] + Concat(rest) == Concat(v)
    ensures rest != [] ==> rest[0] != []
    ensures |rest| <= |v| && (n == 0 && v[0] == [] ==> |rest| < |v|)
  {
    if |v[0]| > n { return [v[0][n..]] + v[1..]; }
    rest := v[1..];
    while rest != [] && |rest[0]| == 0
      invariant Concat(rest) == Concat(v[1..]) && |rest| < |v|
    {
      rest := rest[1..];
    }
  }

  /** net.Buffers.Read into a buffer of `size` bytes. */
  method ReadBuffers(v: seq<Key>, size: nat) returns (p: Key, rest: seq<Key>, eof: bool)
    ensures p + Concat(rest) == Concat(v) && |p| <= size
    ensures |p| < size ==> rest == []
    ensures eof <==> rest == []
    ensures size > 0 && rest != [] ==> Concat(rest) != []
  {
    hide Concat;
    p, rest := [], v;
    while |p| < size && rest != []
      invariant |p| <= size && p + Concat(rest) == Concat(v)
      invariant p != [] && rest != [] ==> rest[0] != []
      decreases size - |p|, |rest|
    {
      var n := if |rest[0]| < size - |p| then |rest[0]| else size - |p|;
      var more := rest[0][..n];
      rest := Consume(rest, n);
      assert p + (more + Concat(rest)) == p + more + Concat(rest);
      p := p + more;
    }
    eof := rest == [];
    if rest != [] { ConcatNonempty(rest); }
  }

  lemma ConcatNonempty(v: seq<Key>)
    requires v != []
    ensures |Concat(v)| >= |v[0]|
  {
  }

  /** What the chunk buffer of `size` bytes makes of the data. */
  function CompressedChunks(c: Codec, size: nat, data: Key): Key {
    if size == 0 then [] else PrintChunks(EncodeChunks(c, Cut(size, data)))
  }

  lemma CutStep(size: nat, p: Key, rest: Key)
    requires 0 < |p| <= size && (rest != [] ==> |p| == size)
    ensures Cut(size, p + rest) == [p] + Cut(size, rest)
  {
    if rest == [] {
      assert p + rest == p && [p] + [] == [p];
    } else {
      assert (p + rest)[..size] == p && (p + rest)[size..] == rest;
    }
  }

  lemma EncodeChunksStep(c: Codec, p: Key, chunks: seq<Key>)
    ensures EncodeChunks(c, [p] + chunks) == [c.encode(p)] + EncodeChunks(c, chunks)
  {
    assert ([p] + chunks)[1..] == chunks;
  }

  lemma CompressedStep(c: Codec, size: nat, p: Key, rest: Key)
    requires 0 < |p| <= size && (rest != [] ==> |p| == size)
    ensures CompressedChunks(c, size, p + rest) ==
      BigEndian(|c.encode(p)|, 4) + c.encode(p) + CompressedChunks(c, size, rest)
  {
    hide BigEndian;
    CutStep(size, p, rest);
    EncodeChunksStep(c, p, Cut(size, rest));
    PrintChunksMore(c.encode(p), EncodeChunks(c, Cut(size, rest)));
  }

  lemma CompressedNothing(c: Codec, size: nat)
    ensures CompressedChunks(c, size, []) == []
  {
  }

  method CompressCellblocks(c: Codec, cbs: seq<Key>, uncompressedLen: nat) returns (b: Key)
    ensures b == BigEndian(uncompressedLen, 4) +
      CompressedChunks(c, if uncompressedLen < c.chunkLen then uncompressedLen else c.chunkLen, Concat(cbs))
  {
    hide BigEndian, CompressedChunks, Concat;
    b := BigEndian(uncompressedLen, 4);
    var size := if uncompressedLen < c.chunkLen then uncompressedLen else c.chunkLen;
    ghost var goal := b + CompressedChunks(c, size, Concat(cbs));
    CompressedNothing(c, size);
    var v := cbs;
    while true
      invariant goal == b + CompressedChunks(c, size, Concat(v))
      decreases |Concat(v)|
    {
      var p, rest, eof := ReadBuffers(v, size);
      if |p| == 0 {
        NothingRead(c, size, rest);
        assert p + Concat(rest) == Concat(rest) && b + [] == b;
        break;
      }
      NothingLeft();
      CompressedStep(c, size, p, Concat(rest));
      var lenOffset := |b|;
      var base := b;
      b := b + [0, 0, 0, 0];
      var chunk := c.encode(p);
      b := b + chunk;
      b := b[..lenOffset] + BigEndian(|chunk|, 4) + b[lenOffset + 4..];
      assert b == base + BigEndian(|chunk|, 4) + chunk;
      assert goal == b + CompressedChunks(c, size, Concat(rest));
      v := rest;
      if eof {
        assert b + [] == b;
        break;
      }
    }
  }

  lemma NothingLeft()
    ensures Concat([]) == []
  {
  }

  lemma NothingRead(c: Codec, size: nat, rest: seq<Key>)
    requires size > 0 ==> rest == []
    ensures CompressedChunks(c, size, Concat(rest)) == []
  {
  }

  // ----- Decompression

  datatype Failure = ShortBlockLength | ShortChunkLength | ShortChunk | BadChunk | TooLong

  datatype Decompressed = Out(bytes: Key) | Error(why: Failure)

  datatype BlockRead = Block(bytes: Key, rest: Key) | BlockError(why: Failure)

  /** The chunks of a block of `total` bytes of which `soFar` were read; the counter is a uint32. */
  function ReadBlock(c: Codec, total: nat, soFar: nat, b: Key): (r: BlockRead)
    ensures r.Block? ==> |r.rest| <= |b|
    decreases |b|
  {
    if soFar == total then Block([], b)
    else if soFar > total then BlockError(TooLong)
    else if |b| < 4 then BlockError(ShortChunkLength)
    else
      var n := Uint(b[..4]);
      if |b| - 4 < n then BlockError(ShortChunk)
      else
        var chunk := c.decode(b[4..][..n]);
        if chunk.None? then BlockError(BadChunk)
        else
          Prepend(chunk.value, ReadBlock(c, total, Wrap(soFar + |chunk.value|), b[4..][n..]))
  }

  function Prepend(bytes: Key, r: BlockRead): BlockRead {
    if r.Block? then Block(bytes + r.bytes, r.rest) else r
  }

  lemma PrependTwice(a: Key, b: Key, r: BlockRead)
    ensures Prepend(a, Prepend(b, r)) == Prepend(a + b, r)
  {
    if r.Block? { assert a + (b + r.bytes) == a + b + r.bytes; }
  }

  lemma ReadBlockTurn(c: Codec, total: nat, soFar: nat, b: Key)
    ensures soFar == total ==> ReadBlock(c, total, soFar, b) == Block([], b)
    ensures soFar > total ==> ReadBlock(c, total, soFar, b) == BlockError(TooLong)
    ensures soFar < total && |b| < 4 ==> ReadBlock(c, total, soFar, b) == BlockError(ShortChunkLength)
    ensures soFar < total && |b| >= 4 ==>
      var n := Uint(b[..4]);
      ReadBlock(c, total, soFar, b) ==
        if |b| - 4 < n then BlockError(ShortChunk)
        else
          var chunk := c.decode(b[4..][..n]);
          if chunk.None? then BlockError(BadChunk)
          else Prepend(chunk.value, ReadBlock(c, total, Wrap(soFar + |chunk.value|), b[4..][n..]))
  {
    hide Uint, Wrap;
  }

  function Decompress(c: Codec, b: Key): Decompressed
    decreases |b|
  {
    if b == [] then Out([])
    else if |b| < 4 then Error(ShortBlockLength)
    else
      var r := ReadBlock(c, Uint(b[..4]), 0, b[4..]);
      if r.BlockError? then Error(r.why)
      else
        var d := Decompress(c, r.rest);
        if d.Out? then Out(r.bytes + d.bytes) else d
  }

  method ReadN(b: Key, n: nat) returns (ok: bool, head: Key, tail: Key)
    ensures ok <==> n <= |b|
    ensures ok ==> head == b[..n] && tail == b[n..]
  {
    if |b| < n { return false, [], []; }
    return true, b[..n], b[n..];
  }

  /** The inner loop: it appends to `out`, and each turn takes at least four bytes. */
  method DecompressBlock(c: Codec, total: nat, b: Key, out: Key) returns (r: BlockRead)
    ensures r == Prepend(out, ReadBlock(c, total, 0, b))
  {
    hide Uint, Wrap, ReadBlock;
    var rest, acc, soFar: nat := b, out, 0;
    while soFar < total
      invariant Prepend(acc, ReadBlock(c, total, soFar, rest)) == Prepend(out, ReadBlock(c, total, 0, b))
      decreases |rest|
    {
      ReadBlockTurn(c, total, soFar, rest);
      var ok, head, chunk;
      ok, head, rest := ReadN(rest, 4);
      if !ok { return BlockError(ShortChunkLength); }
      ok, chunk, rest := ReadN(rest, Uint(head));
      if !ok { return BlockError(ShortChunk); }
      var d := c.decode(chunk);
      if d.None? { return BlockError(BadChunk); }
      PrependTwice(acc, d.value, ReadBlock(c, total, Wrap(soFar + |d.value|), rest));
      acc := acc + d.value;
      soFar := Wrap(soFar + |d.value|);
    }
    ReadBlockTurn(c, total, soFar, rest);
    if soFar > total { return BlockError(TooLong); }
    assert acc + [] == acc;
    return Block(acc, rest);
  }

  method DecompressCellblocks(c: Codec, b: Key) returns (r: Decompressed)
    ensures r == Decompress(c, b)
  {
    hide Uint, ReadBlock;
    var rest, out: Key := b, [];
    ghost var goal := Decompress(c, b);
    assert goal.Out? ==> goal.bytes == [] + goal.bytes;
    while |rest| > 0
      invariant var s := Decompress(c, rest);
        if goal.Out? then s.Out? && goal.bytes == out + s.bytes else s == goal
      decreases |rest|
    {
      ghost var s := Decompress(c, rest);
      var ok, head;
      ok, head, rest := ReadN(rest, 4);
      if !ok { return Error(ShortBlockLength); }
      ghost var block := ReadBlock(c, Uint(head), 0, rest);
      var d := DecompressBlock(c, Uint(head), rest, out);
      if d.BlockError? { return Error(d.why); }
      ghost var after := Decompress(c, block.rest);
      assert after.Out? ==> out + (block.bytes + after.bytes) == out + block.bytes + after.bytes;
      out, rest := d.bytes, d.rest;
    }
    assert out + [] == out;
    return Out(out);
  }

  // ----- Decompression accepts exactly the grammar, and undoes compression

  lemma PrintChunksMore(chunk: Key, chunks: seq<Key>)
    ensures PrintChunks([chunk] + chunks) == BigEndian(|chunk|, 4) + chunk + PrintChunks(chunks)
  {
    assert ([chunk] + chunks)[1..] == chunks;
  }

  lemma DecodedMore(c: Codec, chunk: Key, chunks: seq<Key>)
    requires Decodable(c, chunks) && |chunk| < M32 && c.decode(chunk).Some?
    ensures Decodable(c, [chunk] + chunks) && Decoded(c, [chunk] + chunks) == c.decode(chunk).value + Decoded(c, chunks)
  {
    assert ([chunk] + chunks)[1..] == chunks;
  }

  /** A length field and what follows it are read back. */
  lemma FieldRead(n: nat, rest: Key)
    requires n < M32
    ensures var b := BigEndian(n, 4) + rest; |b| >= 4 && Uint(b[..4]) == n && b[4..] == rest
  {
    Powers();
    UintOfBigEndian(n, 4);
    var b := BigEndian(n, 4) + rest;
    assert b[..4] == BigEndian(n, 4);
  }

  lemma {:induction false} DecodedNonempty(c: Codec, chunks: seq<Key>)
    requires Decodable(c, chunks) && chunks != [] && c.decode(chunks[|chunks| - 1]).value != []
    ensures Decoded(c, chunks) != []
  {
    if |chunks| > 1 { DecodedNonempty(c, chunks[1..]); }
  }

  /** A well-formed block is read to its end and no further. */
  lemma {:induction false} ReadsBlock(c: Codec, total: nat, soFar: nat, chunks: seq<Key>, rest: Key)
    requires Decodable(c, chunks) && Ends(c, total, soFar, chunks)
    ensures ReadBlock(c, total, soFar, PrintChunks(chunks) + rest) == Block(Decoded(c, chunks), rest)
    decreases |chunks|
  {
    hide BigEndian, Uint, ReadBlock, Wrap;
    var b := PrintChunks(chunks) + rest;
    ReadBlockTurn(c, total, soFar, b);
    if chunks == [] {
      assert b == rest;
    } else {
      var chunk, tail := chunks[0], chunks[1..];
      assert chunks == [chunk] + tail;
      PrintChunksMore(chunk, tail);
      assert b == BigEndian(|chunk|, 4) + (chunk + (PrintChunks(tail) + rest));
      FieldRead(|chunk|, chunk + (PrintChunks(tail) + rest));
      assert b[4..][..|chunk|] == chunk && b[4..][|chunk|..] == PrintChunks(tail) + rest;
      ReadsBlock(c, total, Wrap(soFar + |c.decode(chunk).value|), tail, rest);
    }
  }

  /** The blocks of a well-formed stream are decompressed one by one, whatever follows. */
  lemma {:induction false} DecompressBlocks(c: Codec, blocks: seq<BlockData>, rest: Key)
    requires AllOk(c, blocks)
    ensures var d := Decompress(c, rest);
      Decompress(c, PrintBlocks(blocks) + rest) == if d.Out? then Out(DecodedBlocks(c, blocks) + d.bytes) else d
  {
    hide BigEndian, BlockOk, Decompress, Decoded, PrintChunks, Ends;
    var b, d := PrintBlocks(blocks) + rest, Decompress(c, rest);
    if blocks == [] {
      assert b == rest && (d.Out? ==> [] + d.bytes == d.bytes);
    } else {
      var tail := PrintBlocks(blocks[1..]) + rest;
      FirstBlock(c, blocks[0], tail);
      DecompressBlocks(c, blocks[1..], rest);
      var bytes := Decoded(c, blocks[0].chunks);
      assert b == BigEndian(blocks[0].total, 4) + PrintChunks(blocks[0].chunks) + tail;
      assert d.Out? ==> bytes + (DecodedBlocks(c, blocks[1..]) + d.bytes) == DecodedBlocks(c, blocks) + d.bytes;
    }
  }

  lemma FirstBlock(c: Codec, block: BlockData, tail: Key)
    requires BlockOk(c, block)
    ensures Decodable(c, block.chunks)
    ensures var b, d := BigEndian(block.total, 4) + PrintChunks(block.chunks) + tail, Decompress(c, tail);
      Decompress(c, b) == if d.Out? then Out(Decoded(c, block.chunks) + d.bytes) else d
  {
    hide BigEndian, Uint, ReadBlock;
    var b := BigEndian(block.total, 4) + PrintChunks(block.chunks) + tail;
    assert b == BigEndian(block.total, 4) + (PrintChunks(block.chunks) + tail);
    FieldRead(block.total, PrintChunks(block.chunks) + tail);
    ReadsBlock(c, block.total, 0, block.chunks, tail);
  }

  /** What was read as a block is a well-formed block. */
  lemma {:induction false} BlockSound(c: Codec, total: nat, soFar: nat, b: Key) returns (chunks: seq<Key>)
    requires ReadBlock(c, total, soFar, b).Block?
    ensures Decodable(c, chunks) && Ends(c, total, soFar, chunks)
    ensures var r := ReadBlock(c, total, soFar, b); Decoded(c, chunks) == r.bytes && b == PrintChunks(chunks) + r.rest
    decreases |b|
  {
    hide Uint, BigEndian, ReadBlock, Wrap;
    ReadBlockTurn(c, total, soFar, b);
    if soFar == total {
      chunks := [];
      assert b == [] + b;
    } else {
      var n := Uint(b[..4]);
      var chunk, rest := b[4..][..n], b[4..][n..];
      var value := c.decode(chunk).value;
      NextChunk(b, n);
      var tail := BlockSound(c, total, Wrap(soFar + |value|), rest);
      chunks := [chunk] + tail;
      DecodedMore(c, chunk, tail);
      PrintChunksMore(chunk, tail);
      assert chunks[1..] == tail;
      var r := ReadBlock(c, total, Wrap(soFar + |value|), rest);
      assert BigEndian(n, 4) + chunk + (PrintChunks(tail) + r.rest) == PrintChunks(chunks) + r.rest;
    }
  }

  lemma NextChunk(b: Key, n: nat)
    requires |b| >= 4 && n == Uint(b[..4]) && |b| - 4 >= n
    ensures n < M32 && b == BigEndian(n, 4) + b[4..][..n] + b[4..][n..]
  {
    Powers();
    BigEndianOfUint(b[..4]);
    assert b == b[..4] + b[4..];
    assert b[4..] == b[4..][..n] + b[4..][n..];
  }

  lemma {:induction false} StreamSound(c: Codec, b: Key) returns (blocks: seq<BlockData>)
    requires Decompress(c, b).Out?
    ensures AllOk(c, blocks) && b == PrintBlocks(blocks) && Decompress(c, b).bytes == DecodedBlocks(c, blocks)
    decreases |b|
  {
    hide Uint, BigEndian, ReadBlock, Ends;
    if b == [] {
      blocks := [];
    } else {
      var total := Uint(b[..4]);
      Powers();
      BigEndianOfUint(b[..4]);
      var chunks := BlockSound(c, total, 0, b[4..]);
      var tail := StreamSound(c, ReadBlock(c, total, 0, b[4..]).rest);
      blocks := [BlockData(total, chunks)] + tail;
      assert blocks[1..] == tail;
      assert b == b[..4] + b[4..];
    }
  }

  /**
   Decompression accepts exactly the streams of the grammar: the result is `out` if and only if the input is
   the print of well-formed blocks that decode to `out`.
   */
  lemma AcceptsExactly(c: Codec, b: Key, out: Key)
    ensures Decompress(c, b) == Out(out) <==>
            exists blocks :: AllOk(c, blocks) && b == PrintBlocks(blocks) && out == DecodedBlocks(c, blocks)
  {
    hide Decompress, PrintBlocks, DecodedBlocks, BlockOk;
    if Decompress(c, b) == Out(out) {
      var blocks := StreamSound(c, b);
    }
    forall blocks | AllOk(c, blocks) && b == PrintBlocks(blocks) && out == DecodedBlocks(c, blocks)
      ensures Decompress(c, b) == Out(out)
    {
      DecompressBlocks(c, blocks, []);
      NoBytes(c);
      assert b + [] == b && out + [] == out;
    }
  }

  lemma NoBytes(c: Codec)
    ensures Decompress(c, []) == Out([])
  {
  }

  lemma {:induction false} ReadBlockExtends(c: Codec, total: nat, soFar: nat, b: Key, more: Key)
    requires ReadBlock(c, total, soFar, b).Block?
    ensures var r := ReadBlock(c, total, soFar, b);
      ReadBlock(c, total, soFar, b + more) == Block(r.bytes, r.rest + more)
    decreases |b|
  {
    hide Uint, Wrap, ReadBlock;
    ReadBlockTurn(c, total, soFar, b);
    ReadBlockTurn(c, total, soFar, b + more);
    if soFar < total {
      assert (b + more)[..4] == b[..4] && (b + more)[4..] == b[4..] + more;
      var n := Uint(b[..4]);
      assert (b[4..] + more)[..n] == b[4..][..n] && (b[4..] + more)[n..] == b[4..][n..] + more;
      ReadBlockExtends(c, total, Wrap(soFar + |c.decode(b[4..][..n]).value|), b[4..][n..], more);
    }
  }

  /** What follows a valid stream is decompressed as if it stood alone, and its output is appended. */
  lemma {:induction false} ConcatenatedStreams(c: Codec, a: Key, b: Key)
    requires Decompress(c, a).Out?
    ensures var d := Decompress(c, b);
      Decompress(c, a + b) == if d.Out? then Out(Decompress(c, a).bytes + d.bytes) else d
    decreases |a|
  {
    hide Uint, ReadBlock;
    var d := Decompress(c, b);
    if a == [] {
      assert a + b == b && (d.Out? ==> [] + d.bytes == d.bytes);
    } else {
      assert (a + b)[..4] == a[..4] && (a + b)[4..] == a[4..] + b;
      var total := Uint(a[..4]);
      ReadBlockExtends(c, total, 0, a[4..], b);
      var r := ReadBlock(c, total, 0, a[4..]);
      ConcatenatedStreams(c, r.rest, b);
      var later := Decompress(c, r.rest).bytes;
      assert d.Out? ==> r.bytes + (later + d.bytes) == r.bytes + later + d.bytes;
    }
  }

  /** The chunks decode to `data`, and none at the end is void. */
  predicate Carries(c: Codec, chunks: seq<Key>, data: Key) {
    && Decodable(c, chunks) && Decoded(c, chunks) == data && (chunks == [] <==> data == [])
    && (chunks != [] ==> c.decode(chunks[|chunks| - 1]).value != [])
  }

  lemma CarriesMore(c: Codec, piece: Key, chunks: seq<Key>, data: Key)
    requires Lawful(c) && 0 < |piece| <= c.chunkLen && Carries(c, chunks, data)
    ensures Carries(c, [c.encode(piece)] + chunks, piece + data)
  {
    hide Decoded;
    DecodedMore(c, c.encode(piece), chunks);
  }

  lemma CarriesNothing(c: Codec)
    ensures Carries(c, [], [])
  {
  }

  lemma {:induction false} EncodedChunks(c: Codec, size: nat, data: Key)
    requires Lawful(c) && 0 < size <= c.chunkLen
    ensures Carries(c, EncodeChunks(c, Cut(size, data)), data)
    decreases |data|
  {
    hide Lawful, Carries;
    if data == [] {
      CarriesNothing(c);
    } else {
      var n := if |data| <= size then |data| else size;
      var piece, rest := data[..n], data[n..];
      EncodedChunks(c, size, rest);
      assert data == piece + rest;
      CutStep(size, piece, rest);
      EncodeChunksStep(c, piece, Cut(size, rest));
      CarriesMore(c, piece, EncodeChunks(c, Cut(size, rest)), rest);
    }
  }

  /** Decompression undoes compression, however the data was split into buffers and whatever the chunk length. */
  lemma CompressionRoundTrip(c: Codec, data: Key)
    requires Lawful(c) && |data| < M32
    ensures var size := if |data| < c.chunkLen then |data| else c.chunkLen;
      Decompress(c, BigEndian(|data|, 4) + CompressedChunks(c, size, data)) == Out(data)
  {
    hide BigEndian, Decompress, PrintChunks;
    var size := if |data| < c.chunkLen then |data| else c.chunkLen;
    var chunks := if size == 0 then [] else EncodeChunks(c, Cut(size, data));
    if size > 0 { EncodedChunks(c, size, data); }
    EndsMeans(c, |data|, 0, chunks);
    FirstBlock(c, BlockData(|data|, chunks), []);
    NoBytes(c);
    assert BigEndian(|data|, 4) + PrintChunks(chunks) + [] == BigEndian(|data|, 4) + PrintChunks(chunks);
    assert data + [] == data;
    NoChunks();
  }

  lemma NoChunks()
    ensures PrintChunks([]) == []
  {
  }

  /** The format, by example: eleven bytes in chunks of ten, with a codec that changes nothing. */
  lemma StreamExample()
    ensures
      var c := Codec((s: Key) => s, (s: Key) => Some(s), 10);
      var ten: Key := [49, 50, 51, 52, 53, 54, 55, 56, 57, 48];
      BigEndian(11, 4) + CompressedChunks(c, 10, ten + [97]) ==
        [0, 0, 0, 11] + [0, 0, 0, 10] + ten + [0, 0, 0, 1] + [97]
  {
    hide BigEndian, CompressedChunks;
    var c := Codec((s: Key) => s, (s: Key) => Some(s), 10);
    var ten: Key := [49, 50, 51, 52, 53, 54, 55, 56, 57, 48];
    SmallNumber(11, 4);
    SmallNumber(10, 4);
    SmallNumber(1, 4);
    CompressedStep(c, 10, ten, [97]);
    CompressedStep(c, 10, [97], []);
    CompressedNothing(c, 10);
    assert [97] + [] == [97];
  }
}
