/** A PNG decoder written from the standards, and the round trip through it. */
module PngDecoder {
  // Chunk layout and CRC of section 5.3 of the PNG specification, the zlib wrapper of section 2.2
  // of RFC 1950, stored blocks of section 3.2.4 of RFC 1951, and scan lines of filter type 0.

  import opened Wrappers
  import opened Checksums
  import opened PngEncoder

  datatype Image = Image(width: U32, height: U32, pixels: Bytes)

  /* ---------------------------------------------------------------- the decoder */

  function ReadBe32(b: Bytes): int
    requires |b| >= 4
  {
    b[0] as int * 0x100_0000 + b[1] as int * 0x1_0000 + b[2] as int * 256 + b[3] as int
  }

  datatype ChunkRead = ChunkRead(kind: Bytes, body: Bytes, rest: Bytes)

  /** One chunk: length (at most `limit`), type, data, CRC over type and data. */
  function ReadChunk(b: Bytes, limit: nat): Option<ChunkRead> {
    if |b| < 12 then None
    else
      var n := ReadBe32(b);
      if n > limit || |b| < 12 + n then None
      else if ReadBe32(b[8 + n..]) != Crc(b[4..8 + n]) as int then None
      else Some(ChunkRead(b[4..8], b[8..8 + n], b[12 + n..]))
  }

  /** A stored block with its final flag. */
  datatype Block = Block(last: bool, data: Bytes)

  /** The blocks of a DEFLATE stream that uses only stored blocks, and what follows the final one. */
  function ReadBlocks(b: Bytes): Option<(seq<Block>, Bytes)> {
    if |b| < 5 || b[0] / 2 % 4 != 0 then None
    else
      var n, complement := b[1] as int + 256 * b[2] as int, b[3] as int + 256 * b[4] as int;
      if n + complement != 0xFFFF || |b| < 5 + n then None
      else
        var block := Block(b[0] % 2 == 1, b[5..5 + n]);
        if block.last then Some(([block], b[5 + n..]))
        else
          match ReadBlocks(b[5 + n..])
          case None => None
          case Some((more, rest)) => Some(([block] + more, rest))
  }

  function Joined(blocks: seq<Block>): Bytes {
    if blocks == [] then [] else blocks[0].data + Joined(blocks[1..])
  }

  /** Compression method 8, window at most 32K, no preset dictionary, header check, and the Adler-32 behind the data. */
  function Inflate(z: Bytes): Option<Bytes> {
    if |z| < 2 || z[0] % 16 != 8 || z[0] / 16 > 7 || (z[0] as int * 256 + z[1] as int) % 31 != 0
       || z[1] / 32 % 2 != 0 then None
    else
      match ReadBlocks(z[2..])
      case None => None
      case Some((blocks, rest)) =>
        var data := Joined(blocks);
        if |rest| != 4 || ReadBe32(rest) != Adler(data) then None else Some(data)
  }

  function Unfilter(stride: nat, h: nat, raw: Bytes): Option<Bytes> {
    if h == 0 then (if raw == [] then Some([]) else None)
    else if |raw| < 1 + stride || raw[0] != 0 then None
    else
      match Unfilter(stride, h - 1, raw[1 + stride..])
      case None => None
      case Some(more) => Some(raw[1..1 + stride] + more)
  }

  /** The data of consecutive IDAT chunks, and what follows them. */
  function ReadIdats(b: Bytes, limit: nat): Option<(Bytes, Bytes)> {
    match ReadChunk(b, limit)
    case None => None
    case Some(c) =>
      if c.kind != [73, 68, 65, 84] then Some(([], b))
      else
        match ReadIdats(c.rest, limit)
        case None => None
        case Some((more, rest)) => Some((c.body + more, rest))
  }

  /** Signature and IHDR: width, height and what follows; 8-bit RGBA only. */
  function DecodeHeader(b: Bytes, limit: nat): Option<(int, int, Bytes)> {
    if |b| < 8 || b[..8] != [137, 80, 78, 71, 13, 10, 26, 10] then None
    else
      match ReadChunk(b[8..], limit)
      case None => None
      case Some(ihdr) =>
        if ihdr.kind != [73, 72, 68, 82] || |ihdr.body| != 13 || ihdr.body[8..] != [8, 6, 0, 0, 0] then None
        else Some((ReadBe32(ihdr.body), ReadBe32(ihdr.body[4..]), ihdr.rest))
  }

  /** The image data and the closing chunk, with nothing behind it. */
  function DecodeData(b: Bytes, limit: nat): Option<Bytes> {
    match ReadIdats(b, limit)
    case None => None
    case Some((z, rest)) =>
      match ReadChunk(rest, limit)
      case None => None
      case Some(iend) =>
        if iend.kind != [73, 69, 78, 68] || iend.body != [] || iend.rest != [] then None else Inflate(z)
  }

  /** Zero dimensions are not valid. */
  function Decode(b: Bytes, limit: nat): Option<Image> {
    match DecodeHeader(b, limit)
    case None => None
    case Some((w, h, rest)) =>
      match DecodeData(rest, limit)
      case None => None
      case Some(raw) =>
        if w == 0 || h == 0 then None
        else
          match Unfilter(w * 4, h, raw)
          case None => None
          case Some(pixels) => Some(Image(w, h, pixels))
  }

  /* ---------------------------------------------------------------- chunks */

  lemma {:induction false} ReadsBe32(n: U32, rest: Bytes)
    ensures ReadBe32(Be32(n) + rest) == n
  {
    assert n == n / 0x100_0000 * 0x100_0000 + n / 0x1_0000 % 256 * 0x1_0000 + n / 256 % 256 * 256 + n % 256;
  }

  lemma {:induction false} Parts(len: Bytes, q: Bytes, crc: Bytes, rest: Bytes, n: nat)
    requires |len| == 4 && |crc| == 4 && |q| == 4 + n
    ensures
      var b := len + q + crc + rest;
      |b| == 12 + n + |rest| && b[4..8 + n] == q && b[8 + n..] == crc + rest && b[12 + n..] == rest
  {
  }

  /** A chunk within the limit is read back, whatever follows it; one past the limit is refused. */
  lemma {:induction false} ReadsChunk(kind: Bytes, body: Bytes, rest: Bytes, limit: nat)
    requires |kind| == 4 && |body| < U32_SPAN
    ensures ReadChunk(Chunk(kind, body) + rest, limit) ==
            if |body| <= limit then Some(ChunkRead(kind, body, rest)) else None
  {
    ChunkIs(kind, body, rest);
    ReadsGrouped(Chunk(kind, body) + rest, kind, body, Be32(CrcOf(kind + body)), rest, limit);
  }

  lemma {:induction false} ChunkIs(kind: Bytes, body: Bytes, rest: Bytes)
    requires |body| < U32_SPAN
    ensures Chunk(kind, body) + rest == Be32(|body|) + (kind + body) + Be32(CrcOf(kind + body)) + rest
  {
    ChunkGroups(Be32(|body|), kind, body, Be32(CrcOf(kind + body)), rest);
  }

  lemma {:induction false} ReadsGrouped(b: Bytes, kind: Bytes, body: Bytes, crc: Bytes, rest: Bytes, limit: nat)
    requires |kind| == 4 && |body| < U32_SPAN && crc == Be32(CrcOf(kind + body))
    requires b == Be32(|body|) + (kind + body) + crc + rest
    ensures ReadChunk(b, limit) ==
            if |body| <= limit then Some(ChunkRead(kind, body, rest)) else None
  {
    var len, q := Be32(|body|), kind + body;
    LengthFirst(len, |body|, q, crc, rest);
    Parts(len, q, crc, rest, |body|);
    ReadsBe32(CrcOf(q), rest);
    ReadsParts(b, kind, body, crc, rest, limit);
  }

  lemma {:induction false} LengthFirst(len: Bytes, n: U32, q: Bytes, crc: Bytes, rest: Bytes)
    requires len == Be32(n)
    ensures |len + q + crc + rest| >= 4 && ReadBe32(len + q + crc + rest) == n
  {
    ReadsBe32(n, q + crc + rest);
    assert len + q + crc + rest == len + (q + crc + rest);
  }

  lemma {:induction false} ChunkGroups(len: Bytes, kind: Bytes, body: Bytes, crc: Bytes, rest: Bytes)
    ensures len + kind + body + crc + rest == len + (kind + body) + crc + rest
    ensures |len + kind + body + crc + rest| == |len| + |kind| + |body| + |crc| + |rest|
  {
    assert len + kind + body == len + (kind + body);
  }

  lemma {:induction false} Regroup(a: Bytes, b: Bytes, c: Bytes, d: Bytes)
    ensures a + b + c + d == a + (b + (c + d))
  {
  }

  /** What any read chunk measures. */
  lemma {:induction false} ChunkSize(b: Bytes, limit: nat)
    requires ReadChunk(b, limit).Some?
    ensures var c := ReadChunk(b, limit).value;
            && |b| == 12 + |c.body| + |c.rest| && |c.body| == ReadBe32(b) < U32_SPAN && |c.body| <= limit
            && c.kind == b[4..8]
  {
  }

  /** The length field of a written chunk, whatever follows: the body's length cast to u32. */
  lemma {:induction false} LengthField(kind: Bytes, body: Bytes, rest: Bytes)
    requires |kind| == 4
    ensures var b := Chunk(kind, body) + rest;
            |b| == 12 + |body| + |rest| && ReadBe32(b) == |body| % U32_SPAN && b[4..8] == kind
  {
    var n := |body| % U32_SPAN;
    var more := kind + body + Be32(CrcOf(kind + body)) + rest;
    assert Chunk(kind, body) + rest == Be32(n) + more;
    ReadsBe32(n, more);
    assert more[..4] == kind;
  }

  /** A chunk is read back, whatever follows it, exactly if its length fits the limit and 32 bits. */
  lemma {:induction false} ChunkReadsIff(kind: Bytes, body: Bytes, rest: Bytes, limit: nat)
    requires |kind| == 4
    ensures ReadChunk(Chunk(kind, body) + rest, limit) == Some(ChunkRead(kind, body, rest))
            <==> |body| <= limit && |body| < U32_SPAN
  {
    if |body| < U32_SPAN {
      ReadsChunk(kind, body, rest, limit);
    } else if ReadChunk(Chunk(kind, body) + rest, limit).Some? {
      ChunkSize(Chunk(kind, body) + rest, limit);
    }
  }

  lemma {:induction false} ReadsParts(b: Bytes, kind: Bytes, body: Bytes, crc: Bytes, rest: Bytes, limit: nat)
    requires |kind| == 4 && |crc| == 4 && |b| == 12 + |body| + |rest|
    requires b[4..8 + |body|] == kind + body && b[8 + |body|..] == crc + rest && b[12 + |body|..] == rest
    requires ReadBe32(b) == |body| && ReadBe32(crc + rest) == CrcOf(kind + body)
    ensures ReadChunk(b, limit) == if |body| <= limit then Some(ChunkRead(kind, body, rest)) else None
  {
    assert b[4..8] == b[4..8 + |body|][..4] && b[8..8 + |body|] == b[4..8 + |body|][4..];
  }

  /* ---------------------------------------------------------------- blocks */

  /** The blocks the encoder cuts: full ones, then the final one. */
  function Cut(raw: Bytes): seq<Block> {
    if |raw| <= BLOCK then [Block(true, raw)] else [Block(false, raw[..BLOCK])] + Cut(raw[BLOCK..])
  }

  /** Exactly the last block is final, and every other one is full. */
  lemma {:induction false} OnlyLastIsFinal(raw: Bytes)
    ensures var blocks := Cut(raw);
            && Joined(blocks) == raw && |blocks| > 0
            && forall i :: 0 <= i < |blocks| ==>
                 && (blocks[i].last <==> i == |blocks| - 1)
                 && (!blocks[i].last ==> |blocks[i].data| == 65_535)
  {
    if |raw| <= BLOCK {
      assert Cut(raw)[1..] == [];
    } else {
      OnlyLastIsFinal(raw[BLOCK..]);
      assert Cut(raw)[1..] == Cut(raw[BLOCK..]);
      assert raw == raw[..BLOCK] + raw[BLOCK..];
    }
  }

  lemma {:induction false} ReadsOneBlock(last: bool, data: Bytes, rest: Bytes)
    requires |data| <= BLOCK
    ensures var b := StoredBlock(last, data) + rest;
            && |b| >= 5 + |data| && b[0] / 2 % 4 == 0 && (b[0] % 2 == 1 <==> last)
            && b[1] as int + 256 * b[2] as int == |data| && b[3] as int + 256 * b[4] as int == 0xFFFF - |data|
            && b[5..5 + |data|] == data && b[5 + |data|..] == rest
  {
    var b := StoredBlock(last, data) + rest;
    assert b[1..3] == Le16(|data|) && b[3..5] == Le16(0xFFFF - |data|);
    assert b[1] == b[1..3][0] && b[2] == b[1..3][1] && b[3] == b[3..5][0] && b[4] == b[3..5][1];
  }

  /** The stream is read back as the cut blocks. */
  lemma {:induction false} ReadsBlocks(raw: Bytes, rest: Bytes)
    ensures ReadBlocks(StoredBlocks(raw) + rest) == Some((Cut(raw), rest))
  {
    if |raw| <= BLOCK {
      ReadsOneBlock(true, raw, rest);
    } else {
      var more := StoredBlocks(raw[BLOCK..]) + rest;
      assert StoredBlocks(raw) + rest == StoredBlock(false, raw[..BLOCK]) + more;
      ReadsOneBlock(false, raw[..BLOCK], more);
      ReadsBlocks(raw[BLOCK..], rest);
    }
  }

  lemma {:induction false} InflatesTo(z: Bytes, blocks: seq<Block>, rest: Bytes, data: Bytes)
    requires |z| >= 2 && z[0] == 0x78 && z[1] == 0x01 && ReadBlocks(z[2..]) == Some((blocks, rest))
    requires Joined(blocks) == data && |rest| == 4 && ReadBe32(rest) == Adler(data)
    ensures Inflate(z) == Some(data)
  {
  }

  /** Inflating what `zlib_stored` wrote returns its input, for input of any length. */
  lemma {:induction false} InflateUndoesZlib(raw: Bytes)
    ensures Inflate(ZlibStored(raw)) == Some(raw)
  {
    var z, tail := ZlibStored(raw), Be32(Adler(raw));
    assert z == [0x78, 0x01] + (StoredBlocks(raw) + tail);
    assert z[2..] == StoredBlocks(raw) + tail;
    ReadsBlocks(raw, tail);
    OnlyLastIsFinal(raw);
    ReadsBe32(Adler(raw), []);
    assert tail + [] == tail;
    InflatesTo(z, Cut(raw), tail, raw);
  }

  /* ---------------------------------------------------------------- scan lines */

  lemma {:induction false} UnfilterUndoesScanLines(stride: nat, h: nat, pixels: Bytes)
    requires |pixels| >= Size(stride, h)
    ensures Unfilter(stride, h, ScanLines(stride, h, pixels)) == Some(pixels[..Size(stride, h)])
    decreases h
  {
    if h > 0 {
      var raw := ScanLines(stride, h, pixels);
      assert raw[1..1 + stride] == pixels[..stride];
      assert raw[1 + stride..] == ScanLines(stride, h - 1, pixels[stride..]);
      UnfilterUndoesScanLines(stride, h - 1, pixels[stride..]);
      assert pixels[..Size(stride, h)] == pixels[..stride] + pixels[stride..][..Size(stride, h - 1)];
    }
  }

  /* ---------------------------------------------------------------- whole files */

  /** The bytes of the IDAT chunk. */
  function Compressed(width: U32, height: U32, pixels: Bytes): Bytes
    requires |pixels| >= Count(width, height)
  {
    ZlibStored(ScanLines(width * 4, height, pixels))
  }

  lemma {:induction false} ReadsHeader(width: U32, height: U32)
    ensures var body := Header(width, height);
            |body| == 13 && body[8..] == [8, 6, 0, 0, 0] && ReadBe32(body) == width && ReadBe32(body[4..]) == height
  {
    var body := Header(width, height);
    assert body == Be32(width) + (Be32(height) + [8, 6, 0, 0, 0]);
    ReadsBe32(width, Be32(height) + [8, 6, 0, 0, 0]);
    assert body[4..] == Be32(height) + [8, 6, 0, 0, 0];
    ReadsBe32(height, [8, 6, 0, 0, 0]);
  }

  lemma {:induction false} ReadsIdats(z: Bytes, limit: nat)
    requires |z| < U32_SPAN
    ensures ReadIdats(Chunk(IDAT, z) + Chunk(IEND, []), limit) ==
            if |z| <= limit then Some((z, Chunk(IEND, []))) else None
  {
    var iend := Chunk(IEND, []);
    ReadsChunk(IDAT, z, iend, limit);
    ReadsChunk(IEND, [], [], limit);
    assert iend + [] == iend && z + [] == z;
  }

  lemma {:induction false} AfterSignature(rest: Bytes)
    ensures |SIGNATURE + rest| >= 8 && (SIGNATURE + rest)[..8] == SIGNATURE && (SIGNATURE + rest)[8..] == rest
  {
  }

  lemma {:induction false} DecodesHeader(width: U32, height: U32, tail: Bytes, limit: nat)
    ensures DecodeHeader(SIGNATURE + (Chunk(IHDR, Header(width, height)) + tail), limit)
            == if limit >= 13 then Some((width, height, tail)) else None
  {
    AfterSignature(Chunk(IHDR, Header(width, height)) + tail);
    ReadsHeader(width, height);
    ReadsChunk(IHDR, Header(width, height), tail, limit);
  }

  lemma {:induction false} DecodesData(raw: Bytes, limit: nat)
    requires |ZlibStored(raw)| < U32_SPAN
    ensures DecodeData(Chunk(IDAT, ZlibStored(raw)) + Chunk(IEND, []), limit) ==
            if |ZlibStored(raw)| <= limit then Some(raw) else None
  {
    ReadsIdats(ZlibStored(raw), limit);
    InflateUndoesZlib(raw);
    ReadsChunk(IEND, [], [], limit);
    assert Chunk(IEND, []) + [] == Chunk(IEND, []);
  }

  lemma {:induction false} FileParts(width: U32, height: U32, pixels: Bytes, limit: nat)
    requires |pixels| >= Count(width, height)
    ensures
      var tail := Chunk(IDAT, Compressed(width, height, pixels)) + Chunk(IEND, []);
      DecodeHeader(Png(width, height, pixels), limit) == if limit >= 13 then Some((width, height, tail)) else None
  {
    var idat, iend := Chunk(IDAT, Compressed(width, height, pixels)), Chunk(IEND, []);
    Regroup(SIGNATURE, Chunk(IHDR, Header(width, height)), idat, iend);
    DecodesHeader(width, height, idat + iend, limit);
  }

  lemma {:induction false} ShortDataDecodes(width: U32, height: U32, pixels: Bytes, limit: nat)
    requires |pixels| >= Count(width, height) && limit >= 13
    requires |Compressed(width, height, pixels)| < U32_SPAN
    ensures Decode(Png(width, height, pixels), limit) ==
            if width > 0 && height > 0 && |Compressed(width, height, pixels)| <= limit
            then Some(Image(width, height, pixels[..Count(width, height)])) else None
  {
    var raw := ScanLines(width * 4, height, pixels);
    var tail := Chunk(IDAT, ZlibStored(raw)) + Chunk(IEND, []);
    FileParts(width, height, pixels, limit);
    DecodesData(raw, limit);
    UnfilterUndoesScanLines(width * 4, height, pixels);
    DecodesParts(Png(width, height, pixels), width, height, tail, limit, raw, pixels[..Count(width, height)]);
  }

  lemma {:induction false} DecodesParts(b: Bytes, w: U32, h: U32, tail: Bytes, limit: nat, raw: Bytes, px: Bytes)
    requires DecodeHeader(b, limit) == Some((w, h, tail))
    requires DecodeData(tail, limit) == Some(raw) ==> Unfilter(w * 4, h, raw) == Some(px)
    requires DecodeData(tail, limit) == Some(raw) || DecodeData(tail, limit) == None
    ensures Decode(b, limit) ==
            if w > 0 && h > 0 && DecodeData(tail, limit).Some? then Some(Image(w, h, px)) else None
  {
  }

  /* ---------------------------------------------------------------- data past 32 bits */

  /** Bytes that stored blocks take for `n` bytes of data, at least. */
  function StoredSize(n: nat): nat {
    if n <= BLOCK then 5 + n else 5 + BLOCK + StoredSize(n - BLOCK)
  }

  lemma {:induction false} StoredSizeOf(raw: Bytes)
    ensures |StoredBlocks(raw)| == StoredSize(|raw|)
  {
    if |raw| > BLOCK { StoredSizeOf(raw[BLOCK..]); }
  }

  lemma {:induction false} StoredSizeAdds(m: nat, x: nat)
    requires m <= BLOCK
    ensures StoredSize(m + x) <= 5 + m + StoredSize(x)
    decreases x
  {
    if x > BLOCK { StoredSizeAdds(m, x - BLOCK); }
  }

  lemma {:induction false} StoredSizeRises(m: nat, n: nat)
    ensures m < n ==> StoredSize(m) < StoredSize(n)
    decreases n
  {
    if BLOCK < m < n { StoredSizeRises(m - BLOCK, n - BLOCK); }
  }

  /** No stream of stored blocks carries its data in less. */
  lemma {:induction false} BlocksTakeTheirSize(b: Bytes)
    requires ReadBlocks(b).Some?
    ensures var (blocks, rest) := ReadBlocks(b).value; |b| >= |rest| + StoredSize(|Joined(blocks)|)
  {
    var n := b[1] as int + 256 * b[2] as int;
    var block := Block(b[0] % 2 == 1, b[5..5 + n]);
    var (blocks, rest) := ReadBlocks(b).value;
    if block.last {
      assert blocks == [block] && Joined([block]) == block.data + Joined([block][1..]);
      assert Joined([block][1..]) == [];
    } else {
      BlocksTakeTheirSize(b[5 + n..]);
      var more := ReadBlocks(b[5 + n..]).value.0;
      assert blocks[1..] == more;
      StoredSizeAdds(n, |Joined(more)|);
    }
  }

  lemma {:induction false} InflateTakesItsSize(z: Bytes)
    requires Inflate(z).Some?
    ensures |z| >= 6 + StoredSize(|Inflate(z).value|)
  {
    BlocksTakeTheirSize(z[2..]);
  }

  /** Each IDAT chunk takes twelve bytes besides its data. */
  lemma {:induction false} IdatsSize(b: Bytes, limit: nat)
    requires ReadIdats(b, limit).Some?
    ensures var (z, rest) := ReadIdats(b, limit).value;
            |b| >= |z| + |rest| && (|z| > 0 ==> |b| >= |z| + |rest| + 12)
  {
    ChunkSize(b, limit);
    var c := ReadChunk(b, limit).value;
    if c.kind == IDAT { IdatsSize(c.rest, limit); }
  }

  /** Data that wraps its length field is read back too short, however the file goes on. */
  lemma {:induction false} WrappedDataIsShort(z: Bytes, limit: nat)
    requires |z| >= U32_SPAN && DecodeData(Chunk(IDAT, z) + Chunk(IEND, []), limit).Some?
    ensures 6 + StoredSize(|DecodeData(Chunk(IDAT, z) + Chunk(IEND, []), limit).value|) < |z|
  {
    var iend := Chunk(IEND, []);
    var b := Chunk(IDAT, z) + iend;
    LengthField(IDAT, z, iend);
    ChunkSize(b, limit);
    var c := ReadChunk(b, limit).value;
    var (got, rest) := ReadIdats(b, limit).value;
    IdatsSize(c.rest, limit);
    ChunkSize(rest, limit);
    InflateTakesItsSize(got);
  }

  lemma {:induction false} UnfilterSize(stride: nat, h: nat, raw: Bytes)
    requires Unfilter(stride, h, raw).Some?
    ensures |raw| == Size(1 + stride, h)
    decreases h
  {
    if h > 0 { UnfilterSize(stride, h - 1, raw[1 + stride..]); }
  }

  lemma {:induction false} ScanLinesSize(stride: nat, h: nat, pixels: Bytes)
    requires |pixels| >= Size(stride, h)
    ensures |ScanLines(stride, h, pixels)| == Size(1 + stride, h)
    decreases h
  {
    if h > 0 { ScanLinesSize(stride, h - 1, pixels[stride..]); }
  }

  /** Less data than was encoded has not enough scan lines. */
  lemma {:induction false} LessDataIsRefused(stride: nat, h: nat, pixels: Bytes, data: Bytes)
    requires |pixels| >= Size(stride, h)
    requires 6 + StoredSize(|data|) < |ZlibStored(ScanLines(stride, h, pixels))|
    ensures Unfilter(stride, h, data) == None
  {
    var raw := ScanLines(stride, h, pixels);
    StoredSizeOf(raw);
    StoredSizeRises(|raw|, |data|);
    ScanLinesSize(stride, h, pixels);
    if Unfilter(stride, h, data).Some? { UnfilterSize(stride, h, data); }
  }

  lemma {:induction false} RefusedFails(b: Bytes, w: U32, h: U32, tail: Bytes, limit: nat)
    requires DecodeHeader(b, limit) == Some((w, h, tail))
    requires DecodeData(tail, limit).Some? ==> Unfilter(w * 4, h, DecodeData(tail, limit).value) == None
    ensures Decode(b, limit) == None
  {
  }

  lemma {:induction false} WrappedDataFails(width: U32, height: U32, pixels: Bytes, limit: nat)
    requires |pixels| >= Count(width, height) && limit >= 13
    requires |Compressed(width, height, pixels)| >= U32_SPAN
    ensures Decode(Png(width, height, pixels), limit) == None
  {
    var z := Compressed(width, height, pixels);
    var tail := Chunk(IDAT, z) + Chunk(IEND, []);
    FileParts(width, height, pixels, limit);
    if DecodeData(tail, limit).Some? {
      WrappedDataIsShort(z, limit);
      LessDataIsRefused(width * 4, height, pixels, DecodeData(tail, limit).value);
    }
    RefusedFails(Png(width, height, pixels), width, height, tail, limit);
  }

  lemma {:induction false} DataIsLong(width: U32, height: U32, pixels: Bytes)
    requires |pixels| >= Count(width, height) && width > 0 && height > 0
    ensures |Compressed(width, height, pixels)| >= 16
  {
    StoredSizeOf(ScanLines(width * 4, height, pixels));
    ScanLinesSize(width * 4, height, pixels);
    assert Size(1 + width * 4, height) >= 5;
  }

  /** A limit too small for the header is too small for any data. */
  lemma {:induction false} TinyLimitFails(width: U32, height: U32, pixels: Bytes, limit: nat)
    requires |pixels| >= Count(width, height) && limit < 13
    ensures Decode(Png(width, height, pixels), limit) == None
    ensures width > 0 && height > 0 ==> |Compressed(width, height, pixels)| > limit
  {
    FileParts(width, height, pixels, limit);
    if width > 0 && height > 0 { DataIsLong(width, height, pixels); }
  }

  /**
   Decoding what was encoded gives back the image exactly when it has pixels and its data fits one
   chunk, within the limit and within 32 bits; otherwise it fails.  The limit is the standard's
   2^31 - 1, or the full u32 range, or any other.
   */
  lemma {:induction false} DecodeUndoesEncode(width: U32, height: U32, pixels: Bytes, limit: nat)
    requires |pixels| >= Count(width, height)
    ensures
      var size := |Compressed(width, height, pixels)|;
      Decode(Png(width, height, pixels), limit) ==
      if width > 0 && height > 0 && size <= limit && size < U32_SPAN
      then Some(Image(width, height, pixels[..Count(width, height)])) else None
  {
    if limit < 13 {
      TinyLimitFails(width, height, pixels, limit);
    } else if |Compressed(width, height, pixels)| < U32_SPAN {
      ShortDataDecodes(width, height, pixels, limit);
    } else {
      WrappedDataFails(width, height, pixels, limit);
    }
  }

  /** The file is longer than its compressed data. */
  lemma {:induction false} DataFitsFile(width: U32, height: U32, pixels: Bytes)
    requires |pixels| >= Count(width, height)
    ensures |Compressed(width, height, pixels)| <= |Png(width, height, pixels)|
  {
  }

  /** An encoded file within the limit decodes to its pixels. */
  lemma {:induction false} FileDecodes(width: U32, height: U32, pixels: Bytes, px: Bytes, limit: nat)
    requires limit < U32_SPAN && width > 0 && height > 0
    requires |pixels| >= Count(width, height) && px == pixels[..Count(width, height)]
    requires |Png(width, height, pixels)| <= limit
    ensures Decode(Png(width, height, pixels), limit) == Some(Image(width, height, px))
  {
    DataFitsFile(width, height, pixels);
    DecodeUndoesEncode(width, height, pixels, limit);
  }

  /** When a file decodes: it has pixels, and its data fits one chunk. */
  predicate Fits(width: U32, height: U32, pixels: Bytes, limit: nat)
    requires |pixels| >= Count(width, height)
  {
    var size := |Compressed(width, height, pixels)|;
    width > 0 && height > 0 && size <= limit && size < U32_SPAN
  }

  /** The RGBA encoder, decoded. */
  method RoundTripRgba(width: U32, height: U32, rgba: Bytes, limit: nat) returns (r: Result<Bytes, nat>)
    ensures r.Err? <==> |rgba| < Count(width, height)
    ensures r.Ok? ==>
              Decode(r.value, limit) == if Fits(width, height, rgba, limit)
                                        then Some(Image(width, height, rgba[..Count(width, height)])) else None
  {
    r := EncodeRgba(width, height, rgba);
    if r.Ok? { DecodeUndoesEncode(width, height, rgba, limit); }
  }

  /** The BGRA encoder decodes to the channel-swapped pixels. */
  method RoundTripBgra(width: U32, height: U32, bgra: Bytes, limit: nat) returns (r: Result<Bytes, nat>)
    ensures r.Err? <==> |bgra| < Count(width, height)
    ensures r.Ok? ==>
              var px := Swapped(bgra[..Count(width, height)]);
              |px| == Count(width, height) && SwapsPixels(bgra, px)
              && Decode(r.value, limit)
                  == if Fits(width, height, px, limit) then Some(Image(width, height, px)) else None
  {
    r := EncodeBgra(width, height, bgra);
    if r.Ok? {
      var px := Swapped(bgra[..Count(width, height)]);
      WholeIsPrefix(px);
      DecodeUndoesEncode(width, height, px, limit);
    }
  }

  lemma {:induction false} WholeIsPrefix(px: Bytes)
    ensures px == px[..|px|]
  {
  }
}
