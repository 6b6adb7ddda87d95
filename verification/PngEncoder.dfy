/** The PNG encoder of src/png.rs: stored-block zlib, framed in chunks. */
module PngEncoder {
  import opened Wrappers
  import opened Checksums

  type Bytes = seq<Byte>

  /** Bytes a stored block can hold. */
  const BLOCK: nat := 0xFFFF

  const SIGNATURE: Bytes := [0x89, 0x50, 0x4E, 0x47, 0x0D, 0x0A, 0x1A, 0x0A]
  const IHDR: Bytes := [0x49, 0x48, 0x44, 0x52]
  const IDAT: Bytes := [0x49, 0x44, 0x41, 0x54]
  const IEND: Bytes := [0x49, 0x45, 0x4E, 0x44]

  /** `to_be_bytes` of a u32. */
  function Be32(n: U32): (r: Bytes)
    ensures |r| == 4
  {
    [n / 0x100_0000, n / 0x1_0000 % 256, n / 256 % 256, n % 256]
  }

  /** `to_le_bytes` of a u16. */
  function Le16(n: nat): (r: Bytes)
    requires n <= 0xFFFF
    ensures |r| == 2
  {
    [n % 256, n / 256]
  }

  /** The CRC as a number. */
  function CrcOf(bytes: Bytes): U32 {
    Crc(bytes) as int
  }

  /* ---------------------------------------------------------------- what is written */

  /** The length field is the body's length cast to u32. */
  function Chunk(kind: Bytes, body: Bytes): Bytes {
    Be32(|body| % U32_SPAN) + kind + body + Be32(CrcOf(kind + body))
  }

  function StoredBlock(last: bool, data: Bytes): Bytes
    requires |data| <= BLOCK
  {
    [if last then 1 else 0] + Le16(|data|) + Le16(0xFFFF - |data|) + data
  }

  function StoredBlocks(raw: Bytes): Bytes {
    if |raw| <= BLOCK then StoredBlock(true, raw)
    else StoredBlock(false, raw[..BLOCK]) + StoredBlocks(raw[BLOCK..])
  }

  function ZlibStored(raw: Bytes): Bytes {
    [0x78, 0x01] + StoredBlocks(raw) + Be32(Adler(raw))
  }

  /** Bytes in `h` rows of `stride` bytes. */
  function Size(stride: nat, h: nat): nat {
    if h == 0 then 0 else stride + Size(stride, h - 1)
  }

  /** Bytes in an RGBA image. */
  function Count(width: nat, height: nat): nat {
    Size(width * 4, height)
  }

  lemma {:induction false} SizeIsProduct(stride: nat, h: nat)
    ensures Size(stride, h) == h * stride
  {
    if h > 0 { SizeIsProduct(stride, h - 1); }
  }

  lemma {:induction false} CountIsProduct(width: nat, height: nat)
    ensures Count(width, height) == width * height * 4
  {
    SizeIsProduct(width * 4, height);
    assert height * (width * 4) == width * height * 4;
  }

  /** `h` scan lines of `stride` bytes, each behind a zero filter byte. */
  function ScanLines(stride: nat, h: nat, pixels: Bytes): Bytes
    requires |pixels| >= Size(stride, h)
    decreases h
  {
    if h == 0 then []
    else [0] + pixels[..stride] + ScanLines(stride, h - 1, pixels[stride..])
  }

  function Header(width: U32, height: U32): Bytes {
    Be32(width) + Be32(height) + [8, 6, 0, 0, 0]
  }

  function Png(width: U32, height: U32, pixels: Bytes): Bytes
    requires |pixels| >= Count(width, height)
  {
    SIGNATURE + Chunk(IHDR, Header(width, height))
    + Chunk(IDAT, ZlibStored(ScanLines(width * 4, height, pixels))) + Chunk(IEND, [])
  }

  /* ---------------------------------------------------------------- how it is written */

  method AppendChunk(out: Bytes, kind: Bytes, body: Bytes) returns (r: Bytes)
    ensures r == out + Chunk(kind, body)
  {
    r := out + Be32(|body| % U32_SPAN);
    r := r + kind;
    r := r + body;
    var crc := Crc32(kind + body);
    r := r + Be32(crc as int);
  }

  /** The blocks still to be written from `at` on. */
  function BlocksFrom(raw: Bytes, at: nat): Bytes
    requires at <= |raw|
  {
    if at == |raw| && at > 0 then [] else StoredBlocks(raw[at..])
  }

  lemma {:induction false} BlocksStep(raw: Bytes, at: nat, end: nat)
    requires at < |raw| && end == (if at + BLOCK < |raw| then at + BLOCK else |raw|)
    ensures BlocksFrom(raw, at) == StoredBlock(at + BLOCK >= |raw|, raw[at..end]) + BlocksFrom(raw, end)
  {
    if at + BLOCK < |raw| {
      assert raw[at..][..BLOCK] == raw[at..end] && raw[at..][BLOCK..] == raw[end..];
    } else {
      assert raw[at..end] == raw[at..];
    }
  }

  method AppendBlock(out: Bytes, last: bool, block: Bytes) returns (r: Bytes)
    requires |block| <= BLOCK
    ensures r == out + StoredBlock(last, block)
  {
    var n := |block|;
    r := out + ([if last then 1 else 0] + Le16(n) + Le16(0xFFFF - n) + block);
  }

  lemma {:induction false} Reassociate(a: Bytes, b: Bytes, c: Bytes)
    ensures (a + b) + c == a + (b + c)
  {
  }

  /** The loop of `zlib_stored`: one stored block for every 65535 bytes or part of it. */
  method WriteBlocks(raw: Bytes) returns (blocks: Bytes)
    requires |raw| > 0
    ensures blocks == StoredBlocks(raw)
  {
    blocks := [];
    var at := 0;
    assert raw[0..] == raw;
    while at < |raw|
      invariant at <= |raw|
      invariant blocks + BlocksFrom(raw, at) == StoredBlocks(raw)
    {
      var end := if at + BLOCK < |raw| then at + BLOCK else |raw|;
      BlocksStep(raw, at, end);
      Reassociate(blocks, StoredBlock(at + BLOCK >= |raw|, raw[at..end]), BlocksFrom(raw, end));
      blocks := AppendBlock(blocks, at + BLOCK >= |raw|, raw[at..end]);
      at := end;
    }
  }

  /** `zlib_stored`; no bytes at all make one empty final block. */
  method EncodeZlib(raw: Bytes) returns (out: Bytes)
    ensures out == ZlibStored(raw) && out[0] == 0x78 && out[1] == 0x01
  {
    var blocks: Bytes;
    if |raw| == 0 {
      blocks := [0x01, 0x00, 0x00, 0xFF, 0xFF];
      assert Le16(0) == [0, 0] && Le16(0xFFFF) == [0xFF, 0xFF];
      assert blocks == StoredBlock(true, raw);
    } else {
      blocks := WriteBlocks(raw);
    }
    var adler := Adler32(raw);
    out := [0x78, 0x01] + blocks + Be32(adler);
  }

  method EncodeRgba(width: U32, height: U32, rgba: Bytes) returns (r: Result<Bytes, nat>)
    ensures r.Err? <==> |rgba| < Count(width, height)
    ensures r.Err? ==> r.error == Count(width, height)
    ensures r.Ok? ==> r.value == Png(width, height, rgba)
  {
    var want := width * height * 4;
    CountIsProduct(width, height);
    if |rgba| < want {
      return Err(want);
    }
    var raw := CollectLines(width * 4, height, rgba);
    var file := AssembleFile(width, height, raw);
    return Ok(file);
  }

  /** Signature, IHDR, IDAT, IEND. */
  method AssembleFile(width: U32, height: U32, raw: Bytes) returns (out: Bytes)
    ensures out == SIGNATURE + Chunk(IHDR, Header(width, height)) + Chunk(IDAT, ZlibStored(raw)) + Chunk(IEND, [])
  {
    out := SIGNATURE;
    var ihdr := Be32(width) + Be32(height);
    ihdr := ihdr + [8, 6, 0, 0, 0];
    out := AppendChunk(out, IHDR, ihdr);
    var idat := EncodeZlib(raw);
    out := AppendChunk(out, IDAT, idat);
    out := AppendChunk(out, IEND, []);
  }

  lemma {:induction false} LinesStep(stride: nat, left: nat, rgba: Bytes, row: nat)
    requires left > 0 && row + Size(stride, left) <= |rgba|
    ensures ScanLines(stride, left, rgba[row..]) ==
            ([0] + rgba[row..row + stride]) + ScanLines(stride, left - 1, rgba[row + stride..])
  {
    assert rgba[row..][..stride] == rgba[row..row + stride] && rgba[row..][stride..] == rgba[row + stride..];
  }

  /** The rows, each behind its filter byte. */
  method CollectLines(stride: nat, height: nat, rgba: Bytes) returns (raw: Bytes)
    requires |rgba| >= Size(stride, height)
    ensures raw == ScanLines(stride, height, rgba)
  {
    raw := [];
    var row: nat := 0;
    assert rgba[0..] == rgba;
    for y := 0 to height
      invariant row + Size(stride, height - y) <= |rgba|
      invariant raw + ScanLines(stride, height - y, rgba[row..]) == ScanLines(stride, height, rgba)
    {
      LinesStep(stride, height - y, rgba, row);
      raw := raw + ([0] + rgba[row..row + stride]);
      row := row + stride;
    }
  }

  /* ---------------------------------------------------------------- BGRA */

  /** Red and blue exchanged in every whole pixel. */
  function Swapped(px: Bytes): Bytes {
    if |px| < 4 then [] else [px[2], px[1], px[0], px[3]] + Swapped(px[4..])
  }

  /** Every pixel of `px` is that of `bgra` with its first and third byte exchanged. */
  ghost predicate SwapsPixels(bgra: Bytes, px: Bytes)
    requires |px| <= |bgra|
  {
    forall i: nat :: 4 * i + 3 < |px| ==>
      && px[4 * i] == bgra[4 * i + 2] && px[4 * i + 1] == bgra[4 * i + 1]
      && px[4 * i + 2] == bgra[4 * i] && px[4 * i + 3] == bgra[4 * i + 3]
  }

  lemma {:induction false} SwappedSwaps(bgra: Bytes, n: nat)
    requires |bgra| >= 4 * n
    ensures |Swapped(bgra[..4 * n])| == 4 * n && SwapsPixels(bgra, Swapped(bgra[..4 * n]))
  {
    SwappedAt(bgra[..4 * n], n, 0);
    forall i: nat | 4 * i + 3 < 4 * n
      ensures var px := Swapped(bgra[..4 * n]);
              && px[4 * i] == bgra[4 * i + 2] && px[4 * i + 1] == bgra[4 * i + 1]
              && px[4 * i + 2] == bgra[4 * i] && px[4 * i + 3] == bgra[4 * i + 3]
    {
      SwappedAt(bgra[..4 * n], n, i);
    }
  }

  lemma {:induction false} SwappedAt(px: Bytes, n: nat, i: nat)
    requires |px| == 4 * n
    ensures |Swapped(px)| == 4 * n
    ensures i < n ==> Swapped(px)[4 * i] == px[4 * i + 2] && Swapped(px)[4 * i + 1] == px[4 * i + 1]
                      && Swapped(px)[4 * i + 2] == px[4 * i] && Swapped(px)[4 * i + 3] == px[4 * i + 3]
  {
    if n > 0 {
      SwappedAt(px[4..], n - 1, if i > 0 then i - 1 else 0);
    }
  }

  /** Exchanging twice changes nothing. */
  lemma {:induction false} SwappedTwice(px: Bytes, n: nat)
    requires |px| == 4 * n
    ensures Swapped(Swapped(px)) == px
  {
    if n == 0 {
      assert px == [];
    } else {
      assert Swapped(px)[4..] == Swapped(px[4..]);
      SwappedTwice(px[4..], n - 1);
      assert px == [px[0], px[1], px[2], px[3]] + px[4..];
    }
  }

  method SwapWhole(bgra: Bytes, want: nat) returns (rgba: Bytes)
    requires want % 4 == 0 && |bgra| >= want
    ensures |rgba| == want && rgba == Swapped(bgra[..want]) && SwapsPixels(bgra, rgba)
  {
    rgba := SwapPixels(bgra, want / 4);
    assert bgra[..4 * (want / 4)] == bgra[..want];
  }

  method EncodeBgra(width: U32, height: U32, bgra: Bytes) returns (r: Result<Bytes, nat>)
    ensures r.Err? <==> |bgra| < Count(width, height)
    ensures r.Err? ==> r.error == Count(width, height)
    ensures r.Ok? ==> var px := Swapped(bgra[..Count(width, height)]);
                      |px| == Count(width, height) && SwapsPixels(bgra, px) && r.value == Png(width, height, px)
  {
    var want := width * height * 4;
    CountIsProduct(width, height);
    if |bgra| < want {
      return Err(want);
    }
    var rgba := SwapWhole(bgra, want);
    r := EncodeRgba(width, height, rgba);
  }

  lemma {:induction false} SwappedByPixels(px: Bytes, r: Bytes, n: nat)
    requires |px| == 4 * n && |r| == 4 * n
    requires forall k :: 0 <= k < n ==> r[4 * k] == px[4 * k + 2] && r[4 * k + 1] == px[4 * k + 1]
                                        && r[4 * k + 2] == px[4 * k] && r[4 * k + 3] == px[4 * k + 3]
    ensures r == Swapped(px)
  {
    SwappedAt(px, n, 0);
    forall j | 0 <= j < 4 * n ensures r[j] == Swapped(px)[j] {
      var k := j / 4;
      SwappedAt(px, n, k);
      assert j == 4 * k || j == 4 * k + 1 || j == 4 * k + 2 || j == 4 * k + 3;
    }
  }

  /** The channel swap, written into a fresh zeroed buffer. */
  method SwapPixels(bgra: Bytes, n: nat) returns (r: Bytes)
    requires |bgra| >= 4 * n
    ensures r == Swapped(bgra[..4 * n]) && |r| == 4 * n && SwapsPixels(bgra, r)
  {
    var rgba := new Byte[4 * n](_ => 0);
    for i := 0 to n
      invariant forall k :: 0 <= k < i ==>
                  rgba[4 * k] == bgra[4 * k + 2] && rgba[4 * k + 1] == bgra[4 * k + 1]
                  && rgba[4 * k + 2] == bgra[4 * k] && rgba[4 * k + 3] == bgra[4 * k + 3]
    {
      var at := i * 4;
      rgba[at] := bgra[at + 2];
      rgba[at + 1] := bgra[at + 1];
      rgba[at + 2] := bgra[at];
      rgba[at + 3] := bgra[at + 3];
    }
    r := rgba[..];
    SwappedByPixels(bgra[..4 * n], r, n);
    SwappedSwaps(bgra, n);
  }
}
