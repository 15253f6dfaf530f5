/**
 * Loading an S3TC-compressed texture from a DDS file: the header is read
 * at fixed byte offsets (the FourCC packed little-endian, as the DDS file
 * layout stores it), the pixel buffer is sized from the header's linear
 * size, and the mip levels are handed to the graphics library one after
 * another, each `((w + 3) / 4) * ((h + 3) / 4)` blocks of 8 bytes (DXT1)
 * or 16 bytes (DXT3, DXT5) further into the buffer.
 *
 * The file is a byte sequence (`None` when it cannot be opened); the
 * graphics library calls are recorded as `Upload` values.
 */
module Dds {
  import opened Wrappers

  newtype byte = b: int | 0 <= b < 256

  const Word32: nat := 0x1_0000_0000

  // ---------------------------------------------------------------------
  // FourCC codes and header words

  /** `MAKEFOURCC`: `ch0` in the low byte up to `ch3` in the high byte. */
  function FourCC(c0: byte, c1: byte, c2: byte, c3: byte): (r: nat)
    ensures r < Word32
  {
    c0 as nat + 0x100 * c1 as nat + 0x1_0000 * c2 as nat + 0x100_0000 * c3 as nat
  }

  /** Each byte comes back out of its place in a FourCC. */
  lemma FourCCBytes(c0: byte, c1: byte, c2: byte, c3: byte)
    ensures var r := FourCC(c0, c1, c2, c3);
      r % 0x100 == c0 as nat && r / 0x100 % 0x100 == c1 as nat &&
      r / 0x1_0000 % 0x100 == c2 as nat && r / 0x100_0000 == c3 as nat
  {
    var a, b, c, d := c0 as nat, c1 as nat, c2 as nat, c3 as nat;
    var r := FourCC(c0, c1, c2, c3);
    assert r == a + 0x100 * (b + 0x100 * (c + 0x100 * d));
    DivMod(a, b + 0x100 * (c + 0x100 * d));
    assert r / 0x100 == b + 0x100 * (c + 0x100 * d);
    DivMod(b, c + 0x100 * d);
    assert r / 0x1_0000 == (r / 0x100) / 0x100;
    DivMod(c, d);
    assert r / 0x100_0000 == (r / 0x1_0000) / 0x100;
  }

  lemma DivMod(low: nat, high: nat)
    requires low < 0x100
    ensures (low + 0x100 * high) % 0x100 == low && (low + 0x100 * high) / 0x100 == high
  {
  }

  /** FourCCs of different character codes differ. */
  lemma FourCCInjective(c0: byte, c1: byte, c2: byte, c3: byte, d0: byte, d1: byte, d2: byte, d3: byte)
    requires FourCC(c0, c1, c2, c3) == FourCC(d0, d1, d2, d3)
    ensures c0 == d0 && c1 == d1 && c2 == d2 && c3 == d3
  {
    FourCCBytes(c0, c1, c2, c3);
    FourCCBytes(d0, d1, d2, d3);
  }

  /** An ASCII character as a byte. */
  function Ascii(c: char): byte
    requires c < 128 as char
  {
    c as int as byte
  }

  const Dxt1Code: nat := FourCC(Ascii('D'), Ascii('X'), Ascii('T'), Ascii('1'))
  const Dxt2Code: nat := FourCC(Ascii('D'), Ascii('X'), Ascii('T'), Ascii('2'))
  const Dxt3Code: nat := FourCC(Ascii('D'), Ascii('X'), Ascii('T'), Ascii('3'))
  const Dxt4Code: nat := FourCC(Ascii('D'), Ascii('X'), Ascii('T'), Ascii('4'))
  const Dxt5Code: nat := FourCC(Ascii('D'), Ascii('X'), Ascii('T'), Ascii('5'))

  /** The unsigned little-endian word at `off`. */
  function Word(file: seq<byte>, off: nat): (r: nat)
    requires off + 4 <= |file|
    ensures r < Word32
  {
    FourCC(file[off], file[off + 1], file[off + 2], file[off + 3])
  }

  /** The word at `off` is a FourCC exactly when the four bytes there spell it. */
  lemma WordSpells(file: seq<byte>, off: nat, c0: byte, c1: byte, c2: byte, c3: byte)
    requires off + 4 <= |file|
    ensures Word(file, off) == FourCC(c0, c1, c2, c3) <==> file[off..off + 4] == [c0, c1, c2, c3]
  {
    if Word(file, off) == FourCC(c0, c1, c2, c3) {
      FourCCInjective(file[off], file[off + 1], file[off + 2], file[off + 3], c0, c1, c2, c3);
    }
  }

  /** An unsigned word stored into an `int`: the upper half wraps to negative. */
  function Signed(u: nat): (r: int)
    requires u < Word32
    ensures -0x8000_0000 <= r < 0x8000_0000
    ensures r % Word32 == u
  {
    if u < 0x8000_0000 then u else u - Word32
  }

  // ---------------------------------------------------------------------
  // The header

  /** The header fields' byte offsets and the start of the pixel data. */
  const HeightOffset: nat := 12
  const WidthOffset: nat := 16
  const LinearSizeOffset: nat := 20
  const MipMapCountOffset: nat := 28
  const FourCCOffset: nat := 84
  const PixelDataOffset: nat := 128

  /** The three compressed formats, named by their OpenGL enums. */
  datatype Format = Dxt1 | Dxt3 | Dxt5

  /** `GL_COMPRESSED_RGBA_S3TC_DXT{1,3,5}_EXT` from EXT_texture_compression_s3tc. */
  function GlEnum(f: Format): nat
  {
    match f
    case Dxt1 => 0x83F1
    case Dxt3 => 0x83F2
    case Dxt5 => 0x83F3
  }

  datatype DdsData = DdsData(
    width: int, height: int, components: nat, format: Format, numMipMaps: int,
    bufferSize: nat, pixels: seq<byte>)

  datatype LoadError =
    | CannotOpen          // the file does not open
    | NotDds              // the first four bytes are not "DDS "
    | UnsupportedFourCC   // anything but DXT1, DXT3 and DXT5
    | NegativeLength      // the buffer size does not fit an int: the allocation throws
    | Overrun             // the mip levels need more bytes than were read

  /** The format a FourCC names, if it is one that is accepted. */
  function FormatOf(code: nat): Option<Format>
  {
    if code == Dxt1Code then Some(Dxt1)
    else if code == Dxt3Code then Some(Dxt3)
    else if code == Dxt5Code then Some(Dxt5)
    else None
  }

  /** DXT2 and DXT4 (premultiplied alpha) are not accepted; the three others are. */
  lemma AcceptedCodes()
    ensures FormatOf(Dxt2Code).None? && FormatOf(Dxt4Code).None?
    ensures FormatOf(Dxt1Code) == Some(Dxt1) && FormatOf(Dxt3Code) == Some(Dxt3) && FormatOf(Dxt5Code) == Some(Dxt5)
  {
    assert Dxt1Code == 0x3154_5844 && Dxt2Code == 0x3254_5844 && Dxt3Code == 0x3354_5844;
    assert Dxt4Code == 0x3454_5844 && Dxt5Code == 0x3554_5844;
  }

  /** The header's length multiplier when there are mip levels. */
  function Factor(f: Format): nat
  {
    if f == Dxt1 then 2 else 4
  }

  /** `(mipMapCount > 1) ? linearSize * factor : linearSize`, in unsigned arithmetic. */
  function BufferSize(linearSize: nat, mipMapCount: nat, f: Format): (r: nat)
    requires linearSize < Word32
    ensures r < Word32
  {
    if mipMapCount > 1 then linearSize * Factor(f) % Word32 else linearSize
  }

  /** The first four bytes spell "DDS ". */
  predicate HasMagic(file: seq<byte>)
    requires |file| >= 4
  {
    file[0] == Ascii('D') && file[1] == Ascii('D') && file[2] == Ascii('S') && file[3] == Ascii(' ')
  }

  /** The bytes `fread` gets from offset 128 on, at most `size` of them. */
  function PixelBytes(file: seq<byte>, size: nat): (r: seq<byte>)
    ensures |r| == if |file| <= PixelDataOffset then 0
                   else if |file| - PixelDataOffset <= size then |file| - PixelDataOffset
                   else size
    ensures forall i :: 0 <= i < |r| ==> r[i] == file[PixelDataOffset + i]
  {
    if |file| <= PixelDataOffset then []
    else if |file| - PixelDataOffset <= size then file[PixelDataOffset..]
    else file[PixelDataOffset..PixelDataOffset + size]
  }

  /**
   * `ReadCompressedTexture`. The file must hold the header words it reads
   * (through offset 88); shorter files leave them unread in the source.
   */
  function ReadCompressedTexture(file: Option<seq<byte>>): (r: Result<DdsData, LoadError>)
    requires file.Some? ==> |file.value| >= FourCCOffset + 4
    ensures file.None? ==> r == Err(CannotOpen)
    ensures file.Some? ==>
      var f := file.value;
      (r == Err(NotDds) <==> !HasMagic(f)) &&
      (r == Err(UnsupportedFourCC) <==> HasMagic(f) && FormatOf(Word(f, FourCCOffset)).None?) &&
      (r.Ok? ==> FormatOf(Word(f, FourCCOffset)) == Some(r.value.format))
    ensures r.Ok? ==>
      var f, d := file.value, r.value;
      d.width == Signed(Word(f, WidthOffset)) && d.height == Signed(Word(f, HeightOffset)) &&
      d.numMipMaps == Signed(Word(f, MipMapCountOffset)) &&
      d.components == (if d.format == Dxt1 then 3 else 4) &&
      d.bufferSize == BufferSize(Word(f, LinearSizeOffset), Word(f, MipMapCountOffset), d.format) &&
      d.bufferSize < 0x8000_0000 &&
      d.pixels == PixelBytes(f, d.bufferSize)
  {
    if file.None? then Err(CannotOpen)
    else
      var f := file.value;
      if !HasMagic(f) then Err(NotDds)
      else
        var code := Word(f, FourCCOffset);
        var linearSize := Word(f, LinearSizeOffset);
        var mipMapCount := Word(f, MipMapCountOffset);
        var width := Word(f, WidthOffset);
        var height := Word(f, HeightOffset);
        match FormatOf(code)
        case None => Err(UnsupportedFourCC)
        case Some(format) =>
          var size := Signed(BufferSize(linearSize, mipMapCount, format));
          if size < 0 then Err(NegativeLength)
          else
            Ok(DdsData(Signed(width), Signed(height), if code == Dxt1Code then 3 else 4, format,
                       Signed(mipMapCount), size, PixelBytes(f, size)))
  }

  // ---------------------------------------------------------------------
  // The mip chain

  /** C's `/` on `int`: truncation toward zero. */
  function Quot(a: int, b: nat): int
    requires b > 0
  {
    if a >= 0 then a / b else -((-a) / b)
  }

  /** `iBlockSize`: 8 bytes per 4x4 block for DXT1, 16 otherwise. */
  function BlockSize(f: Format): nat
  {
    if f == Dxt1 then 8 else 16
  }

  /** A mip count below 2 is treated as one level. */
  function LevelCount(numMipMaps: int): nat
  {
    if numMipMaps < 2 then 1 else numMipMaps
  }

  /** A dimension after `k` halvings. */
  function Halved(w: int, k: nat): int
  {
    if k == 0 then w else Quot(Halved(w, k - 1), 2)
  }

  /** The bytes of a `w` by `h` level: whole 4x4 blocks. */
  function LevelSize(w: int, h: int, block: nat): int
  {
    Quot(w + 3, 4) * Quot(h + 3, 4) * block
  }

  /** The bytes of level `k` of a `w` by `h` image. */
  function SizeAt(w: int, h: int, block: nat, k: nat): int
  {
    LevelSize(Halved(w, k), Halved(h, k), block)
  }

  /** Where level `k` starts: the sizes of the levels before it, summed. */
  function OffsetAt(w: int, h: int, block: nat, k: nat): int
  {
    if k == 0 then 0 else OffsetAt(w, h, block, k - 1) + SizeAt(w, h, block, k - 1)
  }

  /** The arguments of one `glCompressedTexImage2D` call. */
  datatype Upload = Upload(level: nat, width: int, height: int, size: int, offset: int)

  function UploadAt(w: int, h: int, block: nat, k: nat): Upload
  {
    Upload(k, Halved(w, k), Halved(h, k), SizeAt(w, h, block, k), OffsetAt(w, h, block, k))
  }

  /** The first `n` uploads of a `w` by `h` image. */
  function Uploads(w: int, h: int, block: nat, n: nat): (r: seq<Upload>)
    ensures |r| == n
  {
    seq(n, k requires 0 <= k < n => UploadAt(w, h, block, k))
  }

  /** The mip loop of `LoadTexture`. */
  method UploadLevels(d: DdsData) returns (uploads: seq<Upload>)
    ensures uploads == Uploads(d.width, d.height, BlockSize(d.format), LevelCount(d.numMipMaps))
  {
    var block := BlockSize(d.format);
    var count := if d.numMipMaps < 2 then 1 else d.numMipMaps;
    var offset := 0;
    var width, height := d.width, d.height;
    uploads := [];
    for i := 0 to count
      invariant width == Halved(d.width, i) && height == Halved(d.height, i)
      invariant offset == OffsetAt(d.width, d.height, block, i)
      invariant uploads == Uploads(d.width, d.height, block, i)
    {
      var size := Quot(width + 3, 4) * Quot(height + 3, 4) * block;
      uploads := uploads + [Upload(i, width, height, size, offset)];
      offset := offset + size;
      width := Quot(width, 2);
      height := Quot(height, 2);
    }
  }

  /** Consecutive levels sit back to back, starting at the buffer's front. */
  lemma BackToBack(w: int, h: int, block: nat, n: nat, k: nat)
    requires k + 1 < n
    ensures Uploads(w, h, block, n)[0].offset == 0
    ensures var u := Uploads(w, h, block, n);
      u[k + 1].offset == u[k].offset + u[k].size &&
      u[k + 1].width == Quot(u[k].width, 2) && u[k + 1].height == Quot(u[k].height, 2)
  {
  }

  /** For a non-negative dimension, halving `k` times divides by `2^k`. */
  lemma {:induction false} HalvedIsDivision(w: nat, k: nat)
    ensures Halved(w, k) == w / Pow2(k)
  {
    if k > 0 {
      HalvedIsDivision(w, k - 1);
      DivStep(w, Pow2(k - 1), Halved(w, k - 1));
    }
  }

  lemma DivStep(w: nat, p: nat, h: int)
    requires p > 0 && h == w / p
    ensures Quot(h, 2) == w / (2 * p)
  {
    DivDiv(w, p);
    assert p * 2 == 2 * p;
  }

  lemma DivDiv(w: nat, p: nat)
    requires p > 0
    ensures w / p / 2 == w / (p * 2)
  {
    var q, r := w / p, w % p;
    var q2, r2 := q / 2, q % 2;
    assert w == q * p + r;
    assert q == q2 * 2 + r2;
    assert q * p == q2 * (p * 2) + r2 * p by {
      assert q * p == (q2 * 2 + r2) * p;
    }
    assert 0 <= r2 * p + r < p * 2 by {
      assert r2 * p <= p;
    }
    DivUnique(w, p * 2, q2, r2 * p + r);
  }

  lemma DivUnique(w: nat, m: nat, q: nat, r: nat)
    requires m > 0 && r < m && w == q * m + r
    ensures w / m == q
  {
    var q', r' := w / m, w % m;
    assert q' * m + r' == q * m + r;
    if q' < q {
      Distribute(q - q', q', m);
      AtLeastOnce(q - q', m);
    } else if q' > q {
      Distribute(q' - q, q, m);
      AtLeastOnce(q' - q, m);
    }
  }

  lemma Distribute(a: nat, b: nat, m: nat)
    ensures (a + b) * m == a * m + b * m
  {
  }

  lemma AtLeastOnce(a: nat, m: nat)
    requires a >= 1
    ensures a * m >= m
  {
  }

  function Pow2(k: nat): (r: nat)
    ensures r > 0
  {
    if k == 0 then 1 else 2 * Pow2(k - 1)
  }

  /** The bytes all `n` levels need. */
  function Needed(w: int, h: int, block: nat, n: nat): int
  {
    OffsetAt(w, h, block, n)
  }

  /** Non-negative dimensions give levels that fit inside what all `n` levels need. */
  lemma {:induction false} LevelsGrow(w: nat, h: nat, block: nat, k: nat, n: nat)
    requires k < n
    ensures 0 <= OffsetAt(w, h, block, k)
    ensures OffsetAt(w, h, block, k) + SizeAt(w, h, block, k) <= Needed(w, h, block, n)
    decreases n
  {
    OffsetNatural(w, h, block, k);
    if k < n - 1 {
      LevelsGrow(w, h, block, k, n - 1);
      SizeNatural(w, h, block, n - 1);
    }
  }

  lemma {:induction false} OffsetNatural(w: nat, h: nat, block: nat, k: nat)
    ensures OffsetAt(w, h, block, k) >= 0
  {
    if k > 0 {
      OffsetNatural(w, h, block, k - 1);
      SizeNatural(w, h, block, k - 1);
    }
  }

  lemma SizeNatural(w: nat, h: nat, block: nat, k: nat)
    ensures SizeAt(w, h, block, k) >= 0
  {
    HalvedNatural(w, k);
    HalvedNatural(h, k);
    var a, b := Quot(Halved(w, k) + 3, 4), Quot(Halved(h, k) + 3, 4);
    assert a >= 0 && b >= 0;
    ProductNatural(a, b, block);
  }

  lemma ProductNatural(a: int, b: int, c: int)
    requires a >= 0 && b >= 0 && c >= 0
    ensures a * b * c >= 0
  {
    assert a * b >= 0;
  }

  lemma {:induction false} HalvedNatural(w: nat, k: nat)
    ensures Halved(w, k) >= 0
  {
    if k > 0 {
      HalvedNatural(w, k - 1);
    }
  }

  // ---------------------------------------------------------------------
  // Loading

  /** What the graphics library is given: the format, the size and the levels. */
  datatype Texture = Texture(format: Format, width: int, height: int, uploads: seq<Upload>)

  /**
   * `LoadTexture` as written: every level is uploaded from its offset in
   * the pixel buffer, whether or not the buffer reaches that far.
   */
  method LoadTexture(file: Option<seq<byte>>) returns (r: Result<Texture, LoadError>)
    requires file.Some? ==> |file.value| >= FourCCOffset + 4
    ensures r.Err? <==> ReadCompressedTexture(file).Err?
    ensures r.Ok? ==> var d := ReadCompressedTexture(file).value;
      r.value == Texture(d.format, d.width, d.height,
                         Uploads(d.width, d.height, BlockSize(d.format), LevelCount(d.numMipMaps)))
  {
    var data := ReadCompressedTexture(file);
    if data.Err? {
      return Err(data.error);
    }
    var d := data.value;
    var uploads := UploadLevels(d);
    r := Ok(Texture(d.format, d.width, d.height, uploads));
  }

  /**
   * A 4x4 DXT1 image with a linear size of 8 and three mip levels: the
   * buffer holds 16 bytes, the levels ask for 24.
   */
  lemma ShortBuffer()
    ensures BufferSize(8, 3, Dxt1) == 16
    ensures Needed(4, 4, BlockSize(Dxt1), LevelCount(3)) == 24
    ensures !Inside(Uploads(4, 4, BlockSize(Dxt1), LevelCount(3)), BufferSize(8, 3, Dxt1))
  {
    assert SizeAt(4, 4, 8, 0) == 8;
    assert SizeAt(4, 4, 8, 1) == 8;
    assert SizeAt(4, 4, 8, 2) == 8;
    assert Uploads(4, 4, 8, 3)[2] == UploadAt(4, 4, 8, 2);
  }

  /**
   * `LoadTexture` with the missing check: the load fails when the levels
   * need more bytes than were read, so that every upload lies inside the
   * pixel buffer.
   */
  method LoadTextureChecked(file: Option<seq<byte>>) returns (r: Result<Texture, LoadError>)
    requires file.Some? ==> |file.value| >= FourCCOffset + 4
    ensures ReadCompressedTexture(file).Err? ==> r == Err(ReadCompressedTexture(file).error)
    ensures ReadCompressedTexture(file).Ok? ==> var d := ReadCompressedTexture(file).value;
      var n := LevelCount(d.numMipMaps);
      (r.Ok? <==> Needed(d.width, d.height, BlockSize(d.format), n) <= |d.pixels|) &&
      (r.Ok? ==> r.value == Texture(d.format, d.width, d.height, Uploads(d.width, d.height, BlockSize(d.format), n)))
    ensures r.Ok? ==> var d := ReadCompressedTexture(file).value;
      d.width >= 0 && d.height >= 0 ==> Inside(r.value.uploads, |d.pixels|)
  {
    var data := ReadCompressedTexture(file);
    if data.Err? {
      return Err(data.error);
    }
    var d := data.value;
    var uploads := UploadLevels(d);
    var last := uploads[|uploads| - 1];
    LastEnd(d.width, d.height, BlockSize(d.format), |uploads|);
    if last.offset + last.size > |d.pixels| {
      return Err(Overrun);
    }
    r := Ok(Texture(d.format, d.width, d.height, uploads));
    if d.width >= 0 && d.height >= 0 {
      AllInside(d.width, d.height, BlockSize(d.format), |uploads|, |d.pixels|);
    }
  }

  /** The last level ends where all levels' bytes end. */
  lemma LastEnd(w: int, h: int, block: nat, n: nat)
    requires n >= 1
    ensures var u := Uploads(w, h, block, n)[n - 1]; u.offset + u.size == Needed(w, h, block, n)
  {
  }

  /** Every upload reads bytes `offset` up to `offset + size` of a buffer of `length`. */
  predicate Inside(uploads: seq<Upload>, length: nat)
  {
    forall k :: 0 <= k < |uploads| ==> 0 <= uploads[k].offset && uploads[k].offset + uploads[k].size <= length
  }

  /** When the buffer holds what all levels need, each level lies inside it. */
  lemma AllInside(w: nat, h: nat, block: nat, n: nat, length: nat)
    requires Needed(w, h, block, n) <= length
    ensures Inside(Uploads(w, h, block, n), length)
  {
    forall k | 0 <= k < n
      ensures 0 <= OffsetAt(w, h, block, k) && OffsetAt(w, h, block, k) + SizeAt(w, h, block, k) <= length
    {
      LevelsGrow(w, h, block, k, n);
    }
  }
}
