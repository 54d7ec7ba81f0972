/**
 * CreateICOFromPNGData: a single-image icon file (ICONDIR, one
 * ICONDIRENTRY, then the PNG bytes unchanged), written as the two structs
 * lie in memory on a little-endian machine.
 */
module IcoFile {
  import opened Wrappers

  type byte = x: int | 0 <= x < 0x100
  type uint16 = x: int | 0 <= x < 0x1_0000
  type uint32 = x: int | 0 <= x < 0x1_0000_0000

  /** ICONDIR: reserved, resource type (1 for icons), number of images. */
  datatype IconHeader = IconHeader(reservedZero: uint16, kind: uint16, imageCount: uint16)

  /** ICONDIRENTRY. */
  datatype IconDirectoryEntry = IconDirectoryEntry(
    width: byte, height: byte, colorCount: byte, reserved: byte,
    planes: uint16, bitCount: uint16, bytesInRes: uint32, imageOffset: uint32)

  /** sizeof(IconHeader) and sizeof(IconDirectoryEntry): no padding in either. */
  const HeaderSize: nat := 6
  const EntrySize: nat := 16

  /** The largest width or height an icon image may have. */
  const MaxDimension: int := 256

  function Le16(x: uint16): seq<byte>
  {
    [x % 0x100, x / 0x100]
  }

  function Le16Value(b: seq<byte>): uint16
    requires |b| == 2
  {
    b[0] as int + 0x100 * (b[1] as int)
  }

  function Le32(x: uint32): seq<byte>
  {
    Le16(x % 0x1_0000) + Le16(x / 0x1_0000)
  }

  function Le32Value(b: seq<byte>): uint32
    requires |b| == 4
  {
    Le16Value(b[..2]) as int + 0x1_0000 * (Le16Value(b[2..]) as int)
  }

  lemma Le32RoundTrip(x: uint32)
    ensures |Le32(x)| == 4 && Le32Value(Le32(x)) == x
  {
    assert Le32(x)[..2] == Le16(x % 0x1_0000);
    assert Le32(x)[2..] == Le16(x / 0x1_0000);
  }

  function HeaderBytes(h: IconHeader): (r: seq<byte>)
    ensures |r| == HeaderSize
  {
    Le16(h.reservedZero) + Le16(h.kind) + Le16(h.imageCount)
  }

  function EntryBytes(e: IconDirectoryEntry): (r: seq<byte>)
    ensures |r| == EntrySize
  {
    [e.width, e.height, e.colorCount, e.reserved] + Le16(e.planes) + Le16(e.bitCount) +
    Le32(e.bytesInRes) + Le32(e.imageOffset)
  }

  function ParseHeader(b: seq<byte>): IconHeader
    requires |b| == HeaderSize
  {
    IconHeader(Le16Value(b[0..2]), Le16Value(b[2..4]), Le16Value(b[4..6]))
  }

  function ParseEntry(b: seq<byte>): IconDirectoryEntry
    requires |b| == EntrySize
  {
    IconDirectoryEntry(b[0], b[1], b[2], b[3], Le16Value(b[4..6]), Le16Value(b[6..8]),
                       Le32Value(b[8..12]), Le32Value(b[12..16]))
  }

  lemma HeaderRoundTrip(h: IconHeader)
    ensures ParseHeader(HeaderBytes(h)) == h
  {
    var b := HeaderBytes(h);
    assert b[0..2] == Le16(h.reservedZero);
    assert b[2..4] == Le16(h.kind);
    assert b[4..6] == Le16(h.imageCount);
  }

  lemma EntryRoundTrip(e: IconDirectoryEntry)
    ensures ParseEntry(EntryBytes(e)) == e
  {
    var b := EntryBytes(e);
    var front := [e.width, e.height, e.colorCount, e.reserved] + Le16(e.planes) + Le16(e.bitCount);
    var sizeAt := front + Le32(e.bytesInRes);
    assert |front| == 8 && |sizeAt| == 12;
    assert b == sizeAt + Le32(e.imageOffset);
    assert b[4..6] == Le16(e.planes);
    assert b[6..8] == Le16(e.bitCount);
    assert b[8..12] == sizeAt[8..] == Le32(e.bytesInRes);
    assert b[12..16] == Le32(e.imageOffset);
    Le32RoundTrip(e.bytesInRes);
    Le32RoundTrip(e.imageOffset);
  }

  /** The ICONDIR the code writes: reserved 0, type 1, one image. */
  const IcoHeader: IconHeader := IconHeader(0, 1, 1)

  /**
   * The entry the code fills in: width and height keep their low byte, the
   * value-initialised colour count and reserved byte stay 0, one plane,
   * 32 bits per pixel, the image size as a DWORD, the image right after the entry.
   */
  function IconEntry(width: int, height: int, imageSize: nat): IconDirectoryEntry
  {
    IconDirectoryEntry(width % 0x100, height % 0x100, 0, 0, 1, 32,
                       imageSize % 0x1_0000_0000, HeaderSize + EntrySize)
  }

  /**
   * The icon file for a PNG of the given dimensions, or None when the call
   * returns false without writing: the data is no longer than the PNG
   * header the code peeks at (`peekSize` bytes), a dimension exceeds 256,
   * or the output file cannot be opened (`fileOpens` is false).
   */
  function CreateIcoFromPngData(image: seq<byte>, width: int, height: int, peekSize: nat, fileOpens: bool)
    : (r: Option<seq<byte>>)
    ensures r.None? <==> (|image| <= peekSize || width > MaxDimension || height > MaxDimension || !fileOpens)
    ensures r.Some? ==>
      var f := r.value;
      |f| == HeaderSize + EntrySize + |image| &&
      f[..6] == [0, 0, 1, 0, 1, 0] &&
      f[6] == width % 0x100 && f[7] == height % 0x100 && f[8] == 0 && f[9] == 0 &&
      f[10..14] == [1, 0, 32, 0] &&
      Le32Value(f[14..18]) == |image| % 0x1_0000_0000 &&
      f[18..22] == [22, 0, 0, 0] &&
      f[22..] == image
  {
    if |image| <= peekSize then None
    else if width > MaxDimension || height > MaxDimension then None
    else if !fileOpens then None
    else
      IcoLayout(image, width, height);
      Some(HeaderBytes(IcoHeader) + EntryBytes(IconEntry(width, height, |image|)) + image)
  }

  /** Where each field of the header and the entry lands in the written bytes. */
  lemma IcoLayout(image: seq<byte>, width: int, height: int)
    ensures var f := HeaderBytes(IcoHeader) + EntryBytes(IconEntry(width, height, |image|)) + image;
      |f| == HeaderSize + EntrySize + |image| &&
      f[..6] == [0, 0, 1, 0, 1, 0] &&
      f[6] == width % 0x100 && f[7] == height % 0x100 && f[8] == 0 && f[9] == 0 &&
      f[10..14] == [1, 0, 32, 0] &&
      Le32Value(f[14..18]) == |image| % 0x1_0000_0000 &&
      f[18..22] == [22, 0, 0, 0] &&
      f[22..] == image
  {
    var head := HeaderBytes(IcoHeader);
    var entry := EntryBytes(IconEntry(width, height, |image|));
    var f := head + entry + image;
    var size := Le32(|image| % 0x1_0000_0000);
    assert |size| == 4;
    assert entry == [width % 0x100, height % 0x100, 0, 0] + Le16(1) + Le16(32) + size + Le32(22);
    assert head == [0, 0, 1, 0, 1, 0];
    assert f[..6] == head;
    assert f[6..22] == entry;
    assert f[22..] == image;
    assert entry[..4] == [width % 0x100, height % 0x100, 0, 0];
    assert entry[4..8] == [1, 0, 32, 0];
    assert entry[8..12] == size;
    assert entry[12..16] == [22, 0, 0, 0];
    assert f[10..14] == entry[4..8];
    assert f[14..18] == entry[8..12] == size;
    Le32RoundTrip(|image| % 0x1_0000_0000);
    assert f[18..22] == entry[12..16];
  }

  /** One entry of an icon file and the image bytes it points at. */
  datatype IcoImage = IcoImage(entry: IconDirectoryEntry, image: seq<byte>)

  /** How an icon reader takes a single-image file apart. */
  function ParseIco(file: seq<byte>): Option<IcoImage>
  {
    if |file| < HeaderSize + EntrySize then None
    else
      var header := ParseHeader(file[..HeaderSize]);
      var entry := ParseEntry(file[HeaderSize..HeaderSize + EntrySize]);
      if header != IcoHeader || entry.imageOffset + entry.bytesInRes > |file| then None
      else Some(IcoImage(entry, file[entry.imageOffset..entry.imageOffset + entry.bytesInRes]))
  }

  /** An icon reader takes a stored 0 to mean 256. */
  function IconDimension(b: byte): int
  {
    if b == 0 then 256 else b
  }

  /**
   * Reading the written file back gives the entry and the PNG bytes
   * unchanged, and the stored dimensions read back as the PNG's own
   * (256 is stored as 0).
   */
  lemma IcoRoundTrip(image: seq<byte>, width: int, height: int, peekSize: nat)
    requires peekSize < |image| < 0x1_0000_0000
    requires 0 < width <= MaxDimension && 0 < height <= MaxDimension
    ensures var r := CreateIcoFromPngData(image, width, height, peekSize, true);
      r.Some? && ParseIco(r.value) == Some(IcoImage(IconEntry(width, height, |image|), image)) &&
      IconDimension(IconEntry(width, height, |image|).width) == width &&
      IconDimension(IconEntry(width, height, |image|).height) == height
  {
    var entry := IconEntry(width, height, |image|);
    var f := HeaderBytes(IcoHeader) + EntryBytes(entry) + image;
    assert f[..HeaderSize] == HeaderBytes(IcoHeader);
    assert f[HeaderSize..HeaderSize + EntrySize] == EntryBytes(entry);
    HeaderRoundTrip(IcoHeader);
    EntryRoundTrip(entry);
    assert f[22..22 + |image|] == image;
    StoredDimension(width);
    StoredDimension(height);
  }

  /** A dimension of 1..256 survives being cut to its low byte and read back. */
  lemma StoredDimension(d: int)
    requires 0 < d <= MaxDimension
    ensures IconDimension((d % 0x100) as byte) == d
  {
  }
}
