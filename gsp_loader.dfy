/** The browser loader of the `.gsp` container (`loadGSP`): it reads the point
    count from the header and lays four typed-array views over the file's
    bytes, one after the other. It reads neither the magic nor the bounding
    box, and it checks nothing itself; every failure is a RangeError thrown by
    the DataView read or by a typed-array constructor. */
module GspLoader {
  import opened PointCloud
  import opened GspFormat

  datatype Region = Positions | Normals | Colors | Sizes

  datatype LoadError =
    | HeaderOutOfRange                              // `dv.getUint32(4, true)` on fewer than 8 bytes
    | RegionRejected(region: Region, cause: ViewError)

  /** The point count stored at byte 4. */
  function DeclaredCount(buf: seq<byte>): nat
    requires |buf| >= 8
  {
    ReadU32Le(buf, 4) as nat
  }

  /** Byte offsets of the four regions and the end of the last: 12, 12, 3 and 2 bytes a point. */
  function NormalsOffset(count: nat): nat { HeaderSize + 12 * count }
  function ColorsOffset(count: nat): nat { HeaderSize + 24 * count }
  function SizesOffset(count: nat): nat { HeaderSize + 27 * count }
  function FileSize(count: nat): nat { HeaderSize + 29 * count }

  /** What the header and the first three regions decode to. */
  datatype Front = Front(count: nat, positions: seq<F32>, normals: seq<F32>, colors: seq<byte>)

  function DecodeFront(buf: seq<byte>): (r: Result<Front, LoadError>)
    ensures r.Ok? ==> |buf| >= 8 && r.value.count == DeclaredCount(buf)
    ensures r.Ok? ==> (|r.value.positions| == 3 * r.value.count && |r.value.normals| == 3 * r.value.count
      && |r.value.colors| == 3 * r.value.count)
  {
    if |buf| < 8 then Err(HeaderOutOfRange)
    else
      var count := DeclaredCount(buf);
      match Float32View(buf, HeaderSize, 3 * count)
      case Err(e) => Err(RegionRejected(Positions, e))
      case Ok(positions) =>
        match Float32View(buf, NormalsOffset(count), 3 * count)
        case Err(e) => Err(RegionRejected(Normals, e))
        case Ok(normals) =>
          match Uint8View(buf, ColorsOffset(count), 3 * count)
          case Err(e) => Err(RegionRejected(Colors, e))
          case Ok(colors) => Ok(Front(count, positions, normals, colors))
  }

  function LoadedCloud(f: Front, sizes: seq<u16>): Cloud
  {
    Cloud(f.positions, f.normals, f.colors, sizes, None, None, None, None)
  }

  /** `loadGSP` on the fetched bytes, as written: the sizes view starts at
      `32 + 27 * count`, which is odd when the count is. */
  function Decode(buf: seq<byte>): (r: Result<Cloud, LoadError>)
    ensures r.Ok? ==> |buf| >= 8 && Holds(r.value, DeclaredCount(buf))
    ensures r.Ok? ==> r.value.count.None? && r.value.activeCount.None? && r.value.bboxMin.None? && r.value.bboxMax.None?
  {
    match DecodeFront(buf)
    case Err(e) => Err(e)
    case Ok(f) =>
      match Uint16View(buf, SizesOffset(f.count), f.count)
      case Err(e) => Err(RegionRejected(Sizes, e))
      case Ok(sizes) => Ok(LoadedCloud(f, sizes))
  }

  /** The loader with the sizes read wherever they start (a DataView read per
      value, or a copy of the region into a fresh buffer). */
  function DecodeAligned(buf: seq<byte>): (r: Result<Cloud, LoadError>)
    ensures r.Ok? ==> |buf| >= 8 && Holds(r.value, DeclaredCount(buf))
    ensures r.Ok? ==> r.value.count.None? && r.value.activeCount.None? && r.value.bboxMin.None? && r.value.bboxMax.None?
  {
    match DecodeFront(buf)
    case Err(e) => Err(e)
    case Ok(f) =>
      match Uint16LeReads(buf, SizesOffset(f.count), f.count)
      case Err(e) => Err(RegionRejected(Sizes, e))
      case Ok(sizes) => Ok(LoadedCloud(f, sizes))
  }

  /** `loadGSP` after the fetch: the running byte offset of the source. */
  method LoadGsp(buffer: seq<byte>) returns (r: Result<Cloud, LoadError>)
    ensures r == Decode(buffer)
  {
    if |buffer| < 8 {
      return Err(HeaderOutOfRange);
    }
    var count := ReadU32Le(buffer, 4) as nat;
    assert count * 3 == 3 * count && count * 12 == 12 * count;
    var offset := HeaderSize;
    var positions := Float32View(buffer, offset, count * 3);
    if positions.Err? {
      return Err(RegionRejected(Positions, positions.error));
    }
    offset := offset + count * 12;
    assert offset == NormalsOffset(count);
    var normals := Float32View(buffer, offset, count * 3);
    if normals.Err? {
      return Err(RegionRejected(Normals, normals.error));
    }
    offset := offset + count * 12;
    assert offset == ColorsOffset(count);
    var colors := Uint8View(buffer, offset, count * 3);
    if colors.Err? {
      return Err(RegionRejected(Colors, colors.error));
    }
    assert DecodeFront(buffer) == Ok(Front(count, positions.value, normals.value, colors.value));
    offset := offset + count * 3;
    assert offset == SizesOffset(count);
    var sizes := Uint16View(buffer, offset, count);
    if sizes.Err? {
      return Err(RegionRejected(Sizes, sizes.error));
    }
    return Ok(Cloud(positions.value, normals.value, colors.value, sizes.value, None, None, None, None));
  }

  /** The float regions always start on a 4-byte boundary; the sizes region
      starts on a 2-byte boundary exactly when the count is even. */
  lemma RegionAlignment(c: nat)
    ensures HeaderSize % 4 == 0 && NormalsOffset(c) % 4 == 0
    ensures SizesOffset(c) % 2 == c % 2
  {
    var m := 8 + 3 * c;
    assert NormalsOffset(c) == 4 * m;
    var h := 16 + 13 * c;
    assert SizesOffset(c) == 2 * h + c;
  }

  /** The loader accepts a buffer exactly when it holds the whole payload the
      header declares and that count is even; trailing bytes are ignored. */
  lemma DecodeSucceedsIff(buf: seq<byte>)
    ensures Decode(buf).Ok? <==>
      |buf| >= 8 && FileSize(DeclaredCount(buf)) <= |buf| && DeclaredCount(buf) % 2 == 0
  {
    if |buf| >= 8 {
      RegionAlignment(DeclaredCount(buf));
    }
  }

  /** Which RangeError a rejected buffer raises: the first region that does
      not fit, except that an odd count fails on the sizes offset first. */
  lemma DecodeRejection(buf: seq<byte>)
    ensures |buf| < 8 ==> Decode(buf) == Err(HeaderOutOfRange)
    ensures |buf| >= 8 ==>
      var c := DeclaredCount(buf);
      (|buf| < NormalsOffset(c) ==> Decode(buf) == Err(RegionRejected(Positions, OutOfBounds)))
      && (NormalsOffset(c) <= |buf| < ColorsOffset(c) ==> Decode(buf) == Err(RegionRejected(Normals, OutOfBounds)))
      && (ColorsOffset(c) <= |buf| < SizesOffset(c) ==> Decode(buf) == Err(RegionRejected(Colors, OutOfBounds)))
      && (SizesOffset(c) <= |buf| && c % 2 == 1 ==> Decode(buf) == Err(RegionRejected(Sizes, OffsetNotAligned)))
      && (SizesOffset(c) <= |buf| < FileSize(c) && c % 2 == 0 ==> Decode(buf) == Err(RegionRejected(Sizes, OutOfBounds)))
  {
    if |buf| >= 8 {
      RegionAlignment(DeclaredCount(buf));
    }
  }

  /** Where each array of a decoded cloud comes from. */
  lemma DecodeLayout(buf: seq<byte>)
    requires Decode(buf).Ok?
    ensures var c, d := DeclaredCount(buf), Decode(buf).value;
      FileSize(c) <= |buf|
      && d.positions == WordsAt(buf, HeaderSize, 3 * c)
      && d.normals == WordsAt(buf, NormalsOffset(c), 3 * c)
      && d.colors == buf[ColorsOffset(c)..ColorsOffset(c) + 3 * c]
      && d.sizes == HalfWordsAt(buf, SizesOffset(c), c)
  {
  }

  /** The corrected loader accepts every buffer that holds the declared payload. */
  lemma DecodeAlignedSucceedsIff(buf: seq<byte>)
    ensures DecodeAligned(buf).Ok? <==> |buf| >= 8 && FileSize(DeclaredCount(buf)) <= |buf|
  {
    if |buf| >= 8 {
      RegionAlignment(DeclaredCount(buf));
    }
  }

  /** Wherever the loader as written succeeds, the corrected one agrees with it. */
  lemma DecodeAlignedAgrees(buf: seq<byte>)
    requires Decode(buf).Ok?
    ensures DecodeAligned(buf) == Decode(buf)
  {
  }

  lemma SameSuffixSlice<T>(a: seq<T>, b: seq<T>, from: nat, i: nat, j: nat)
    requires |a| == |b| && from <= |a| && a[from..] == b[from..]
    requires from <= i <= j <= |a|
    ensures a[i..j] == b[i..j]
  {
    forall k | i <= k < j ensures a[k] == b[k] {
      assert a[k] == a[from..][k - from];
      assert b[k] == b[from..][k - from];
    }
    assert a[i..j] == b[i..j];
  }

  /** Words read at or after byte `from` depend only on the bytes from there on. */
  lemma {:induction false} WordsAtSameSuffix(a: seq<byte>, b: seq<byte>, from: nat, off: nat, n: nat)
    requires |a| == |b| && from <= |a| && a[from..] == b[from..]
    requires from <= off && off + 4 * n <= |a|
    ensures WordsAt(a, off, n) == WordsAt(b, off, n)
  {
    if n > 0 {
      WordsAtSameSuffix(a, b, from, off, n - 1);
      var o := off + 4 * (n - 1);
      SameSuffixSlice(a, b, from, o, o + 4);
      ReadU32LeOfSlice(a, o);
      ReadU32LeOfSlice(b, o);
    }
  }

  lemma {:induction false} HalfWordsAtSameSuffix(a: seq<byte>, b: seq<byte>, from: nat, off: nat, n: nat)
    requires |a| == |b| && from <= |a| && a[from..] == b[from..]
    requires from <= off && off + 2 * n <= |a|
    ensures HalfWordsAt(a, off, n) == HalfWordsAt(b, off, n)
  {
    if n > 0 {
      HalfWordsAtSameSuffix(a, b, from, off, n - 1);
      var o := off + 2 * (n - 1);
      SameSuffixSlice(a, b, from, o, o + 2);
      ReadU16LeOfSlice(a, o);
      ReadU16LeOfSlice(b, o);
    }
  }

  /** The loader never looks at the magic (bytes 0-3) or at the bounding box
      (bytes 8-31): two buffers that differ only there decode alike. */
  lemma DecodeIgnoresMagicAndBbox(a: seq<byte>, b: seq<byte>)
    requires |a| == |b| >= HeaderSize
    requires a[4..8] == b[4..8] && a[HeaderSize..] == b[HeaderSize..]
    ensures Decode(a) == Decode(b)
  {
    ReadU32LeOfSlice(a, 4);
    ReadU32LeOfSlice(b, 4);
    var c := DeclaredCount(a);
    assert DeclaredCount(b) == c;
    if FileSize(c) <= |a| {
      RegionsIgnoreHeader(a, b, c);
    } else {
      assert DecodeFront(a).Err? <==> DecodeFront(b).Err?;
    }
  }

  /** Within the declared payload, all four views of two buffers that agree
      from byte 32 on are equal. */
  lemma RegionsIgnoreHeader(a: seq<byte>, b: seq<byte>, c: nat)
    requires |a| == |b| >= HeaderSize && a[HeaderSize..] == b[HeaderSize..]
    requires DeclaredCount(a) == DeclaredCount(b) == c && FileSize(c) <= |a|
    ensures DecodeFront(a) == DecodeFront(b)
    ensures Uint16View(a, SizesOffset(c), c) == Uint16View(b, SizesOffset(c), c)
  {
    WordsAtSameSuffix(a, b, HeaderSize, HeaderSize, 3 * c);
    WordsAtSameSuffix(a, b, HeaderSize, NormalsOffset(c), 3 * c);
    SameSuffixSlice(a, b, HeaderSize, ColorsOffset(c), ColorsOffset(c) + 3 * c);
    HalfWordsAtSameSuffix(a, b, HeaderSize, SizesOffset(c), c);
  }
}
