/** The backend writer of the `.gsp` container (`write_gsp`): a 32-byte header
    (magic, point count, bounding box) followed by the positions, normals,
    colours and sizes blocks, each the raw bytes of its array. */
module GspEncoder {
  import opened PointCloud
  import opened GspFormat

  /** One row of an `(N, 3)` float32 array. */
  datatype Row3 = Row3(x: F32, y: F32, z: F32)

  /** One row of the `(N, 3)` uint8 colour array, after quantization. */
  datatype Rgb = Rgb(r: byte, g: byte, b: byte)

  function Coord(p: Row3, axis: nat): F32
    requires axis < 3
  {
    if axis == 0 then p.x else if axis == 1 then p.y else p.z
  }

  /** The numeric order of non-NaN float32 values, as an integer key on the
      sign-magnitude bit pattern (both zeros map to 0). */
  function F32Key(w: F32): int
  {
    if w < 0x8000_0000 then w as int else -(w as int - 0x8000_0000)
  }

  /** `positions.min(axis=0)[axis]`. */
  function AxisMin(rows: seq<Row3>, axis: nat): (m: F32)
    requires |rows| > 0 && axis < 3
    ensures exists i :: 0 <= i < |rows| && Coord(rows[i], axis) == m
    ensures forall i :: 0 <= i < |rows| ==> F32Key(m) <= F32Key(Coord(rows[i], axis))
  {
    if |rows| == 1 then Coord(rows[0], axis)
    else
      var init := rows[..|rows| - 1];
      var m := AxisMin(init, axis);
      var v := Coord(rows[|rows| - 1], axis);
      assert forall i :: 0 <= i < |init| ==> rows[i] == init[i];
      if F32Key(v) < F32Key(m) then v else m
  }

  /** `positions.max(axis=0)[axis]`. */
  function AxisMax(rows: seq<Row3>, axis: nat): (m: F32)
    requires |rows| > 0 && axis < 3
    ensures exists i :: 0 <= i < |rows| && Coord(rows[i], axis) == m
    ensures forall i :: 0 <= i < |rows| ==> F32Key(Coord(rows[i], axis)) <= F32Key(m)
  {
    if |rows| == 1 then Coord(rows[0], axis)
    else
      var init := rows[..|rows| - 1];
      var m := AxisMax(init, axis);
      var v := Coord(rows[|rows| - 1], axis);
      assert forall i :: 0 <= i < |init| ==> rows[i] == init[i];
      if F32Key(v) > F32Key(m) then v else m
  }

  /** `bbox_min` and `bbox_max` as the three words `struct.pack("3f", ...)`
      writes for each. */
  function BboxMinWords(rows: seq<Row3>): seq<F32>
    requires |rows| > 0
  {
    [AxisMin(rows, 0), AxisMin(rows, 1), AxisMin(rows, 2)]
  }

  function BboxMaxWords(rows: seq<Row3>): seq<F32>
    requires |rows| > 0
  {
    [AxisMax(rows, 0), AxisMax(rows, 1), AxisMax(rows, 2)]
  }

  /** The row-major element order of an `(N, 3)` array. */
  function Flat(rows: seq<Row3>): (ws: seq<F32>)
    ensures |ws| == 3 * |rows|
  {
    if rows == [] then []
    else
      var p := rows[|rows| - 1];
      Flat(rows[..|rows| - 1]) + [p.x, p.y, p.z]
  }

  /** Element `3 * i + axis` of the flattened array is coordinate `axis` of row `i`. */
  lemma {:induction false} FlatAt(rows: seq<Row3>, i: nat, axis: nat)
    requires i < |rows| && axis < 3
    ensures Flat(rows)[3 * i + axis] == Coord(rows[i], axis)
  {
    var init := rows[..|rows| - 1];
    if i < |init| {
      FlatAt(init, i, axis);
      assert init[i] == rows[i];
    }
  }

  function RgbBytes(cs: seq<Rgb>): (b: seq<byte>)
    ensures |b| == 3 * |cs|
  {
    if cs == [] then []
    else
      var c := cs[|cs| - 1];
      RgbBytes(cs[..|cs| - 1]) + [c.r, c.g, c.b]
  }

  /** Element `3 * i + k` of the colour block is channel `k` of colour `i`. */
  lemma {:induction false} RgbBytesAt(cs: seq<Rgb>, i: nat, k: nat)
    requires i < |cs| && k < 3
    ensures RgbBytes(cs)[3 * i + k] == (if k == 0 then cs[i].r else if k == 1 then cs[i].g else cs[i].b)
  {
    var init := cs[..|cs| - 1];
    if i < |init| {
      RgbBytesAt(init, i, k);
      assert init[i] == cs[i];
    }
  }

  /** The largest count `struct.pack("I", count)` accepts, plus one. */
  const CountLimit: nat := 0x1_0000_0000

  function Header(positions: seq<Row3>): (h: seq<byte>)
    requires 0 < |positions| < CountLimit
    ensures |h| == HeaderSize
  {
    Magic + U32Le(|positions| as u32) + WordsBytes(BboxMinWords(positions)) + WordsBytes(BboxMaxWords(positions))
  }

  /** The whole file `write_gsp` leaves behind when it succeeds. */
  function GspFile(positions: seq<Row3>, normals: seq<Row3>, colors: seq<Rgb>, sizes: seq<u16>): seq<byte>
    requires 0 < |positions| < CountLimit
  {
    Header(positions) + WordsBytes(Flat(positions)) + WordsBytes(Flat(normals)) + RgbBytes(colors) + HalfWordsBytes(sizes)
  }

  /** The file `open(filepath, "wb")` returns; only the bytes in it are modelled. */
  class ByteSink {
    var bytes: seq<byte>

    constructor (existing: seq<byte>)
      ensures bytes == existing
    {
      bytes := existing;
    }

    /** Opening for writing in binary mode truncates the file. */
    method Truncate()
      modifies this
      ensures bytes == []
    {
      bytes := [];
    }

    method Write(data: seq<byte>)
      modifies this
      ensures bytes == old(bytes) + data
    {
      bytes := bytes + data;
    }
  }

  datatype WriteError =
    | EmptyPositions   // `positions.min(axis=0)` raises on a zero-size array, before the file is opened
    | CountTooLarge    // `struct.pack("I", count)` raises after the magic is written

  method WriteGsp(positions: seq<Row3>, normals: seq<Row3>, colors: seq<Rgb>, sizes: seq<u16>, f: ByteSink)
    returns (r: Result<(), WriteError>)
    modifies f
    ensures |positions| == 0 ==> r == Err(EmptyPositions) && f.bytes == old(f.bytes)
    ensures |positions| >= CountLimit ==> r == Err(CountTooLarge) && f.bytes == Magic
    ensures 0 < |positions| < CountLimit ==>
      r == Ok(()) && f.bytes == GspFile(positions, normals, colors, sizes)
  {
    var count := |positions|;
    if count == 0 {
      return Err(EmptyPositions);
    }
    var bboxMin := BboxMinWords(positions);
    var bboxMax := BboxMaxWords(positions);
    f.Truncate();
    f.Write(Magic);
    if count >= CountLimit {
      return Err(CountTooLarge);
    }
    ghost var start := f.bytes;
    f.Write(U32Le(count as u32));
    f.Write(WordsBytes(bboxMin));
    f.Write(WordsBytes(bboxMax));
    ghost var header := f.bytes;
    f.Write(WordsBytes(Flat(positions)));
    f.Write(WordsBytes(Flat(normals)));
    f.Write(RgbBytes(colors));
    f.Write(HalfWordsBytes(sizes));
    GspFileParts(positions, normals, colors, sizes, start, header, f.bytes);
    r := Ok(());
  }

  lemma GspFileParts(positions: seq<Row3>, normals: seq<Row3>, colors: seq<Rgb>, sizes: seq<u16>,
                     start: seq<byte>, header: seq<byte>, file: seq<byte>)
    requires 0 < |positions| < CountLimit
    requires start == [] + Magic
    requires header == start + U32Le(|positions| as u32) + WordsBytes(BboxMinWords(positions)) + WordsBytes(BboxMaxWords(positions))
    requires file == header + WordsBytes(Flat(positions)) + WordsBytes(Flat(normals)) + RgbBytes(colors) + HalfWordsBytes(sizes)
    ensures file == GspFile(positions, normals, colors, sizes)
  {
    assert start == Magic;
  }

  /** The file is the header and the four blocks back to back: 29 bytes a point. */
  lemma GspFileSize(positions: seq<Row3>, normals: seq<Row3>, colors: seq<Rgb>, sizes: seq<u16>)
    requires 0 < |positions| < CountLimit
    requires |normals| == |colors| == |sizes| == |positions|
    ensures |GspFile(positions, normals, colors, sizes)| == HeaderSize + 29 * |positions|
  {
  }

  /** The header reads back as the magic, the point count and the bounding box. */
  lemma HeaderFields(positions: seq<Row3>)
    requires 0 < |positions| < CountLimit
    ensures var h := Header(positions);
      h[..4] == Magic && ReadU32Le(h, 4) as nat == |positions|
      && WordsAt(h, 8, 3) == BboxMinWords(positions) && WordsAt(h, 20, 3) == BboxMaxWords(positions)
  {
    var count := U32Le(|positions| as u32);
    var mins := WordsBytes(BboxMinWords(positions));
    var maxs := WordsBytes(BboxMaxWords(positions));
    Regroup4(Magic, count, mins, maxs);
    WordAtWordsBytes(Magic, [|positions| as u32], mins + maxs, 0);
    assert WordsBytes([|positions| as u32]) == count;
    WordsAtWordsBytes(Magic + count, BboxMinWords(positions), maxs);
    WordsAtWordsBytes(Magic + count + mins, BboxMaxWords(positions), []);
  }

  /** The same fields, read from the whole file. */
  lemma GspFileHeader(positions: seq<Row3>, normals: seq<Row3>, colors: seq<Rgb>, sizes: seq<u16>)
    requires 0 < |positions| < CountLimit
    ensures var b := GspFile(positions, normals, colors, sizes);
      |b| >= HeaderSize && b[..4] == Magic && ReadU32Le(b, 4) as nat == |positions|
      && WordsAt(b, 8, 3) == BboxMinWords(positions) && WordsAt(b, 20, 3) == BboxMaxWords(positions)
  {
    var h := Header(positions);
    var rest := WordsBytes(Flat(positions)) + WordsBytes(Flat(normals)) + RgbBytes(colors) + HalfWordsBytes(sizes);
    Regroup5(h, WordsBytes(Flat(positions)), WordsBytes(Flat(normals)), RgbBytes(colors), HalfWordsBytes(sizes));
    HeaderFields(positions);
    SliceOfConcatLeft(h, rest, 0, 4);
    ReadU32LePrefix(h, rest, 4);
    WordsAtPrefix(h, rest, 8, 3);
    WordsAtPrefix(h, rest, 20, 3);
  }

  /** Every position lies inside the bounding box written to the header
      (ordered as numbers, for non-NaN coordinates). */
  lemma BboxEnclosesPositions(positions: seq<Row3>, i: nat, axis: nat)
    requires i < |positions| && axis < 3
    ensures F32Key(BboxMinWords(positions)[axis]) <= F32Key(Coord(positions[i], axis))
    ensures F32Key(Coord(positions[i], axis)) <= F32Key(BboxMaxWords(positions)[axis])
  {
  }
}
