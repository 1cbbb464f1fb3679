/** What the loader makes of the files the writer produces. */
module GspRoundTrip {
  import opened PointCloud
  import opened GspFormat
  import opened GspEncoder
  import opened GspLoader

  /** Arrays `write_gsp` turns into a file the loader can agree with: one row
      of each attribute per position, and a count the header can hold. */
  predicate Consistent(positions: seq<Row3>, normals: seq<Row3>, colors: seq<Rgb>, sizes: seq<u16>)
  {
    0 < |positions| < CountLimit && |normals| == |positions| && |colors| == |positions| && |sizes| == |positions|
  }

  /** The cloud the written arrays describe, as the browser would hold it. */
  function Written(positions: seq<Row3>, normals: seq<Row3>, colors: seq<Rgb>, sizes: seq<u16>): Cloud
  {
    Cloud(Flat(positions), Flat(normals), RgbBytes(colors), sizes, None, None, None, None)
  }

  /** Each region of a written file holds the block written for it, at the
      offset the loader computes from the count in the header. */
  lemma FileRegions(positions: seq<Row3>, normals: seq<Row3>, colors: seq<Rgb>, sizes: seq<u16>)
    requires Consistent(positions, normals, colors, sizes)
    ensures var b, c := GspFile(positions, normals, colors, sizes), |positions|;
      |b| == FileSize(c) && DeclaredCount(b) == c
      && WordsAt(b, HeaderSize, 3 * c) == Flat(positions)
      && WordsAt(b, NormalsOffset(c), 3 * c) == Flat(normals)
      && b[ColorsOffset(c)..ColorsOffset(c) + 3 * c] == RgbBytes(colors)
      && HalfWordsAt(b, SizesOffset(c), c) == sizes
  {
    var c := |positions|;
    var h, p, n, k, s := Header(positions), WordsBytes(Flat(positions)), WordsBytes(Flat(normals)),
      RgbBytes(colors), HalfWordsBytes(sizes);
    var b := GspFile(positions, normals, colors, sizes);
    Regroup5(h, p, n, k, s);
    GspFileHeader(positions, normals, colors, sizes);
    WordsInBuffer(b, h, Flat(positions), n + k + s, HeaderSize, 3 * c);
    WordsInBuffer(b, h + p, Flat(normals), k + s, NormalsOffset(c), 3 * c);
    BlockInBuffer(b, h + p + n, k, s, ColorsOffset(c), ColorsOffset(c) + 3 * c);
    HalfWordsInBuffer(b, h + p + n + k, sizes, [], SizesOffset(c), c);
  }

  /** Files with an even number of points load back to exactly what was written. */
  lemma RoundTrip(positions: seq<Row3>, normals: seq<Row3>, colors: seq<Rgb>, sizes: seq<u16>)
    requires Consistent(positions, normals, colors, sizes) && |positions| % 2 == 0
    ensures Decode(GspFile(positions, normals, colors, sizes)) == Ok(Written(positions, normals, colors, sizes))
  {
    FileRegions(positions, normals, colors, sizes);
    RegionAlignment(|positions|);
  }

  /** Every file with an odd number of points is rejected by the loader as
      written: its sizes region starts at an odd byte offset, on which a
      Uint16Array cannot be laid. A one-point file (61 bytes) is the smallest. */
  lemma OddCountRejected(positions: seq<Row3>, normals: seq<Row3>, colors: seq<Rgb>, sizes: seq<u16>)
    requires Consistent(positions, normals, colors, sizes) && |positions| % 2 == 1
    ensures Decode(GspFile(positions, normals, colors, sizes)) == Err(RegionRejected(Sizes, OffsetNotAligned))
  {
    FileRegions(positions, normals, colors, sizes);
    RegionAlignment(|positions|);
  }

  /** With the sizes read wherever they start, every written file loads back. */
  lemma RoundTripAligned(positions: seq<Row3>, normals: seq<Row3>, colors: seq<Rgb>, sizes: seq<u16>)
    requires Consistent(positions, normals, colors, sizes)
    ensures DecodeAligned(GspFile(positions, normals, colors, sizes)) == Ok(Written(positions, normals, colors, sizes))
  {
    FileRegions(positions, normals, colors, sizes);
    RegionAlignment(|positions|);
  }

  /** Point `i` of a loaded file is row `i` of each written array. */
  lemma WrittenPoint(positions: seq<Row3>, normals: seq<Row3>, colors: seq<Rgb>, sizes: seq<u16>, i: nat, axis: nat)
    requires Consistent(positions, normals, colors, sizes) && i < |positions| && axis < 3
    ensures var d := Written(positions, normals, colors, sizes);
      Holds(d, |positions|)
      && d.positions[3 * i + axis] == Coord(positions[i], axis)
      && d.normals[3 * i + axis] == Coord(normals[i], axis)
      && d.colors[3 * i] == colors[i].r && d.colors[3 * i + 1] == colors[i].g && d.colors[3 * i + 2] == colors[i].b
      && d.sizes[i] == sizes[i]
  {
    FlatAt(positions, i, axis);
    FlatAt(normals, i, axis);
    RgbBytesAt(colors, i, 0);
    RgbBytesAt(colors, i, 1);
    RgbBytesAt(colors, i, 2);
  }
}
