/** Fixed-stride level-of-detail decimation (`decimateData` in the viewer):
    keep every `step`-th point, copying all four attribute arrays at the same
    source index, into freshly allocated arrays. */
module Decimation {
  import opened PointCloud

  /** `data.count || data.positions.length / 3`, a JavaScript number that is
      fractional when the positions array is not a whole number of points. */
  function SourceCount(d: Cloud): (c: real)
    ensures c >= 0.0
  {
    if d.count.Some? && d.count.value != 0 then d.count.value as real
    else (|d.positions| as real) / 3.0
  }

  /** `Math.ceil`. */
  function Ceil(x: real): int
  {
    -((-x).Floor)
  }

  /** The early return: no budget (0 or undefined), or already within it. */
  predicate KeepsInput(d: Cloud, maxPoints: nat)
  {
    maxPoints == 0 || SourceCount(d) <= maxPoints as real
  }

  /** `step = Math.ceil(count / maxPoints)`. */
  function Stride(d: Cloud, maxPoints: nat): (step: nat)
    requires !KeepsInput(d, maxPoints)
    ensures step >= 2
    ensures step as real >= SourceCount(d) / maxPoints as real
  {
    var c, m := SourceCount(d), maxPoints as real;
    assert c / m > 1.0 by {
      assert (c / m) * m == c;
    }
    Ceil(c / m)
  }

  /** `newCount = Math.floor(count / step)`. */
  function KeptCount(d: Cloud, maxPoints: nat): nat
    requires !KeepsInput(d, maxPoints)
  {
    (SourceCount(d) / Stride(d, maxPoints) as real).Floor
  }

  /** The three slots of destination point `j` read the three slots of source
      point `j * step`; `undefinedAs` is what an out-of-range read stores. */
  function Gather3<T>(src: seq<T>, n: nat, step: nat, undefinedAs: T): (r: seq<T>)
    ensures |r| == 3 * n
  {
    if n == 0 then []
    else
      var i := (n - 1) * step;
      Gather3(src, n - 1, step, undefinedAs)
      + [At(src, 3 * i, undefinedAs), At(src, 3 * i + 1, undefinedAs), At(src, 3 * i + 2, undefinedAs)]
  }

  function GatherSizes(src: seq<u16>, n: nat, step: nat): (r: seq<u16>)
    ensures |r| == n
  {
    seq(n, j => At(src, j * step, 0))
  }

  /** What `decimateData(data, maxPoints)` returns; the decimated object has
      the four arrays and `count` only (no `activeCount`, no bounding box). */
  function Decimated(d: Cloud, maxPoints: nat): Cloud
  {
    if KeepsInput(d, maxPoints) then d
    else
      var step := Stride(d, maxPoints);
      var n := KeptCount(d, maxPoints);
      Cloud(Gather3(d.positions, n, step, NaN32), Gather3(d.normals, n, step, NaN32),
            Gather3(d.colors, n, step, 0), GatherSizes(d.sizes, n, step),
            Some(n), None, None, None)
  }

  /** Slot `3 * j + k` of a gathered array is slot `3 * (j * step) + k` of the source. */
  lemma {:induction false} Gather3At<T>(src: seq<T>, n: nat, step: nat, undefinedAs: T, j: nat, k: nat)
    requires j < n && k < 3
    ensures Gather3(src, n, step, undefinedAs)[3 * j + k] == At(src, 3 * (j * step) + k, undefinedAs)
  {
    if j < n - 1 {
      Gather3At(src, n - 1, step, undefinedAs, j, k);
    }
  }

  /** While `j < newCount`, the source point `j * step` is below `count`, so the
      loop guard `i < count` never stops the copy early. */
  lemma StrideStaysInside(count: real, step: nat, n: nat, j: nat)
    requires step >= 1 && n as real <= count / step as real && j < n
    ensures (j * step) as real < count
  {
    assert (j + 1) as real <= count / step as real;
    assert ((j + 1) * step) as real == (j + 1) as real * step as real;
    assert (j + 1) as real * step as real <= (count / step as real) * step as real;
    assert (count / step as real) * step as real == count;
  }

  lemma NextStride(j: nat, step: nat)
    ensures (j + 1) * step == j * step + step
  {
  }

  /** The three element writes `dst[q + k] = src[p + k]`, k = 0, 1, 2. */
  method CopyTriple<T>(dst: array<T>, q: nat, src: seq<T>, p: int, undefinedAs: T)
    requires q + 3 <= dst.Length
    modifies dst
    ensures dst[..q + 3] == old(dst[..q]) + [At(src, p, undefinedAs), At(src, p + 1, undefinedAs), At(src, p + 2, undefinedAs)]
  {
    dst[q] := At(src, p, undefinedAs);
    dst[q + 1] := At(src, p + 1, undefinedAs);
    dst[q + 2] := At(src, p + 2, undefinedAs);
    assert dst[..q + 3] == dst[..q] + [dst[q], dst[q + 1], dst[q + 2]];
  }

  /** The first `j` destination points hold their source points. */
  ghost predicate Copied(positions: array<F32>, normals: array<F32>, colors: array<byte>, sizes: array<u16>,
                         d: Cloud, j: nat, step: nat)
    reads positions, normals, colors, sizes
  {
    3 * j <= positions.Length && 3 * j <= normals.Length && 3 * j <= colors.Length && j <= sizes.Length
    && positions[..3 * j] == Gather3(d.positions, j, step, NaN32)
    && normals[..3 * j] == Gather3(d.normals, j, step, NaN32)
    && colors[..3 * j] == Gather3(d.colors, j, step, 0)
    && sizes[..j] == GatherSizes(d.sizes, j, step)
  }

  /** One iteration of the copy loop: destination point `j` from source point `i`. */
  method CopyPoint(positions: array<F32>, normals: array<F32>, colors: array<byte>, sizes: array<u16>,
                   d: Cloud, i: nat, j: nat, step: nat)
    requires i == j * step && Copied(positions, normals, colors, sizes, d, j, step)
    requires positions != normals
    requires 3 * j + 3 <= positions.Length && 3 * j + 3 <= normals.Length
    requires 3 * j + 3 <= colors.Length && j + 1 <= sizes.Length
    modifies positions, normals, colors, sizes
    ensures Copied(positions, normals, colors, sizes, d, j + 1, step)
  {
    var p, q := i * 3, j * 3;
    CopyTriple(positions, q, d.positions, p, NaN32);
    CopyTriple(normals, q, d.normals, p, NaN32);
    CopyTriple(colors, q, d.colors, p, 0);
    sizes[j] := At(d.sizes, i, 0);
    assert sizes[..j + 1] == sizes[..j] + [sizes[j]];
    Gather3Next(d.positions, j, step, NaN32);
    Gather3Next(d.normals, j, step, NaN32);
    Gather3Next(d.colors, j, step, 0);
  }

  lemma Gather3Next<T>(src: seq<T>, j: nat, step: nat, undefinedAs: T)
    ensures var i := j * step;
            Gather3(src, j + 1, step, undefinedAs) == Gather3(src, j, step, undefinedAs)
              + [At(src, i * 3, undefinedAs), At(src, i * 3 + 1, undefinedAs), At(src, i * 3 + 2, undefinedAs)]
  {
  }

  method Decimate(d: Cloud, maxPoints: nat) returns (r: Cloud)
    ensures r == Decimated(d, maxPoints)
  {
    var count := SourceCount(d);
    if maxPoints == 0 || count <= maxPoints as real {
      return d;
    }
    var step := Stride(d, maxPoints);
    var newCount := KeptCount(d, maxPoints);

    var positions := new F32[newCount * 3];
    var normals := new F32[newCount * 3];
    var colors := new byte[newCount * 3];
    var sizes := new u16[newCount];

    var i, j := 0, 0;
    while i as real < count && j < newCount
      invariant 0 <= j <= newCount && i == j * step
      invariant Copied(positions, normals, colors, sizes, d, j, step)
      decreases newCount - j
    {
      CopyPoint(positions, normals, colors, sizes, d, i, j, step);
      NextStride(j, step);
      i, j := i + step, j + 1;
    }
    if j < newCount {
      StrideStaysInside(count, step, newCount, j);
    }
    assert positions[..] == positions[..3 * j];
    assert normals[..] == normals[..3 * j];
    assert colors[..] == colors[..3 * j];
    assert sizes[..] == sizes[..j];
    r := Cloud(positions[..], normals[..], colors[..], sizes[..], Some(newCount), None, None, None);
  }

  /** The decimated cloud never exceeds its budget; when the input is cut, the
      output holds exactly `newCount` points in every array and carries
      `count` but no `activeCount` and no bounding box. */
  lemma DecimatedWithinBudget(d: Cloud, maxPoints: nat)
    requires maxPoints > 0
    ensures SourceCount(Decimated(d, maxPoints)) <= maxPoints as real
    ensures !KeepsInput(d, maxPoints) ==>
              var n := KeptCount(d, maxPoints);
              Holds(Decimated(d, maxPoints), n) && Decimated(d, maxPoints).count == Some(n)
              && n <= maxPoints
              && Decimated(d, maxPoints).activeCount.None?
              && Decimated(d, maxPoints).bboxMin.None? && Decimated(d, maxPoints).bboxMax.None?
  {
    if !KeepsInput(d, maxPoints) {
      var n := KeptCount(d, maxPoints);
      KeptWithinBudget(d, maxPoints);
      DecimatedShape(d, maxPoints);
      var r := Decimated(d, maxPoints);
      assert SourceCount(r) <= n as real by {
        if n == 0 {
          assert |r.positions| == 0;
        }
      }
    }
  }

  /** `newCount <= maxPoints`, because `step * maxPoints >= count`. */
  lemma KeptWithinBudget(d: Cloud, maxPoints: nat)
    requires !KeepsInput(d, maxPoints)
    ensures KeptCount(d, maxPoints) <= maxPoints
  {
    var c, m, step := SourceCount(d), maxPoints as real, Stride(d, maxPoints);
    assert step as real * m >= c by {
      assert step as real >= c / m;
      assert (c / m) * m == c;
    }
    QuotientAtMost(c, step as real, m);
  }

  /** A cut cloud holds `newCount` points in every array and says so in `count`. */
  lemma DecimatedShape(d: Cloud, maxPoints: nat)
    requires !KeepsInput(d, maxPoints)
    ensures var n := KeptCount(d, maxPoints);
            Holds(Decimated(d, maxPoints), n) && Decimated(d, maxPoints).count == Some(n)
  {
  }

  lemma QuotientAtMost(c: real, s: real, m: real)
    requires s > 0.0 && s * m >= c
    ensures c / s <= m
  {
    assert (c / s) * s == c;
  }

  /** Every output point comes from an active source point (`j * step < count`),
      in strictly increasing source order. */
  lemma DecimatedSourcesActive(d: Cloud, maxPoints: nat, j: nat)
    requires !KeepsInput(d, maxPoints) && j < KeptCount(d, maxPoints)
    ensures (j * Stride(d, maxPoints)) as real < SourceCount(d)
    ensures j * Stride(d, maxPoints) < (j + 1) * Stride(d, maxPoints)
  {
    StrideStaysInside(SourceCount(d), Stride(d, maxPoints), KeptCount(d, maxPoints), j);
  }

  /** Correspondence: destination point `j` carries the position, normal, colour
      and size of source point `i = j * step`, all four from the same `i`. When
      the source arrays hold at least `count` points, no read falls outside them. */
  lemma DecimatedCorrespondence(d: Cloud, maxPoints: nat, j: nat, k: nat)
    requires !KeepsInput(d, maxPoints) && j < KeptCount(d, maxPoints) && k < 3
    ensures var r, i := Decimated(d, maxPoints), j * Stride(d, maxPoints);
            r.positions[3 * j + k] == At(d.positions, 3 * i + k, NaN32)
            && r.normals[3 * j + k] == At(d.normals, 3 * i + k, NaN32)
            && r.colors[3 * j + k] == At(d.colors, 3 * i + k, 0)
            && r.sizes[j] == At(d.sizes, i, 0)
  {
    var n, step := KeptCount(d, maxPoints), Stride(d, maxPoints);
    Gather3At(d.positions, n, step, NaN32, j, k);
    Gather3At(d.normals, n, step, NaN32, j, k);
    Gather3At(d.colors, n, step, 0, j, k);
  }

  /** When the source arrays hold at least `count` points, none of the reads
      of the copy falls outside them: the output is made of source values only. */
  lemma DecimatedCopiesSource(d: Cloud, maxPoints: nat, n: nat, j: nat, k: nat)
    requires Holds(d, n) && SourceCount(d) <= n as real
    requires !KeepsInput(d, maxPoints) && j < KeptCount(d, maxPoints) && k < 3
    ensures var r, i := Decimated(d, maxPoints), j * Stride(d, maxPoints);
            i < n
            && r.positions[3 * j + k] == d.positions[3 * i + k]
            && r.normals[3 * j + k] == d.normals[3 * i + k]
            && r.colors[3 * j + k] == d.colors[3 * i + k]
            && r.sizes[j] == d.sizes[i]
  {
    DecimatedCorrespondence(d, maxPoints, j, k);
    DecimatedSourcesActive(d, maxPoints, j);
  }

  /** Four points with a budget of two: step 2, two points kept, namely source
      points 0 and 2. */
  lemma DecimateFourToTwo(d: Cloud)
    requires Holds(d, 4) && (d.count == None || d.count == Some(4))
    ensures !KeepsInput(d, 2) && Stride(d, 2) == 2 && KeptCount(d, 2) == 2
    ensures var r := Decimated(d, 2);
            r.positions == d.positions[0..3] + d.positions[6..9]
            && r.normals == d.normals[0..3] + d.normals[6..9]
            && r.colors == d.colors[0..3] + d.colors[6..9]
            && r.sizes == [d.sizes[0], d.sizes[2]]
            && r.count == Some(2)
  {
    assert SourceCount(d) == 4.0;
    assert Stride(d, 2) == 2;
    assert KeptCount(d, 2) == 2;
    assert Gather3(d.positions, 1, 2, NaN32) == [] + d.positions[0..3];
    assert Gather3(d.normals, 1, 2, NaN32) == [] + d.normals[0..3];
    assert Gather3(d.colors, 1, 2, 0) == [] + d.colors[0..3];
  }
}
