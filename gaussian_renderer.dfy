/** The splat renderer (`GaussianRenderer`): it builds one point geometry from
    the render data, sets its draw range, keeps the clip-plane uniforms of its
    three materials in step, resolves pointer hits on the pick points into a
    selection, and re-sorts the drawing order by view depth every half second. */
module GaussianRenderer {
  import opened PointCloud
  import Decimation
  import Viewer
  import GspLoader

  // ---------------------------------------------------------------- geometry

  /** The `BufferGeometry` shared by the three point passes. The attribute
      arrays are never written after construction; the draw range and the
      index are. */
  class Geometry {
    const positions: seq<F32>
    const normals: seq<F32>
    const colorFloat: seq<real>
    const sizeFloat: seq<real>
    var drawStart: nat
    /** `None` is the draw count a fresh geometry has (`Infinity`: everything). */
    var drawCount: Option<nat>
    var index: Option<seq<nat>>

    constructor (positions: seq<F32>, normals: seq<F32>, colorFloat: seq<real>, sizeFloat: seq<real>)
      ensures this.positions == positions && this.normals == normals
      ensures this.colorFloat == colorFloat && this.sizeFloat == sizeFloat
      ensures drawStart == 0 && drawCount == None && index == None
    {
      this.positions := positions;
      this.normals := normals;
      this.colorFloat := colorFloat;
      this.sizeFloat := sizeFloat;
      drawStart := 0;
      drawCount := None;
      index := None;
    }
  }

  /** The Uint8 to Float32 loop: every colour channel scaled into [0, 1]. */
  method ColorFloats(colors: seq<byte>) returns (r: seq<real>)
    ensures |r| == |colors|
    ensures forall i :: 0 <= i < |colors| ==> r[i] * 255.0 == colors[i] as real
    ensures forall i :: 0 <= i < |r| ==> 0.0 <= r[i] <= 1.0
  {
    var a := new real[|colors|];
    var i := 0;
    while i < |colors|
      invariant 0 <= i <= |colors|
      invariant forall k :: 0 <= k < i ==> a[k] * 255.0 == colors[k] as real
      invariant forall k :: 0 <= k < i ==> 0.0 <= a[k] <= 1.0
    {
      a[i] := colors[i] as real / 255.0;
      i := i + 1;
    }
    r := a[..];
  }

  /** The Uint16 to Float32 loop: stored sizes are radii in thousandths. */
  method SizeFloats(sizes: seq<u16>) returns (r: seq<real>)
    ensures |r| == |sizes|
    ensures forall i :: 0 <= i < |sizes| ==> r[i] * 1000.0 == sizes[i] as real
    ensures forall i :: 0 <= i < |r| ==> 0.0 <= r[i] <= 65.535
  {
    var a := new real[|sizes|];
    var i := 0;
    while i < |sizes|
      invariant 0 <= i <= |sizes|
      invariant forall k :: 0 <= k < i ==> a[k] * 1000.0 == sizes[k] as real
      invariant forall k :: 0 <= k < i ==> 0.0 <= a[k] <= 65.535
    {
      a[i] := sizes[i] as real / 1000.0;
      i := i + 1;
    }
    r := a[..];
  }

  /** No geometry without data or without a single position. */
  predicate HasGeometry(data: Option<Cloud>)
  {
    data.Some? && |data.value.positions| != 0
  }

  method BuildGeometry(data: Option<Cloud>) returns (g: Geometry?)
    ensures g == null <==> !HasGeometry(data)
    ensures g != null ==>
      fresh(g) && g.positions == data.value.positions && g.normals == data.value.normals
      && |g.colorFloat| == |data.value.colors| && |g.sizeFloat| == |data.value.sizes|
      && (forall i :: 0 <= i < |g.colorFloat| ==> g.colorFloat[i] * 255.0 == data.value.colors[i] as real)
      && (forall i :: 0 <= i < |g.sizeFloat| ==> g.sizeFloat[i] * 1000.0 == data.value.sizes[i] as real)
      && g.drawStart == 0 && g.drawCount == None && g.index == None
  {
    if !HasGeometry(data) {
      return null;
    }
    var d := data.value;
    var colorFloat := ColorFloats(d.colors);
    var sizeFloat := SizeFloats(d.sizes);
    g := new Geometry(d.positions, d.normals, colorFloat, sizeFloat);
  }

  // -------------------------------------------------------------- draw range

  /** `data?.activeCount ?? data?.count ?? 0`: unlike `||`, a present 0 is kept. */
  function DrawCount(data: Option<Cloud>): (n: nat)
    ensures data.Some? && data.value.activeCount.Some? ==> n == data.value.activeCount.value
    ensures data.Some? && data.value.activeCount.None? && data.value.count.Some? ==> n == data.value.count.value
    ensures data.None? || (data.value.activeCount.None? && data.value.count.None?) ==> n == 0
  {
    if data.Some? && data.value.activeCount.Some? then data.value.activeCount.value
    else if data.Some? && data.value.count.Some? then data.value.count.value
    else 0
  }

  method ApplyDrawRange(g: Geometry?, data: Option<Cloud>)
    modifies g
    ensures g != null ==> g.drawStart == 0 && g.drawCount == Some(DrawCount(data))
    ensures g != null ==> g.index == old(g.index)
  {
    if g == null {
      return;
    }
    g.drawStart := 0;
    g.drawCount := Some(DrawCount(data));
  }

  /** A decimated render copy draws exactly the points it holds. */
  lemma DecimatedDrawsKept(d: Cloud, budget: nat)
    requires !Decimation.KeepsInput(d, budget)
    ensures var r := Decimation.Decimated(d, budget);
            DrawCount(Some(r)) == Decimation.KeptCount(d, budget)
            && Holds(r, DrawCount(Some(r)))
  {
  }

  /** The draw range and the viewer's active count disagree on a present 0:
      the viewer falls through to `count`, the renderer draws nothing. */
  lemma ZeroActiveCountDrawsNothing(d: Cloud, c: nat)
    requires d.activeCount == Some(0) && d.count == Some(c) && c > 0
    ensures DrawCount(Some(d)) == 0 && Viewer.ActiveCount(d) == c
  {
  }

  /** A cloud straight out of the loader has neither `activeCount` nor
      `count`, so its draw range is empty until a decimated copy replaces it.
      Stated for the corrected loader, which accepts every written file; by
      `GspLoader.DecodeAlignedAgrees` it covers every buffer the loader as
      written accepts too. */
  lemma LoadedCloudDrawRange(buf: seq<byte>)
    requires GspLoader.DecodeAligned(buf).Ok?
    ensures DrawCount(Some(GspLoader.DecodeAligned(buf).value)) == 0
  {
  }

  // ---------------------------------------------------------------- clipping

  /** `clipAxis === "x" ? 0.0 : clipAxis === "y" ? 1.0 : 2.0`. */
  function ClipAxisValue(axis: string): (v: real)
    ensures v == 0.0 <==> axis == "x"
    ensures v == 1.0 <==> axis == "y"
    ensures v == 2.0 <==> axis != "x" && axis != "y"
  {
    if axis == "x" then 0.0 else if axis == "y" then 1.0 else 2.0
  }

  function ClipOn(enabled: bool): real
  {
    if enabled then 1.0 else 0.0
  }

  /** The fragment shader's choice of world coordinate for a `uClipAxis` value. */
  function ShaderClipCoordinate(axis: real, p: Vec3): real
  {
    if axis < 0.5 then p.x else if axis < 1.5 then p.y else p.z
  }

  /** The fragment shader's `discard` for a fragment at world position `p`. */
  predicate ShaderDiscards(enabled: real, axis: real, value: real, p: Vec3)
  {
    enabled > 0.5 && ShaderClipCoordinate(axis, p) > value
  }

  /** The coordinate an axis name designates, seen from the user's side. */
  function NamedCoordinate(axis: string, p: Vec3): real
  {
    match axis
    case "x" => p.x
    case "y" => p.y
    case _ => p.z
  }

  /** The section law: with the uniforms the renderer writes, a fragment is
      discarded exactly when clipping is on and its coordinate on the named
      axis exceeds the clip value. */
  lemma ClipSectionLaw(enabled: bool, axis: string, value: real, p: Vec3)
    ensures ShaderDiscards(ClipOn(enabled), ClipAxisValue(axis), value, p)
            <==> enabled && NamedCoordinate(axis, p) > value
  {
  }

  /** One `ShaderMaterial`. Only the uniforms the renderer updates are fields
      that change. */
  class Material {
    const pointScale: real
    const minSize: real
    const maxSize: real
    const densityBoost: real
    const sizeRef: real
    const depthWrite: bool
    var viewportHeight: real
    var near: real
    var far: real
    var fill: real
    var edgeBoost: real
    var clipEnabled: real
    var clipAxis: real
    var clipValue: real

    constructor (pointScale: real, minSize: real, maxSize: real, fill: real, edgeBoost: real,
                 densityBoost: real, depthWrite: bool)
      ensures this.pointScale == pointScale && this.minSize == minSize && this.maxSize == maxSize
      ensures this.fill == fill && this.edgeBoost == edgeBoost && this.densityBoost == densityBoost
      ensures this.depthWrite == depthWrite && sizeRef == 0.02
      ensures viewportHeight == 800.0 && near == 0.1 && far == 100.0
      ensures clipEnabled == 0.0 && clipAxis == 1.0 && clipValue == 0.0
    {
      this.pointScale := pointScale;
      this.minSize := minSize;
      this.maxSize := maxSize;
      this.fill := fill;
      this.edgeBoost := edgeBoost;
      this.densityBoost := densityBoost;
      this.depthWrite := depthWrite;
      sizeRef := 0.02;
      viewportHeight := 800.0;
      near := 0.1;
      far := 100.0;
      clipEnabled := 0.0;
      clipAxis := 1.0;
      clipValue := 0.0;
    }

    predicate Discards(p: Vec3)
      reads this
    {
      ShaderDiscards(clipEnabled, clipAxis, clipValue, p)
    }
  }

  /** The opaque first pass: large splats that write depth. */
  method NewFillMaterial() returns (m: Material)
    ensures fresh(m)
    ensures m.pointScale == 460.0 && m.minSize == 3.0 && m.maxSize == 28.0
    ensures m.fill == 3.4 && m.edgeBoost == 2.6 && m.densityBoost == 2.1 && m.depthWrite
    ensures m.clipEnabled == 0.0 && m.clipAxis == 1.0 && m.clipValue == 0.0
  {
    m := new Material(460.0, 3.0, 28.0, 3.4, 2.6, 2.1, true);
  }

  /** The detail pass: smaller splats, no depth writes. */
  method NewDetailMaterial() returns (m: Material)
    ensures fresh(m)
    ensures m.pointScale == 300.0 && m.minSize == 1.7 && m.maxSize == 10.5
    ensures m.fill == 1.6 && m.edgeBoost == 2.3 && m.densityBoost == 1.4 && !m.depthWrite
    ensures m.clipEnabled == 0.0 && m.clipAxis == 1.0 && m.clipValue == 0.0
  {
    m := new Material(300.0, 1.7, 10.5, 1.6, 2.3, 1.4, false);
  }

  /** The edge pass: the smallest splats, no depth writes. */
  method NewEdgeMaterial() returns (m: Material)
    ensures fresh(m)
    ensures m.pointScale == 250.0 && m.minSize == 1.4 && m.maxSize == 8.0
    ensures m.fill == 0.9 && m.edgeBoost == 3.0 && m.densityBoost == 1.1 && !m.depthWrite
    ensures m.clipEnabled == 0.0 && m.clipAxis == 1.0 && m.clipValue == 0.0
  {
    m := new Material(250.0, 1.4, 8.0, 0.9, 3.0, 1.1, false);
  }

  /** The uniform effect: viewport and camera range on all three materials,
      the fill and edge boosts on their own pass, and one clip setting shared
      by all three, so that every pass cuts the same section. */
  method SyncUniforms(fill: Material, detail: Material, edge: Material,
                      viewportHeight: real, near: real, far: real, edgeFillBoost: real,
                      clipEnabled: bool, clipAxis: string, clipValue: real)
    requires fill != detail && detail != edge && fill != edge
    modifies fill, detail, edge
    ensures fill.viewportHeight == detail.viewportHeight == edge.viewportHeight == viewportHeight
    ensures fill.near == detail.near == edge.near == near
    ensures fill.far == detail.far == edge.far == far
    ensures fill.fill == 3.2 * edgeFillBoost && edge.edgeBoost == 3.0 * edgeFillBoost
    ensures fill.edgeBoost == old(fill.edgeBoost) && detail.fill == old(detail.fill)
    ensures detail.edgeBoost == old(detail.edgeBoost) && edge.fill == old(edge.fill)
    ensures forall m :: m in {fill, detail, edge} ==>
      m.clipEnabled == ClipOn(clipEnabled) && m.clipAxis == ClipAxisValue(clipAxis) && m.clipValue == clipValue
    ensures forall p :: fill.Discards(p) <==> clipEnabled && NamedCoordinate(clipAxis, p) > clipValue
    ensures forall p :: detail.Discards(p) <==> fill.Discards(p)
    ensures forall p :: edge.Discards(p) <==> fill.Discards(p)
  {
    fill.viewportHeight, fill.near, fill.far := viewportHeight, near, far;
    detail.viewportHeight, detail.near, detail.far := viewportHeight, near, far;
    edge.viewportHeight, edge.near, edge.far := viewportHeight, near, far;
    fill.fill := 3.2 * edgeFillBoost;
    edge.edgeBoost := 3.0 * edgeFillBoost;
    var axisValue := ClipAxisValue(clipAxis);
    var clipOn := ClipOn(clipEnabled);
    fill.clipEnabled, fill.clipAxis, fill.clipValue := clipOn, axisValue, clipValue;
    detail.clipEnabled, detail.clipAxis, detail.clipValue := clipOn, axisValue, clipValue;
    edge.clipEnabled, edge.clipAxis, edge.clipValue := clipOn, axisValue, clipValue;
    forall p: Vec3
      ensures fill.Discards(p) <==> clipEnabled && NamedCoordinate(clipAxis, p) > clipValue
    {
      ClipSectionLaw(clipEnabled, clipAxis, clipValue, p);
    }
  }

  // ----------------------------------------------------------------- picking

  /** What `onPick` receives. An entry read past the end of an array is
      JavaScript `undefined` (`None`); the size is then `undefined / 1000`,
      which is NaN (`None`). */
  datatype Selection = Selection(index: nat, position: seq<Option<F32>>, color: seq<Option<byte>>, size: Option<real>)

  function Read<T>(s: seq<T>, k: nat): Option<T>
  {
    if k < |s| then Some(s[k]) else None
  }

  /** The selection for hit index `i` on the points of `src`. */
  function Selected(src: Cloud, i: nat): (s: Selection)
    ensures s.index == i && |s.position| == 3 && |s.color| == 3
    ensures forall k :: 0 <= k < 3 ==> (s.position[k].Some? <==> 3 * i + k < |src.positions|)
    ensures forall k :: 0 <= k < 3 ==> (s.color[k].Some? <==> 3 * i + k < |src.colors|)
    ensures forall k :: 0 <= k < 3 && 3 * i + k < |src.positions| ==> s.position[k].value == src.positions[3 * i + k]
    ensures forall k :: 0 <= k < 3 && 3 * i + k < |src.colors| ==> s.color[k].value == src.colors[3 * i + k]
    ensures s.size.Some? <==> i < |src.sizes|
    ensures s.size.Some? ==> s.size.value * 1000.0 == src.sizes[i] as real
  {
    var p := 3 * i;
    Selection(i,
              [Read(src.positions, p), Read(src.positions, p + 1), Read(src.positions, p + 2)],
              [Read(src.colors, p), Read(src.colors, p + 1), Read(src.colors, p + 2)],
              if i < |src.sizes| then Some(src.sizes[i] as real / 1000.0) else None)
  }

  /** `handlePointerDown`: nothing without a pick callback or a hit index;
      otherwise the selection is read from `pickData` when there is one and
      from `data` when there is not. */
  function Pick(data: Cloud, pickData: Option<Cloud>, hasOnPick: bool, hit: Option<nat>): (s: Option<Selection>)
    ensures s.Some? <==> hasOnPick && hit.Some?
    ensures s.Some? && pickData.Some? ==> s.value == Selected(pickData.value, hit.value)
    ensures s.Some? && pickData.None? ==> s.value == Selected(data, hit.value)
  {
    if !hasOnPick || hit.None? then None
    else Some(Selected(if pickData.Some? then pickData.value else data, hit.value))
  }

  /** A hit inside a cloud that holds its points reads that point whole. */
  lemma {:induction false} PickInside(src: Cloud, n: nat, i: nat)
    requires Holds(src, n) && i < n
    ensures var s := Selected(src, i);
            s.position == [Some(src.positions[3 * i]), Some(src.positions[3 * i + 1]), Some(src.positions[3 * i + 2])]
            && s.color == [Some(src.colors[3 * i]), Some(src.colors[3 * i + 1]), Some(src.colors[3 * i + 2])]
            && s.size == Some(src.sizes[i] as real / 1000.0)
  {
    assert 3 * i + 2 < 3 * n;
  }

  /** Hit `j` on the viewer's pick copy reports source point `j * step`:
      the same position, colour and size the full data holds there, under the
      index the pick points had. */
  lemma {:induction false} PickMapsToSource(d: Cloud, n: nat, j: nat)
    requires Holds(d, n) && Decimation.SourceCount(d) <= n as real
    requires !Decimation.KeepsInput(d, Viewer.PickBudget)
    requires j < Decimation.KeptCount(d, Viewer.PickBudget)
    ensures var pick := Viewer.PickData(Some(d), true);
            var i := j * Decimation.Stride(d, Viewer.PickBudget);
            i < n && pick.Some?
            && Pick(d, pick, true, Some(j)) == Some(Selected(d, i).(index := j))
  {
    var r := Decimation.Decimated(d, Viewer.PickBudget);
    var i := j * Decimation.Stride(d, Viewer.PickBudget);
    var m := Decimation.KeptCount(d, Viewer.PickBudget);
    assert Holds(r, m);
    Decimation.DecimatedCopiesSource(d, Viewer.PickBudget, n, j, 0);
    Decimation.DecimatedCopiesSource(d, Viewer.PickBudget, n, j, 1);
    Decimation.DecimatedCopiesSource(d, Viewer.PickBudget, n, j, 2);
    PickInside(r, m, j);
    PickInside(d, n, i);
  }

  /** Within the pick budget the pick copy is the data itself. */
  lemma PickWithinBudget(d: Cloud, hit: nat)
    requires Decimation.KeepsInput(d, Viewer.PickBudget)
    ensures Pick(d, Viewer.PickData(Some(d), true), true, Some(hit)) == Some(Selected(d, hit))
  {
  }

  // ------------------------------------------------------------- depth order

  /** The sort is skipped above this many points. */
  const SortLimit: nat := 300000

  /** Seconds between two sorts. */
  const SortInterval: real := 0.5

  /** `0, 1, ..., n - 1`. */
  function Iota(n: nat): (s: seq<nat>)
    ensures |s| == n
  {
    if n == 0 then [] else Iota(n - 1) + [n - 1]
  }

  lemma {:induction false} IotaAt(n: nat, k: nat)
    requires k < n
    ensures Iota(n)[k] == k
  {
    if k < n - 1 {
      IotaAt(n - 1, k);
    }
  }

  /** Every index below `n` occurs once in `Iota(n)`, and no other value occurs. */
  lemma {:induction false} IotaCounts(n: nat, k: nat)
    ensures multiset(Iota(n))[k] == if k < n then 1 else 0
  {
    if n > 0 {
      IotaCounts(n - 1, k);
      var last: nat := n - 1;
      assert multiset(Iota(n)) == multiset(Iota(n - 1)) + multiset{last};
    }
  }

  /** `depths[i]`: the stored view-space z of each whole point, under the
      model-view transform `viewZ` stands for. */
  function Depths(pos: seq<F32>, viewZ: (F32, F32, F32) -> real): (ds: seq<real>)
    ensures |ds| == |pos| / 3
  {
    seq(|pos| / 3, i requires 0 <= i < |pos| / 3 => viewZ(pos[3 * i], pos[3 * i + 1], pos[3 * i + 2]))
  }

  /** No index out of range and no depth increasing along the order. */
  ghost predicate NonIncreasing(ix: seq<nat>, ds: seq<real>)
  {
    (forall k :: 0 <= k < |ix| ==> ix[k] < |ds|)
    && forall p, q :: 0 <= p < q < |ix| ==> ds[ix[p]] >= ds[ix[q]]
  }

  /** A drawing order: a permutation of the point indices, nearest point first
      (view-space z is negative in front of the camera, so the largest stored
      depth is the nearest point). */
  ghost predicate DepthOrder(ix: seq<nat>, ds: seq<real>)
  {
    multiset(ix) == multiset(Iota(|ds|)) && NonIncreasing(ix, ds)
  }

  /** A depth order lists every point exactly once. */
  lemma DepthOrderIsPermutation(ix: seq<nat>, ds: seq<real>, k: nat)
    requires DepthOrder(ix, ds)
    ensures |ix| == |ds|
    ensures k < |ds| <==> k in ix
    ensures k < |ds| ==> multiset(ix)[k] == 1
  {
    IotaCounts(|ds|, k);
    assert |ix| == |multiset(ix)| == |multiset(Iota(|ds|))| == |ds|;
  }

  /** Its first entry is a point no other point is in front of, and
      consecutive entries never increase in depth. */
  lemma NearestFirst(ix: seq<nat>, ds: seq<real>)
    requires DepthOrder(ix, ds) && |ds| > 0
    ensures |ix| > 0 && forall k :: 0 <= k < |ds| ==> ds[ix[0]] >= ds[k]
    ensures forall k :: 0 <= k < |ix| - 1 ==> ds[ix[k]] >= ds[ix[k + 1]]
  {
    DepthOrderIsPermutation(ix, ds, 0);
    forall k | 0 <= k < |ds|
      ensures ds[ix[0]] >= ds[k]
    {
      DepthOrderIsPermutation(ix, ds, k);
      var q :| 0 <= q < |ix| && ix[q] == k;
      assert q == 0 || ds[ix[0]] >= ds[ix[q]];
    }
  }

  /** Exchanges two entries of the index array. */
  method Swap(a: array<nat>, x: nat, y: nat)
    requires x < a.Length && y < a.Length
    modifies a
    ensures a[x] == old(a[y]) && a[y] == old(a[x])
    ensures forall k :: 0 <= k < a.Length && k != x && k != y ==> a[k] == old(a[k])
    ensures multiset(a[..]) == multiset(old(a[..]))
  {
    a[x], a[y] := a[y], a[x];
  }

  /** Moves `a[i]` left past every entry of smaller depth, so that the first
      `i + 1` entries become non-increasing. */
  method Insert(a: array<nat>, ds: seq<real>, i: nat)
    requires i < a.Length
    requires forall k :: 0 <= k < a.Length ==> a[k] < |ds|
    requires forall p, q :: 0 <= p < q < i ==> ds[a[p]] >= ds[a[q]]
    modifies a
    ensures forall k :: 0 <= k < a.Length ==> a[k] < |ds|
    ensures forall p, q :: 0 <= p < q <= i ==> ds[a[p]] >= ds[a[q]]
    ensures forall k :: i < k < a.Length ==> a[k] == old(a[k])
    ensures multiset(a[..]) == multiset(old(a[..]))
  {
    var j := i;
    while j > 0 && ds[a[j - 1]] < ds[a[j]]
      invariant 0 <= j <= i
      invariant forall k :: 0 <= k < a.Length ==> a[k] < |ds|
      invariant forall p, q :: 0 <= p < q <= i && p != j && q != j ==> ds[a[p]] >= ds[a[q]]
      invariant forall q :: j < q <= i ==> ds[a[j]] > ds[a[q]]
      invariant forall k :: i < k < a.Length ==> a[k] == old(a[k])
      invariant multiset(a[..]) == multiset(old(a[..]))
    {
      Swap(a, j - 1, j);
      j := j - 1;
    }
    forall p, q | 0 <= p < q <= i
      ensures ds[a[p]] >= ds[a[q]]
    {
      if q == j && p < j - 1 {
        assert ds[a[p]] >= ds[a[j - 1]];
      }
    }
  }

  /** `indices.sort((a, b) => depths[b] - depths[a])`, as an insertion sort. */
  method SortByDepth(a: array<nat>, ds: seq<real>)
    requires forall k :: 0 <= k < a.Length ==> a[k] < |ds|
    modifies a
    ensures multiset(a[..]) == multiset(old(a[..]))
    ensures NonIncreasing(a[..], ds)
  {
    var i := 0;
    while i < a.Length
      invariant 0 <= i <= a.Length
      invariant forall k :: 0 <= k < a.Length ==> a[k] < |ds|
      invariant forall p, q :: 0 <= p < q < i ==> ds[a[p]] >= ds[a[q]]
      invariant multiset(a[..]) == multiset(old(a[..]))
    {
      Insert(a, ds, i);
      i := i + 1;
    }
  }

  /** The fill loop: each whole point's depth, and the identity order. */
  method DepthsAndIdentity(pos: seq<F32>, viewZ: (F32, F32, F32) -> real)
    returns (ds: seq<real>, indices: array<nat>)
    ensures fresh(indices)
    ensures ds == Depths(pos, viewZ) && indices[..] == Iota(|ds|)
    ensures forall k :: 0 <= k < indices.Length ==> indices[k] < |ds|
  {
    var n := |pos| / 3;
    indices := new nat[n];
    var depths := new real[n];
    var i := 0;
    while i < n
      invariant 0 <= i <= n
      invariant forall k :: 0 <= k < i ==> depths[k] == Depths(pos, viewZ)[k] && indices[k] == k
    {
      depths[i] := viewZ(pos[3 * i], pos[3 * i + 1], pos[3 * i + 2]);
      indices[i] := i;
      i := i + 1;
    }
    ds := depths[..];
    assert ds == Depths(pos, viewZ);
    forall k | 0 <= k < n
      ensures indices[..][k] == Iota(n)[k]
    {
      IotaAt(n, k);
    }
    assert indices[..] == Iota(n);
  }

  /** The per-frame guards: sorting on, a geometry, a camera and a mounted
      points object, and no more than `SortLimit` points (`count` is
      `positions.length / 3`, a JavaScript number). */
  predicate SortEnabled(enableSort: bool, g: Geometry?, hasCamera: bool, hasPoints: bool)
    reads g
  {
    enableSort && g != null && hasCamera && hasPoints && |g.positions| <= 3 * SortLimit
  }

  /** The depth-sort frame callback and the refs it owns. */
  class DepthSorter {
    var sortThrottle: real
    var indexRef: Option<seq<nat>>

    constructor ()
      ensures sortThrottle == 0.0 && indexRef == None
    {
      sortThrottle := 0.0;
      indexRef := None;
    }

    /** A frame at clock time `now`: when the guards pass and half a second
        has gone by since the last sort, the throttle moves to `now` and the
        geometry gets a fresh index array in depth order; otherwise nothing
        changes. */
    method OnFrame(enableSort: bool, g: Geometry?, hasCamera: bool, hasPoints: bool,
                   now: real, viewZ: (F32, F32, F32) -> real)
      modifies this, g
      ensures !SortEnabled(enableSort, g, hasCamera, hasPoints) || now - old(sortThrottle) < SortInterval ==>
        sortThrottle == old(sortThrottle) && indexRef == old(indexRef)
        && (g != null ==> g.index == old(g.index))
      ensures SortEnabled(enableSort, g, hasCamera, hasPoints) && now - old(sortThrottle) >= SortInterval ==>
        sortThrottle == now && g.index.Some? && indexRef == g.index
        && DepthOrder(g.index.value, Depths(g.positions, viewZ))
      ensures g != null ==> g.drawStart == old(g.drawStart) && g.drawCount == old(g.drawCount)
    {
      if !SortEnabled(enableSort, g, hasCamera, hasPoints) {
        return;
      }
      if now - sortThrottle < SortInterval {
        return;
      }
      sortThrottle := now;
      var ds, indices := DepthsAndIdentity(g.positions, viewZ);
      SortByDepth(indices, ds);
      g.index := Some(indices[..]);
      indexRef := g.index;
    }
  }
}
