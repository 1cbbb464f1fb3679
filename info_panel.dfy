/** The inspector's derived values: the splat count it shows, the bounding-box
    centre, the octant label of the selected point and the availability of a
    measured distance. */
module InfoPanel {
  import opened PointCloud
  import Decimation

  /** `data?.count || (data?.positions ? data.positions.length / 3 : 0)`. */
  function DisplayCount(data: Option<Cloud>): (c: real)
    ensures data.None? ==> c == 0.0
    ensures data.Some? && data.value.count.Some? && data.value.count.value != 0 ==>
      c == data.value.count.value as real
    ensures data.Some? && (data.value.count.None? || data.value.count.value == 0) ==>
      c * 3.0 == |data.value.positions| as real
  {
    if data.None? then 0.0
    else if data.value.count.Some? && data.value.count.value != 0 then data.value.count.value as real
    else |data.value.positions| as real / 3.0
  }

  /** The inspector shows the same count decimation keys off. */
  lemma DisplayCountIsSourceCount(d: Cloud)
    ensures DisplayCount(Some(d)) == Decimation.SourceCount(d)
  {
  }

  /** The per-axis midpoint of the bounding box, when both corners are known. */
  function Center(data: Option<Cloud>): (c: Option<Vec3>)
    ensures c.Some? <==> data.Some? && data.value.bboxMin.Some? && data.value.bboxMax.Some?
    ensures c.Some? ==>
      var lo, hi := data.value.bboxMin.value, data.value.bboxMax.value;
      c.value.x - lo.x == hi.x - c.value.x && c.value.y - lo.y == hi.y - c.value.y
      && c.value.z - lo.z == hi.z - c.value.z
  {
    if data.Some? && data.value.bboxMin.Some? && data.value.bboxMax.Some? then
      var lo, hi := data.value.bboxMin.value, data.value.bboxMax.value;
      Some(Vec3((lo.x + hi.x) / 2.0, (lo.y + hi.y) / 2.0, (lo.z + hi.z) / 2.0))
    else None
  }

  /** The centre lies between the two corners on every axis the box is ordered on. */
  lemma CenterInsideBox(data: Option<Cloud>)
    requires Center(data).Some?
    ensures var lo, hi, c := data.value.bboxMin.value, data.value.bboxMax.value, Center(data).value;
            (lo.x <= hi.x ==> lo.x <= c.x <= hi.x) && (lo.y <= hi.y ==> lo.y <= c.y <= hi.y)
            && (lo.z <= hi.z ==> lo.z <= c.z <= hi.z)
  {
  }

  /** Which side of the centre a point is on, per axis (ties go to the upper,
      right and front side). */
  datatype Octant = Octant(upper: bool, right: bool, front: bool)

  function OctantOf(p: Vec3, c: Vec3): (o: Octant)
    ensures o.right <==> p.x >= c.x
    ensures o.upper <==> p.y >= c.y
    ensures o.front <==> p.z >= c.z
  {
    Octant(p.y >= c.y, p.x >= c.x, p.z >= c.z)
  }

  function UpDown(o: Octant): string { if o.upper then "Upper" else "Lower" }
  function LeftRight(o: Octant): string { if o.right then "Right" else "Left" }
  function FrontBack(o: Octant): string { if o.front then "Front" else "Back" }

  /** `${ud}-${lr}-${fb}`. */
  function Label(o: Octant): string
  {
    UpDown(o) + "-" + LeftRight(o) + "-" + FrontBack(o)
  }

  /** The description sentence naming the same three words. */
  function Description(o: Octant): string
  {
    "Spatial cluster derived from bbox octant (" + UpDown(o) + ", " + LeftRight(o) + ", " + FrontBack(o) + ")."
  }

  const Placeholder: string := "--"

  /** The part label: a placeholder without a selection or a centre. */
  function PartLabel(selection: Option<Vec3>, center: Option<Vec3>): string
  {
    if selection.Some? && center.Some? then Label(OctantOf(selection.value, center.value)) else Placeholder
  }

  function PartDescription(selection: Option<Vec3>, center: Option<Vec3>): string
  {
    if selection.Some? && center.Some? then Description(OctantOf(selection.value, center.value)) else Placeholder
  }

  /** The eight labels an octant can have. */
  const OctantLabels: set<string> := {
    "Upper-Left-Front", "Upper-Left-Back", "Upper-Right-Front", "Upper-Right-Back",
    "Lower-Left-Front", "Lower-Left-Back", "Lower-Right-Front", "Lower-Right-Back"}

  /** Reads the octant back from its label. */
  function ParseLabel(text: string): Option<Octant>
  {
    if |text| >= 12 && text[0] in "UL" && text[6] in "RL" && text[|text| - 1] in "tk" then
      Some(Octant(text[0] == 'U', text[6] == 'R', text[|text| - 1] == 't'))
    else None
  }

  /** Every label is one of the eight. */
  lemma LabelIsOneOfEight(o: Octant)
    ensures Label(o) in OctantLabels
  {
    if o.upper && o.right {
      UpperRightLabel(o);
    } else if o.upper {
      UpperLeftLabel(o);
    } else if o.right {
      LowerRightLabel(o);
    } else {
      LowerLeftLabel(o);
    }
  }

  lemma UpperRightLabel(o: Octant)
    requires o.upper && o.right
    ensures Label(o) in {"Upper-Right-Front", "Upper-Right-Back"}
  {
    if o.front {
      assert Label(o) == "Upper-Right-Front";
    } else {
      assert Label(o) == "Upper-Right-Back";
    }
  }

  lemma UpperLeftLabel(o: Octant)
    requires o.upper && !o.right
    ensures Label(o) in {"Upper-Left-Front", "Upper-Left-Back"}
  {
    if o.front {
      assert Label(o) == "Upper-Left-Front";
    } else {
      assert Label(o) == "Upper-Left-Back";
    }
  }

  lemma LowerRightLabel(o: Octant)
    requires !o.upper && o.right
    ensures Label(o) in {"Lower-Right-Front", "Lower-Right-Back"}
  {
    if o.front {
      assert Label(o) == "Lower-Right-Front";
    } else {
      assert Label(o) == "Lower-Right-Back";
    }
  }

  lemma LowerLeftLabel(o: Octant)
    requires !o.upper && !o.right
    ensures Label(o) in {"Lower-Left-Front", "Lower-Left-Back"}
  {
    if o.front {
      assert Label(o) == "Lower-Left-Front";
    } else {
      assert Label(o) == "Lower-Left-Back";
    }
  }

  /** The label alone tells the octant. */
  lemma LabelRoundTrip(o: Octant)
    ensures ParseLabel(Label(o)) == Some(o)
  {
    var u, r, f := UpDown(o), LeftRight(o), FrontBack(o);
    var t := Label(o);
    assert t == u + "-" + r + "-" + f;
    assert |u| == 5 && t[0] == u[0];
    assert t[6] == r[0];
    assert t[|t| - 1] == f[|f| - 1];
  }

  /** Two points get the same label exactly when they are on the same side of
      the centre on all three axes. */
  lemma {:induction false} LabelsAgreeIffSameOctant(p: Vec3, q: Vec3, c: Vec3)
    ensures PartLabel(Some(p), Some(c)) == PartLabel(Some(q), Some(c))
            <==> ((p.x >= c.x) == (q.x >= c.x) && (p.y >= c.y) == (q.y >= c.y) && (p.z >= c.z) == (q.z >= c.z))
  {
    LabelRoundTrip(OctantOf(p, c));
    LabelRoundTrip(OctantOf(q, c));
  }

  /** Label and description are both the placeholder exactly when there is no
      selection or no centre. */
  lemma PlaceholderIffMissing(selection: Option<Vec3>, center: Option<Vec3>)
    ensures PartLabel(selection, center) == Placeholder <==> selection.None? || center.None?
    ensures PartDescription(selection, center) == Placeholder <==> selection.None? || center.None?
  {
    if selection.Some? && center.Some? {
      var o := OctantOf(selection.value, center.value);
      assert |Label(o)| >= 14;
      assert |Description(o)| > 2;
    }
  }

  /** Reads the octant back from a description sentence. */
  function ParseDescription(desc: string): Option<Octant>
  {
    if |desc| >= 52 && desc[42] in "UL" && desc[49] in "RL" && desc[|desc| - 3] in "tk" then
      Some(Octant(desc[42] == 'U', desc[49] == 'R', desc[|desc| - 3] == 't'))
    else None
  }

  /** The description names the label's three words in the label's order:
      both read back as the same octant. */
  lemma DescriptionMatchesLabel(o: Octant)
    ensures ParseDescription(Description(o)) == ParseLabel(Label(o)) == Some(o)
  {
    LabelRoundTrip(o);
    DescriptionRoundTrip(o);
  }

  lemma DescriptionRoundTrip(o: Octant)
    ensures ParseDescription(Description(o)) == Some(o)
  {
    var u, r, f := UpDown(o), LeftRight(o), FrontBack(o);
    var prefix := "Spatial cluster derived from bbox octant (";
    var t := Description(o);
    assert t == prefix + u + ", " + r + ", " + f + ").";
    assert |prefix| == 42 && t[42] == u[0];
    assert t[49] == r[0];
    assert t[|t| - 3] == f[|f| - 1];
  }

  /** A square is never negative. */
  lemma Square(x: real)
    ensures x * x >= 0.0
  {
    if x < 0.0 {
      assert x * x > 0.0;
    }
  }

  /** The squared distance between the two measure points, when there are
      exactly two (the square root is not modelled). */
  function MeasuredSquared(points: Option<seq<Vec3>>): (d: Option<real>)
    ensures d.Some? <==> points.Some? && |points.value| == 2
    ensures d.Some? ==> d.value >= 0.0
  {
    if points.Some? && |points.value| == 2 then
      var a, b := points.value[0], points.value[1];
      var dx, dy, dz := a.x - b.x, a.y - b.y, a.z - b.z;
      Square(dx);
      Square(dy);
      Square(dz);
      Some(dx * dx + dy * dy + dz * dz)
    else None
  }
}
