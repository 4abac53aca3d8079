/** Cross-section geometry of the four member shapes: area, centroid and the
    two second moments of area, with the closed-form formulas of member.py.

    Each formula is checked against an independent reference: the section is
    decomposed into axis-aligned rectangles, and the area, first moment and
    second moment of each rectangle are written as the integrals they are.
    The reference fixes where the centroidal axes lie and what each second
    moment must be, so a term that is not the integral of the shape shows up
    as a failed equation (see CShapeIyyAsWrittenMisses). */
module CrossSection {
  import opened Common

  /** A member's section. For I, T and C the dimensions are the flange width
      B, the web height H and the thickness h; the web thickness b equals h.
      For O they are the outer diameter d and the value t subtracted from it
      to give the inner diameter. */
  datatype Section =
    | IShape(B: real, H: real, h: real)
    | TShape(B: real, H: real, h: real)
    | CShape(B: real, H: real, h: real)
    | OShape(d: real, t: real)

  /** The inner diameter of the tube: d1 = d - t. */
  function InnerDiameter(d: real, t: real): real
  {
    d - t
  }

  /** Cross-sectional area (getA). */
  function Area(s: Section): real
  {
    match s
    case IShape(B, H, h) => H * h + 2.0 * B * h
    case TShape(B, H, h) => B * h + H * h
    case CShape(B, H, h) => H * h + 2.0 * B * h
    case OShape(d, t) =>
      var d1 := InnerDiameter(d, t);
      (d / 2.0) * (d / 2.0) * Pi - (d1 / 2.0) * (d1 / 2.0) * Pi
  }

  /** The C and T constructors divide by the area to place the centroid;
      every section the model builds satisfies this. */
  predicate WellFormed(s: Section)
  {
    (s.CShape? || s.TShape?) ==> Area(s) != 0.0
  }

  /** Horizontal distance of the C-section's centroid from the back of its
      web (centroid_x of the C constructor). */
  function CentroidX(B: real, H: real, h: real): real
    requires H * h + 2.0 * B * h != 0.0
  {
    (2.0 * h * B * B / 2.0 + h * h * H / 2.0) / (H * h + 2.0 * B * h)
  }

  /** Height of the T-section's centroid above the foot of its web
      (centroid_y of the T constructor). */
  function CentroidY(B: real, H: real, h: real): real
    requires B * h + H * h != 0.0
  {
    ((H + h / 2.0) * h * B + H * H * h / 2.0) / (B * h + H * h)
  }

  /** Second moment of area about the horizontal centroidal axis (getI, inertia_xx). */
  function InertiaXX(s: Section): real
    requires WellFormed(s)
  {
    match s
    case IShape(B, H, h) =>
      H * H * H * h / 12.0 + 2.0 * (h * h * h * B / 12.0 + h * B * (H + h) * (H + h) / 4.0)
    case CShape(B, H, h) =>
      H * H * H * h / 12.0 + 2.0 * (h * h * h * B / 12.0 + h * B * (h + H) * (h + H) / 4.0)
    case TShape(B, H, h) =>
      var cy := CentroidY(B, H, h);
      h * H * (cy - H / 2.0) * (cy - H / 2.0) + h * H * H * H / 12.0
        + h * B * (H + h / 2.0 - cy) * (H + h / 2.0 - cy) + h * h * h * B / 12.0
    case OShape(d, t) =>
      var d1 := InnerDiameter(d, t);
      Pi / 64.0 * (d * d * d * d - d1 * d1 * d1 * d1)
  }

  /** Second moment of area about the vertical axis through the centroid
      (getI, inertia_yy), as member.py computes it. For the C-section the web's
      own term is H^3 * b / 12, the web's moment about the horizontal axis;
      CShapeIyy is the second moment of the section itself. */
  function InertiaYY(s: Section): real
    requires WellFormed(s)
  {
    match s
    case IShape(B, H, h) =>
      h * h * h * H / 12.0 + 2.0 * (B * B * B * h / 12.0)
    case TShape(B, H, h) =>
      h * h * h * H / 12.0 + B * B * B * h / 12.0
    case CShape(B, H, h) =>
      var cx := CentroidX(B, H, h);
      H * H * H * h / 12.0 + h * H * (cx - h / 2.0) * (cx - h / 2.0)
        + 2.0 * B * B * B * h / 12.0 + 2.0 * B * h * (cx - B / 2.0) * (cx - B / 2.0)
    case OShape(_, _) => InertiaXX(s)
  }

  /** The C-section inertia_yy with the web's own term H * b^3 / 12, the form
      the I and T sections use for their webs. */
  function CShapeIyy(B: real, H: real, h: real): real
    requires H * h + 2.0 * B * h != 0.0
  {
    var cx := CentroidX(B, H, h);
    H * h * h * h / 12.0 + h * H * (cx - h / 2.0) * (cx - h / 2.0)
      + 2.0 * B * B * B * h / 12.0 + 2.0 * B * h * (cx - B / 2.0) * (cx - B / 2.0)
  }

  /** The second moment about the vertical centroidal axis that each shape
      should have: inertia_yy, except for the C-section, where it is CShapeIyy. */
  function IntendedInertiaYY(s: Section): real
    requires WellFormed(s)
  {
    if s.CShape? then CShapeIyy(s.B, s.H, s.h) else InertiaYY(s)
  }

  /** Builds a section from a shape tag and the dimension list, as
      Node.add_member and the four member constructors do: an unknown tag is
      rejected first, then a list too short for the shape, then a C- or
      T-section of zero area (its centroid divides by the area). Extra
      dimensions are ignored. */
  function SectionOf(tag: string, dims: seq<real>): (r: Result<Section>)
    ensures r.Err? <==>
      tag !in {"I", "T", "C", "O"}
      || |dims| < (if tag == "O" then 2 else 3)
      || (tag in {"T", "C"} && dims[1] * dims[2] + (if tag == "C" then 2.0 else 1.0) * dims[0] * dims[2] == 0.0)
    ensures r.Err? && tag !in {"I", "T", "C", "O"} ==> r.error == WrongMemberType
    ensures r.Ok? ==> WellFormed(r.value)
    ensures r.Ok? && tag == "O" ==> r.value == OShape(dims[0], dims[1])
    ensures r.Ok? && tag == "I" ==> r.value == IShape(dims[0], dims[1], dims[2])
    ensures r.Ok? && tag == "T" ==> r.value == TShape(dims[0], dims[1], dims[2])
    ensures r.Ok? && tag == "C" ==> r.value == CShape(dims[0], dims[1], dims[2])
  {
    if tag == "I" then
      if |dims| < 3 then Err(IndexOutOfRange) else Ok(IShape(dims[0], dims[1], dims[2]))
    else if tag == "T" then
      if |dims| < 3 then Err(IndexOutOfRange)
      else if Area(TShape(dims[0], dims[1], dims[2])) == 0.0 then Err(ZeroDivision)
      else Ok(TShape(dims[0], dims[1], dims[2]))
    else if tag == "C" then
      if |dims| < 3 then Err(IndexOutOfRange)
      else if Area(CShape(dims[0], dims[1], dims[2])) == 0.0 then Err(ZeroDivision)
      else Ok(CShape(dims[0], dims[1], dims[2]))
    else if tag == "O" then
      if |dims| < 2 then Err(IndexOutOfRange) else Ok(OShape(dims[0], dims[1]))
    else
      Err(WrongMemberType)
  }

  // ---------------------------------------------------------------------
  // Reference: sections as unions of rectangles, moments as integrals

  /** The rectangle [x0, x1] x [y0, y1]. */
  datatype Rect = Rect(x0: real, x1: real, y0: real, y1: real)
  {
    function Width(): real { x1 - x0 }
    function Height(): real { y1 - y0 }
    function MidX(): real { (x0 + x1) / 2.0 }
    function MidY(): real { (y0 + y1) / 2.0 }
  }

  /** Integral of 1 over the rectangle. */
  function RectArea(r: Rect): real
  {
    r.Width() * r.Height()
  }

  /** Integral of (y - c) over the rectangle. */
  function RectFirstMomentX(r: Rect, c: real): real
  {
    r.Width() * ((r.y1 - c) * (r.y1 - c) - (r.y0 - c) * (r.y0 - c)) / 2.0
  }

  /** Integral of (x - c) over the rectangle. */
  function RectFirstMomentY(r: Rect, c: real): real
  {
    r.Height() * ((r.x1 - c) * (r.x1 - c) - (r.x0 - c) * (r.x0 - c)) / 2.0
  }

  /** Integral of (y - c)^2 over the rectangle: its second moment about the line y = c. */
  function RectSecondMomentX(r: Rect, c: real): real
  {
    r.Width() * ((r.y1 - c) * (r.y1 - c) * (r.y1 - c) - (r.y0 - c) * (r.y0 - c) * (r.y0 - c)) / 3.0
  }

  /** Integral of (x - c)^2 over the rectangle: its second moment about the line x = c. */
  function RectSecondMomentY(r: Rect, c: real): real
  {
    r.Height() * ((r.x1 - c) * (r.x1 - c) * (r.x1 - c) - (r.x0 - c) * (r.x0 - c) * (r.x0 - c)) / 3.0
  }

  function SumArea(rs: seq<Rect>): real
  {
    if rs == [] then 0.0 else RectArea(rs[0]) + SumArea(rs[1..])
  }

  function SumFirstMomentX(rs: seq<Rect>, c: real): real
  {
    if rs == [] then 0.0 else RectFirstMomentX(rs[0], c) + SumFirstMomentX(rs[1..], c)
  }

  function SumFirstMomentY(rs: seq<Rect>, c: real): real
  {
    if rs == [] then 0.0 else RectFirstMomentY(rs[0], c) + SumFirstMomentY(rs[1..], c)
  }

  function SumSecondMomentX(rs: seq<Rect>, c: real): real
  {
    if rs == [] then 0.0 else RectSecondMomentX(rs[0], c) + SumSecondMomentX(rs[1..], c)
  }

  function SumSecondMomentY(rs: seq<Rect>, c: real): real
  {
    if rs == [] then 0.0 else RectSecondMomentY(rs[0], c) + SumSecondMomentY(rs[1..], c)
  }

  /** The rectangles an I, T or C section is made of: the web (b = h thick,
      H tall) and one or two flanges (B wide, h thick). The I-section is
      centred on the origin; the T-section stands on y = 0 and is symmetric
      about x = 0; the back of the C-section's web lies on x = 0 and the
      section is symmetric about y = 0. */
  function Parts(s: Section): seq<Rect>
    requires !s.OShape?
  {
    match s
    case IShape(B, H, h) =>
      [Rect(-h / 2.0, h / 2.0, -H / 2.0, H / 2.0),
       Rect(-B / 2.0, B / 2.0, H / 2.0, H / 2.0 + h),
       Rect(-B / 2.0, B / 2.0, -H / 2.0 - h, -H / 2.0)]
    case TShape(B, H, h) =>
      [Rect(-h / 2.0, h / 2.0, 0.0, H),
       Rect(-B / 2.0, B / 2.0, H, H + h)]
    case CShape(B, H, h) =>
      [Rect(0.0, h, -H / 2.0, H / 2.0),
       Rect(0.0, B, H / 2.0, H / 2.0 + h),
       Rect(0.0, B, -H / 2.0 - h, -H / 2.0)]
  }

  /** Height of the horizontal axis the section's inertia_xx is taken about. */
  function AxisHeight(s: Section): real
    requires WellFormed(s) && !s.OShape?
  {
    if s.TShape? then CentroidY(s.B, s.H, s.h) else 0.0
  }

  /** Position of the vertical axis the section's inertia_yy is taken about. */
  function AxisOffset(s: Section): real
    requires WellFormed(s) && !s.OShape?
  {
    if s.CShape? then CentroidX(s.B, s.H, s.h) else 0.0
  }

  // ---------------------------------------------------------------------
  // Parallel-axis form of the rectangle integrals

  lemma CubeDifference(u: real, w: real)
    ensures (u + w / 2.0) * (u + w / 2.0) * (u + w / 2.0) - (u - w / 2.0) * (u - w / 2.0) * (u - w / 2.0)
            == 3.0 * u * u * w + w * w * w / 4.0
  {
    var v := w / 2.0;
    assert (u + v) * (u + v) * (u + v) == u * u * u + 3.0 * u * u * v + 3.0 * u * v * v + v * v * v;
    assert (u - v) * (u - v) * (u - v) == u * u * u - 3.0 * u * u * v + 3.0 * u * v * v - v * v * v;
  }

  lemma SquareDifference(u: real, w: real)
    ensures (u + w / 2.0) * (u + w / 2.0) - (u - w / 2.0) * (u - w / 2.0) == 2.0 * u * w
  {
  }

  /** The integrals over a rectangle of width w and height ht centred at
      (mx, my): area, first moments about x = cx and y = cy, and second
      moments as own moment plus area times squared offset (parallel-axis
      theorem). */
  lemma RectMoments(r: Rect, w: real, ht: real, mx: real, my: real, cx: real, cy: real)
    requires r.Width() == w && r.Height() == ht && r.MidX() == mx && r.MidY() == my
    ensures RectArea(r) == w * ht
    ensures RectFirstMomentX(r, cy) == w * ht * (my - cy)
    ensures RectFirstMomentY(r, cx) == w * ht * (mx - cx)
    ensures RectSecondMomentX(r, cy) == w * ht * ht * ht / 12.0 + w * ht * (my - cy) * (my - cy)
    ensures RectSecondMomentY(r, cx) == ht * w * w * w / 12.0 + w * ht * (mx - cx) * (mx - cx)
  {
    assert r.y1 - cy == (my - cy) + ht / 2.0 && r.y0 - cy == (my - cy) - ht / 2.0;
    assert r.x1 - cx == (mx - cx) + w / 2.0 && r.x0 - cx == (mx - cx) - w / 2.0;
    SquareDifference(my - cy, ht);
    SquareDifference(mx - cx, w);
    CubeDifference(my - cy, ht);
    CubeDifference(mx - cx, w);
  }

  /** The sums over a list of two rectangles. */
  lemma SumsOfTwo(rs: seq<Rect>, cx: real, cy: real)
    requires |rs| == 2
    ensures SumArea(rs) == RectArea(rs[0]) + RectArea(rs[1])
    ensures SumFirstMomentX(rs, cy) == RectFirstMomentX(rs[0], cy) + RectFirstMomentX(rs[1], cy)
    ensures SumFirstMomentY(rs, cx) == RectFirstMomentY(rs[0], cx) + RectFirstMomentY(rs[1], cx)
    ensures SumSecondMomentX(rs, cy) == RectSecondMomentX(rs[0], cy) + RectSecondMomentX(rs[1], cy)
    ensures SumSecondMomentY(rs, cx) == RectSecondMomentY(rs[0], cx) + RectSecondMomentY(rs[1], cx)
  {
    var tail := rs[1..];
    assert tail[0] == rs[1] && tail[1..] == [];
    assert SumArea(tail) == RectArea(rs[1]) + SumArea(tail[1..]);
    assert SumFirstMomentX(tail, cy) == RectFirstMomentX(rs[1], cy) + SumFirstMomentX(tail[1..], cy);
    assert SumFirstMomentY(tail, cx) == RectFirstMomentY(rs[1], cx) + SumFirstMomentY(tail[1..], cx);
    assert SumSecondMomentX(tail, cy) == RectSecondMomentX(rs[1], cy) + SumSecondMomentX(tail[1..], cy);
    assert SumSecondMomentY(tail, cx) == RectSecondMomentY(rs[1], cx) + SumSecondMomentY(tail[1..], cx);
  }

  /** The sums over a list of three rectangles. */
  lemma SumsOfThree(rs: seq<Rect>, cx: real, cy: real)
    requires |rs| == 3
    ensures SumArea(rs) == RectArea(rs[0]) + RectArea(rs[1]) + RectArea(rs[2])
    ensures SumFirstMomentX(rs, cy)
            == RectFirstMomentX(rs[0], cy) + RectFirstMomentX(rs[1], cy) + RectFirstMomentX(rs[2], cy)
    ensures SumFirstMomentY(rs, cx)
            == RectFirstMomentY(rs[0], cx) + RectFirstMomentY(rs[1], cx) + RectFirstMomentY(rs[2], cx)
    ensures SumSecondMomentX(rs, cy)
            == RectSecondMomentX(rs[0], cy) + RectSecondMomentX(rs[1], cy) + RectSecondMomentX(rs[2], cy)
    ensures SumSecondMomentY(rs, cx)
            == RectSecondMomentY(rs[0], cx) + RectSecondMomentY(rs[1], cx) + RectSecondMomentY(rs[2], cx)
  {
    SumsOfTwo(rs[1..], cx, cy);
  }

  // ---------------------------------------------------------------------
  // The closed forms agree with the reference, shape by shape

  lemma IShapeMatchesParts(B: real, H: real, h: real)
    ensures Area(IShape(B, H, h)) == SumArea(Parts(IShape(B, H, h)))
    ensures SumFirstMomentX(Parts(IShape(B, H, h)), 0.0) == 0.0
    ensures SumFirstMomentY(Parts(IShape(B, H, h)), 0.0) == 0.0
    ensures InertiaXX(IShape(B, H, h)) == SumSecondMomentX(Parts(IShape(B, H, h)), 0.0)
    ensures InertiaYY(IShape(B, H, h)) == SumSecondMomentY(Parts(IShape(B, H, h)), 0.0)
  {
    var ps := Parts(IShape(B, H, h));
    SumsOfThree(ps, 0.0, 0.0);
    RectMoments(ps[0], h, H, 0.0, 0.0, 0.0, 0.0);
    RectMoments(ps[1], B, h, 0.0, (H + h) / 2.0, 0.0, 0.0);
    RectMoments(ps[2], B, h, 0.0, -(H + h) / 2.0, 0.0, 0.0);
    var m := (H + h) / 2.0;
    assert m * m == (H + h) * (H + h) / 4.0;
    assert (-m) * (-m) == m * m;
  }

  lemma TShapeMatchesParts(B: real, H: real, h: real)
    requires WellFormed(TShape(B, H, h))
    ensures Area(TShape(B, H, h)) == SumArea(Parts(TShape(B, H, h)))
    ensures SumFirstMomentX(Parts(TShape(B, H, h)), CentroidY(B, H, h)) == 0.0
    ensures SumFirstMomentY(Parts(TShape(B, H, h)), 0.0) == 0.0
    ensures InertiaXX(TShape(B, H, h)) == SumSecondMomentX(Parts(TShape(B, H, h)), CentroidY(B, H, h))
    ensures InertiaYY(TShape(B, H, h)) == SumSecondMomentY(Parts(TShape(B, H, h)), 0.0)
  {
    var ps, cy := Parts(TShape(B, H, h)), CentroidY(B, H, h);
    SumsOfTwo(ps, 0.0, cy);
    RectMoments(ps[0], h, H, 0.0, H / 2.0, 0.0, cy);
    RectMoments(ps[1], B, h, 0.0, H + h / 2.0, 0.0, cy);
    var a := B * h + H * h;
    assert cy * a == (H + h / 2.0) * h * B + H * H * h / 2.0;
    assert SumFirstMomentX(ps, cy) == (H + h / 2.0) * h * B + H * H * h / 2.0 - cy * a;
    assert (H / 2.0 - cy) * (H / 2.0 - cy) == (cy - H / 2.0) * (cy - H / 2.0);
  }

  lemma CShapeMatchesParts(B: real, H: real, h: real)
    requires WellFormed(CShape(B, H, h))
    ensures Area(CShape(B, H, h)) == SumArea(Parts(CShape(B, H, h)))
    ensures SumFirstMomentX(Parts(CShape(B, H, h)), 0.0) == 0.0
    ensures SumFirstMomentY(Parts(CShape(B, H, h)), CentroidX(B, H, h)) == 0.0
    ensures InertiaXX(CShape(B, H, h)) == SumSecondMomentX(Parts(CShape(B, H, h)), 0.0)
    ensures CShapeIyy(B, H, h) == SumSecondMomentY(Parts(CShape(B, H, h)), CentroidX(B, H, h))
  {
    var ps, cx := Parts(CShape(B, H, h)), CentroidX(B, H, h);
    SumsOfThree(ps, cx, 0.0);
    RectMoments(ps[0], h, H, h / 2.0, 0.0, cx, 0.0);
    RectMoments(ps[1], B, h, B / 2.0, (H + h) / 2.0, cx, 0.0);
    RectMoments(ps[2], B, h, B / 2.0, -(H + h) / 2.0, cx, 0.0);
    var a := H * h + 2.0 * B * h;
    assert cx * a == 2.0 * h * B * B / 2.0 + h * h * H / 2.0;
    assert SumFirstMomentY(ps, cx) == 2.0 * h * B * B / 2.0 + h * h * H / 2.0 - cx * a;
    var m := (H + h) / 2.0;
    assert m * m == (H + h) * (H + h) / 4.0;
    assert (-m) * (-m) == m * m;
    assert (h / 2.0 - cx) * (h / 2.0 - cx) == (cx - h / 2.0) * (cx - h / 2.0);
    assert (B / 2.0 - cx) * (B / 2.0 - cx) == (cx - B / 2.0) * (cx - B / 2.0);
  }

  /** getA of an I, T or C section is the total area of its rectangles. */
  lemma AreaMatchesParts(s: Section)
    requires WellFormed(s) && !s.OShape?
    ensures Area(s) == SumArea(Parts(s))
  {
    match s
    case IShape(B, H, h) => IShapeMatchesParts(B, H, h);
    case TShape(B, H, h) => TShapeMatchesParts(B, H, h);
    case CShape(B, H, h) => CShapeMatchesParts(B, H, h);
  }

  /** The axes the second moments are taken about pass through the centroid:
      the first moment of the whole section about each of them is zero. */
  lemma AxesThroughCentroid(s: Section)
    requires WellFormed(s) && !s.OShape?
    ensures SumFirstMomentX(Parts(s), AxisHeight(s)) == 0.0
    ensures SumFirstMomentY(Parts(s), AxisOffset(s)) == 0.0
  {
    match s
    case IShape(B, H, h) => IShapeMatchesParts(B, H, h);
    case TShape(B, H, h) => TShapeMatchesParts(B, H, h);
    case CShape(B, H, h) => CShapeMatchesParts(B, H, h);
  }

  /** inertia_xx of an I, T or C section is the integral of the squared
      distance from its horizontal centroidal axis. inertia_yy is the integral
      about its vertical centroidal axis for I and T; for C the integral is
      CShapeIyy, and inertia_yy misses it (CShapeIyyAsWrittenMisses). */
  lemma InertiaMatchesParts(s: Section)
    requires WellFormed(s) && !s.OShape?
    ensures InertiaXX(s) == SumSecondMomentX(Parts(s), AxisHeight(s))
    ensures IntendedInertiaYY(s) == SumSecondMomentY(Parts(s), AxisOffset(s))
    ensures !s.CShape? ==> InertiaYY(s) == SumSecondMomentY(Parts(s), AxisOffset(s))
  {
    match s
    case IShape(B, H, h) => IShapeMatchesParts(B, H, h);
    case TShape(B, H, h) => TShapeMatchesParts(B, H, h);
    case CShape(B, H, h) => CShapeMatchesParts(B, H, h);
  }

  /** The C-section inertia_yy as member.py writes it exceeds the integral
      over the section by H * h * (H^2 - h^2) / 12, so it is the second moment
      of the section only when that term vanishes (for B = 4, H = 10, h = 1 it
      is 82.5 too large). */
  lemma CShapeIyyAsWrittenMisses(B: real, H: real, h: real)
    requires WellFormed(CShape(B, H, h))
    ensures InertiaYY(CShape(B, H, h)) - SumSecondMomentY(Parts(CShape(B, H, h)), CentroidX(B, H, h))
            == H * h * (H * H - h * h) / 12.0
    ensures InertiaYY(CShape(B, H, h)) == SumSecondMomentY(Parts(CShape(B, H, h)), CentroidX(B, H, h))
            <==> H * h * (H * H - h * h) == 0.0
  {
    CShapeMatchesParts(B, H, h);
    WebTermGap(B, H, h);
  }

  /** The two C-section inertia_yy forms differ only in the web's own term. */
  lemma WebTermGap(B: real, H: real, h: real)
    requires WellFormed(CShape(B, H, h))
    ensures InertiaYY(CShape(B, H, h)) - CShapeIyy(B, H, h) == H * h * (H * H - h * h) / 12.0
  {
  }

  /** The tube: its two moments coincide and each is the area times
      (d^2 + d1^2) / 16, the squared polar radius of gyration of a ring. */
  lemma TubeInertiaFromArea(d: real, t: real)
    ensures InertiaXX(OShape(d, t)) == InertiaYY(OShape(d, t))
    ensures InertiaXX(OShape(d, t))
            == Area(OShape(d, t)) * (d * d + InnerDiameter(d, t) * InnerDiameter(d, t)) / 16.0
  {
    var d1 := InnerDiameter(d, t);
    var p, q := d * d, d1 * d1;
    assert d * d * d * d == p * p;
    assert d1 * d1 * d1 * d1 == q * q;
    assert p * p - q * q == (p - q) * (p + q);
    assert Area(OShape(d, t)) == Pi / 4.0 * (p - q);
  }

  /** The tube's area is pi / 4 * t * (2d - t): positive exactly when
      0 < t < 2d or 2d < t < 0. */
  lemma TubeArea(d: real, t: real)
    ensures Area(OShape(d, t)) == Pi / 4.0 * (t * (2.0 * d - t))
    ensures Area(OShape(d, t)) > 0.0 <==> (0.0 < t < 2.0 * d || 2.0 * d < t < 0.0)
  {
    var d1 := InnerDiameter(d, t);
    assert d * d - d1 * d1 == t * (2.0 * d - t);
    assert Area(OShape(d, t)) == Pi / 4.0 * (d * d - d1 * d1);
    var u := 2.0 * d - t;
    assert Area(OShape(d, t)) == Pi / 4.0 * (t * u);
    if t > 0.0 && u > 0.0 {
      assert t * u > 0.0;
      assert Pi / 4.0 * (t * u) > 0.0;
    } else if t < 0.0 && u < 0.0 {
      assert t * u == (-t) * (-u);
      assert t * u > 0.0;
      assert Pi / 4.0 * (t * u) > 0.0;
    } else if t >= 0.0 {
      assert u <= 0.0 || t == 0.0;
      assert t * u <= 0.0;
    } else {
      assert u >= 0.0;
      assert (-t) * u >= 0.0;
      assert t * u <= 0.0;
    }
  }

  /** The I and C sections share b = h and the area H * b + 2 * B * h; the T
      section has the area B * h + H * b of one flange and one web. */
  lemma FlangedAreas(B: real, H: real, h: real)
    ensures Area(IShape(B, H, h)) == Area(CShape(B, H, h)) == H * h + 2.0 * B * h
    ensures Area(TShape(B, H, h)) == Area(IShape(B, H, h)) - B * h
  {
  }

  /** For positive dimensions both I-section moments are positive. */
  lemma IShapeInertiaPositive(B: real, H: real, h: real)
    requires B > 0.0 && H > 0.0 && h > 0.0
    ensures InertiaXX(IShape(B, H, h)) > 0.0 && InertiaYY(IShape(B, H, h)) > 0.0
  {
    assert H * H > 0.0 && h * h > 0.0 && B * h > 0.0;
    assert H * H * H * h > 0.0;
    assert h * h * h * H > 0.0;
  }
}
