/** Geometries and their two binary forms: PostGIS EWKB, which interleaves the coordinates of each
    point, and the T-SQL CLR form, which stores all XY, then all Z, then all M, then tables of
    figures and shapes (section 2.1 of [MS-SSCLRT]). */
module Spatial {
  import opened Bytes

  datatype Dim = Dim(z: bool, m: bool) {
    function Stride(): (w: nat)
      ensures w == 16 || w == 24 || w == 32
    {
      16 + (if z then 8 else 0) + (if m then 8 else 0)
    }

    /** The width of n points, as a linear term. */
    function Width(n: nat): (w: nat)
      ensures w == Stride() * n
    {
      16 * n + (if z then 8 * n else 0) + (if m then 8 * n else 0)
    }

    /** The Z and M bits of the CLR properties byte. */
    function Bits(): (b: nat)
      ensures b < 4
    {
      (if z then 1 else 0) + (if m then 2 else 0)
    }

    /** The Z and M bits of the EWKB type word's top byte. */
    function EwkbBits(): (b: nat)
      ensures b <= 0xC0
    {
      (if z then 0x80 else 0) + (if m then 0x40 else 0)
    }
  }

  /** A point as raw coordinate bytes; z and m are empty when the dimension is absent. */
  datatype Pt = Pt(xy: bytes, z: bytes, m: bytes)

  predicate PtOk(p: Pt, d: Dim) {
    |p.xy| == 16 && |p.z| == (if d.z then 8 else 0) && |p.m| == (if d.m then 8 else 0)
  }

  predicate PtsOk(pts: seq<Pt>, d: Dim) {
    forall i :: 0 <= i < |pts| ==> PtOk(pts[i], d)
  }

  predicate AllPtsOk(ptss: seq<seq<Pt>>, d: Dim) {
    forall i :: 0 <= i < |ptss| ==> PtsOk(ptss[i], d)
  }

  /** An IEEE double, little endian, whose exponent bits are all ones. */
  predicate NotFinite(c: bytes) {
    |c| == 8 && c[7] % 128 == 127 && c[6] >= 240
  }

  predicate IsNaN(c: bytes) {
    NotFinite(c) && !(c[6] == 240 && c[..6] == [0, 0, 0, 0, 0, 0])
  }

  const SPECIFIC_NAN: bytes := [0, 0, 0, 0, 0, 0, 0xf8, 0xff]

  lemma SpecificIsNaN()
    ensures IsNaN(SPECIFIC_NAN)
  {
  }

  function NormNaN(c: bytes): (r: bytes)
    ensures |r| == |c|
  {
    if IsNaN(c) then SPECIFIC_NAN else c
  }

  function XyOf(p: Pt): bytes { p.xy }
  function ZOf(p: Pt): bytes { NormNaN(p.z) }
  function MOf(p: Pt): bytes { NormNaN(p.m) }
  function Wkb(p: Pt): bytes { p.xy + p.z + p.m }

  /** The point with every NaN Z and M replaced by the one pattern T-SQL uses. */
  function NormPt(p: Pt): Pt { Pt(p.xy, NormNaN(p.z), NormNaN(p.m)) }

  datatype Geometry =
    | Point(p: Pt)
    | Line(pts: seq<Pt>)
    | Polygon(rings: seq<seq<Pt>>)
    | MultiPoint(pts: seq<Pt>)
    | MultiLine(lines: seq<seq<Pt>>)
    | Empty(kind: byte)
  {
    function Kind(): byte {
      match this
      case Point(_) => 1
      case Line(_) => 2
      case Polygon(_) => 3
      case MultiPoint(_) => 4
      case MultiLine(_) => 5
      case Empty(k) => k
    }

    function Points(): seq<Pt> {
      match this
      case Point(p) => [p]
      case Line(pts) => pts
      case Polygon(rings) => Join(rings)
      case MultiPoint(pts) => pts
      case MultiLine(lines) => Join(lines)
      case Empty(_) => []
    }

    predicate Ok(d: Dim) {
      match this
      case Point(p) => PtOk(p, d)
      case Line(pts) => PtsOk(pts, d)
      case Polygon(rings) => AllPtsOk(rings, d)
      case MultiPoint(pts) => PtsOk(pts, d)
      case MultiLine(lines) => AllPtsOk(lines, d)
      case Empty(_) => true
    }
  }

  // ---- EWKB ----

  /** A header, then a counted run of points: a ring (no header) or a child linestring. */
  function RunBytes(head: bytes, pts: seq<Pt>): bytes { head + Le32(Wrap32(|pts|)) + Flat(pts, Wkb) }

  function PointChild(head: bytes): Pt -> bytes { p => head + Wkb(p) }
  function Run(head: bytes): seq<Pt> -> bytes { pts => RunBytes(head, pts) }

  function EwkbBody(g: Geometry, childHeader: bytes): bytes {
    match g
    case Point(p) => Wkb(p)
    case Line(pts) => RunBytes([], pts)
    case Polygon(rings) => Le32(Wrap32(|rings|)) + Flat(rings, Run([]))
    case MultiPoint(pts) => Le32(Wrap32(|pts|)) + Flat(pts, PointChild(childHeader))
    case MultiLine(lines) => Le32(Wrap32(|lines|)) + Flat(lines, Run(childHeader))
    case Empty(_) => []
  }

  /** Byte order, type word with dimension and SRID flags. */
  function EwkbHeader(kind: byte, d: Dim, hasSrid: bool): (r: bytes)
    ensures |r| == 5
  {
    [1, kind, 0, 0, d.EwkbBits() + (if hasSrid then 0x20 else 0)]
  }

  /** The EWKB of g; srid holds four bytes, or none when the geometry carries no SRID. Every child
      of a multi-geometry starts with the five bytes childHeader. */
  function Ewkb(g: Geometry, d: Dim, srid: bytes, childHeader: bytes): bytes {
    EwkbHeader(g.Kind(), d, srid != []) + srid + EwkbBody(g, childHeader)
  }

  // ---- CLR ----

  datatype Figure = Figure(attribute: byte, offset: nat)
  datatype Shape = Shape(parent: int, figure: nat, kind: byte)

  const INTERIOR_RING: byte := 0
  const STROKE: byte := 1
  const EXTERIOR_RING: byte := 2

  function FigureBytes(f: Figure): (r: bytes)
    ensures |r| == 5
  {
    [f.attribute] + Le32(Wrap32(f.offset))
  }

  function ShapeBytes(s: Shape): (r: bytes)
    ensures |r| == 9
  {
    Le32(Wrap32(s.parent)) + Le32(Wrap32(s.figure)) + [s.kind]
  }

  /** One stroke per run, starting where the runs before it end. */
  function StrokeFigures(runs: seq<seq<Pt>>): (r: seq<Figure>)
    ensures |r| == |runs|
  {
    seq(|runs|, i requires 0 <= i < |runs| => Figure(STROKE, |Join(runs[..i])|))
  }

  function RingFigures(rings: seq<seq<Pt>>): (r: seq<Figure>)
    ensures |r| == |rings|
  {
    seq(|rings|, i requires 0 <= i < |rings| => Figure(if i == 0 then EXTERIOR_RING else INTERIOR_RING, |Join(rings[..i])|))
  }

  function PointFigures(n: nat): (r: seq<Figure>)
    ensures |r| == n
  {
    seq(n, i requires 0 <= i < n => Figure(STROKE, i))
  }

  /** A root shape and n children of one kind, child i owning figure i. */
  function MultiShapes(root: byte, child: byte, n: nat): (r: seq<Shape>)
    ensures |r| == n + 1
  {
    [Shape(-1, 0, root)] + seq(n, i requires 0 <= i < n => Shape(0, i, child))
  }

  function Figures(g: Geometry): seq<Figure> {
    match g
    case Line(_) => [Figure(STROKE, 0)]
    case Polygon(rings) => RingFigures(rings)
    case MultiPoint(pts) => PointFigures(|pts|)
    case MultiLine(lines) => StrokeFigures(lines)
    case _ => []
  }

  function Shapes(g: Geometry): seq<Shape> {
    match g
    case Line(_) => [Shape(-1, 0, 2)]
    case Polygon(_) => [Shape(-1, 0, 3)]
    case MultiPoint(pts) => MultiShapes(4, 1, |pts|)
    case MultiLine(lines) => MultiShapes(5, 2, |lines|)
    case _ => []
  }

  function Tables(figures: seq<Figure>, shapes: seq<Shape>): bytes {
    Le32(Wrap32(|figures|)) + Flat(figures, FigureBytes) + Le32(Wrap32(|shapes|)) + Flat(shapes, ShapeBytes)
  }

  /** Points and lines of at most two points store neither a count nor tables. */
  predicate Counted(g: Geometry) {
    g.Polygon? || g.MultiPoint? || g.MultiLine? || (g.Line? && |g.pts| > 2)
  }

  function Props(g: Geometry, d: Dim, valid: bool): byte {
    d.Bits() + (match g
                case Point(_) => 8 + (if valid then 4 else 0)
                case Line(pts) => (if |pts| > 2 then 0 else 16) + (if valid then 4 else 0)
                case Polygon(_) => if valid then 4 else 0
                case _ => 4)
  }

  function ClrHeader(g: Geometry, d: Dim, srid: bytes, valid: bool, geography: bool): bytes {
    srid + [if !valid && geography then 2 else 1, Props(g, d, valid)]
  }

  function Columns(pts: seq<Pt>): bytes {
    Flat(pts, XyOf) + Flat(pts, ZOf) + Flat(pts, MOf)
  }

  /** The CLR form of a non-empty geometry. */
  function Clr(g: Geometry, d: Dim, srid: bytes, valid: bool, geography: bool): bytes {
    ClrHeader(g, d, srid, valid, geography) +
    if g.Point? then Wkb(g.p)
    else if Counted(g) then Le32(Wrap32(|g.Points()|)) + Columns(g.Points()) + Tables(Figures(g), Shapes(g))
    else Columns(g.Points())
  }

  // ---- Widths ----

  lemma {:induction false} PtWidths(pts: seq<Pt>, d: Dim)
    requires PtsOk(pts, d)
    ensures forall p :: p in pts ==> |Wkb(p)| == d.Stride() && |XyOf(p)| == 16
    ensures forall p :: p in pts ==> |ZOf(p)| == (if d.z then 8 else 0) && |MOf(p)| == (if d.m then 8 else 0)
  {
  }

  lemma {:induction false} ColumnWidths(pts: seq<Pt>, d: Dim)
    requires PtsOk(pts, d)
    ensures |Flat(pts, Wkb)| == d.Width(|pts|)
    ensures |Flat(pts, XyOf)| == 16 * |pts|
    ensures |Flat(pts, ZOf)| == (if d.z then 8 * |pts| else 0)
    ensures |Flat(pts, MOf)| == (if d.m then 8 * |pts| else 0)
    ensures |Columns(pts)| == d.Width(|pts|)
  {
    PtWidths(pts, d);
    FlatWidth(pts, Wkb, d.Stride());
    assert d.Stride() * |pts| == d.Width(|pts|);
    FlatWidth(pts, XyOf, 16);
    FlatWidth(pts, ZOf, if d.z then 8 else 0);
    FlatWidth(pts, MOf, if d.m then 8 else 0);
  }

  lemma {:induction false} JoinOk(ptss: seq<seq<Pt>>, d: Dim)
    requires AllPtsOk(ptss, d)
    ensures PtsOk(Join(ptss), d)
  {
    if ptss != [] {
      JoinOk(ptss[..|ptss| - 1], d);
    }
  }

  lemma {:induction false} PointsOk(g: Geometry, d: Dim)
    requires g.Ok(d)
    ensures PtsOk(g.Points(), d)
  {
    match g
    case Polygon(rings) => JoinOk(rings, d);
    case MultiLine(lines) => JoinOk(lines, d);
    case _ =>
  }

  lemma {:induction false} TablesWidth(figures: seq<Figure>, shapes: seq<Shape>)
    ensures |Tables(figures, shapes)| == 8 + 5 * |figures| + 9 * |shapes|
  {
    FlatWidth(figures, FigureBytes, 5);
    FlatWidth(shapes, ShapeBytes, 9);
  }

  lemma {:induction false} WidthOfRuns(head: bytes, runs: seq<seq<Pt>>, d: Dim)
    requires AllPtsOk(runs, d)
    ensures |head| == 0 ==> |Flat(runs, Run(head))| == 4 * |runs| + d.Width(|Join(runs)|)
    ensures |head| == 5 ==> |Flat(runs, Run(head))| == 9 * |runs| + d.Width(|Join(runs)|)
  {
    if runs != [] {
      var n := |runs| - 1;
      WidthOfRuns(head, runs[..n], d);
      ColumnWidths(runs[n], d);
      assert |Flat(runs, Run(head))| == |Flat(runs[..n], Run(head))| + |head| + 4 + d.Width(|runs[n]|);
      assert d.Width(|Join(runs[..n])|) + d.Width(|runs[n]|) == d.Width(|Join(runs)|);
    }
  }
}
