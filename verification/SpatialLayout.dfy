/** Where every piece of a geometry stands in its CLR bytes, by the numbers of section 2.1 of [MS-SSCLRT]. */
module SpatialLayout {
  import opened Bytes
  import opened Spatial
  import opened SpatialEncoder
  import SpatialParse
  import R = SpatialRoundTrip

  /** SRID, version, and the bits of the properties byte: Z, M, valid, single point, single line segment. */
  ghost predicate HeaderSays(b: bytes, g: Geometry, d: Dim, srid: bytes, valid: bool, geography: bool) {
    |b| >= 6 && b[..4] == srid && (b[4] == 1 || b[4] == 2) && (b[4] == 2 <==> !valid && geography) &&
    (b[5] % 2 == 1 <==> d.z) && (b[5] / 2 % 2 == 1 <==> d.m) && (b[5] / 4 % 2 == 1 <==> valid || g.MultiPoint? || g.MultiLine?) &&
    (b[5] / 8 % 2 == 1 <==> g.Point?) && (b[5] / 16 == 1 <==> g.Line? && |g.pts| <= 2) && b[5] < 32
  }

  /** The points from base on: all XY, then all Z, then all M. */
  ghost predicate PointsSay(b: bytes, base: nat, pts: seq<Pt>, d: Dim, norm: bool) {
    base + d.Width(|pts|) <= |b| &&
    forall i :: 0 <= i < |pts| ==> PointSays(b, base, |pts|, i, pts[i], d, norm)
  }

  ghost predicate PointSays(b: bytes, base: nat, n: nat, i: nat, p: Pt, d: Dim, norm: bool)
    requires i < n && base + d.Width(n) <= |b|
  {
    var z := base + 16 * n + 8 * i;
    var m := z + (if d.z then 8 * n else 0);
    b[base + 16 * i..base + 16 * i + 16] == p.xy && (d.z ==> b[z..z + 8] == if norm then NormNaN(p.z) else p.z) &&
    (d.m ==> b[m..m + 8] == if norm then NormNaN(p.m) else p.m)
  }

  /** How many figures there are, and what figure i is: 0 for an inner ring, 1 for a stroke, 2 for the outer
      ring, and the number of points before it. */
  function FigureCount(g: Geometry): nat {
    match g
    case Line(_) => 1
    case Polygon(rings) => |rings|
    case MultiPoint(pts) => |pts|
    case MultiLine(lines) => |lines|
    case _ => 0
  }

  function FigureCode(g: Geometry, i: nat): byte { if !g.Polygon? then 1 else if i == 0 then 2 else 0 }

  function PointsBefore(g: Geometry, i: nat): nat
    requires i < FigureCount(g)
  {
    match g
    case Polygon(rings) => |Join(rings[..i])|
    case MultiPoint(_) => i
    case MultiLine(lines) => |Join(lines[..i])|
    case _ => 0
  }

  /** One shape for the whole, and one for each part of a multi-geometry. */
  function ShapeCount(g: Geometry): nat { if g.MultiPoint? || g.MultiLine? then FigureCount(g) + 1 else 1 }

  function ShapeCode(g: Geometry, i: nat): byte {
    match g
    case Line(_) => 2
    case Polygon(_) => 3
    case MultiPoint(_) => if i == 0 then 4 else 1
    case MultiLine(_) => if i == 0 then 5 else 2
    case _ => 0
  }

  ghost predicate TablesSay(b: bytes, o: nat, g: Geometry) {
    var nf, ns := FigureCount(g), ShapeCount(g);
    var q := o + 4 + 5 * nf;
    |b| == q + 4 + 9 * ns && U32(b, o) == nf && U32(b, q) == ns &&
    (forall i :: 0 <= i < nf ==> FigureSays(b, o + 4 + 5 * i, g, i)) && (forall i :: 0 <= i < ns ==> ShapeSays(b, q + 4 + 9 * i, g, i))
  }

  ghost predicate FigureSays(b: bytes, o: nat, g: Geometry, i: nat)
    requires i < FigureCount(g)
  {
    o + 5 <= |b| && b[o] == FigureCode(g, i) && U32(b, o + 1) == PointsBefore(g, i)
  }

  /** The root has no parent, which is written as all ones; a part has the root, and the figure of its own. */
  ghost predicate ShapeSays(b: bytes, o: nat, g: Geometry, i: nat)
    requires i < ShapeCount(g)
  {
    o + 9 <= |b| && U32(b, o) == (if i == 0 then 0xFFFF_FFFF else 0) && U32(b, o + 4) == (if i == 0 then 0 else i - 1) && b[o + 8] == ShapeCode(g, i)
  }

  ghost predicate LaidOut(b: bytes, g: Geometry, d: Dim, srid: bytes, valid: bool, geography: bool) {
    HeaderSays(b, g, d, srid, valid, geography) &&
    if !Counted(g) then |b| == 6 + d.Width(|g.Points()|) && PointsSay(b, 6, g.Points(), d, !g.Point?)
    else |b| >= 10 && U32(b, 6) == |g.Points()| && PointsSay(b, 10, g.Points(), d, true) && TablesSay(b, 10 + d.Width(|g.Points()|), g)
  }

  // ---- Proofs ----

  lemma {:induction false} PropsSay(g: Geometry, d: Dim, valid: bool)
    requires !g.Empty?
    ensures var p: int := Props(g, d, valid);
            (p % 2 == 1 <==> d.z) && (p / 2 % 2 == 1 <==> d.m) && (p / 4 % 2 == 1 <==> valid || g.MultiPoint? || g.MultiLine?) &&
            (p / 8 % 2 == 1 <==> g.Point?) && (p / 16 == 1 <==> g.Line? && |g.pts| <= 2) && p < 32
  {
  }

  lemma {:induction false} HeaderSaid(g: Geometry, d: Dim, srid: bytes, valid: bool, geography: bool, rest: bytes)
    requires !g.Empty? && |srid| == 4
    ensures |ClrHeader(g, d, srid, valid, geography)| == 6
    ensures HeaderSays(ClrHeader(g, d, srid, valid, geography) + rest, g, d, srid, valid, geography)
  {
    PropsSay(g, d, valid);
    hide Props;
    var b := ClrHeader(g, d, srid, valid, geography) + rest;
    assert b[..4] == srid && b[4] == (if !valid && geography then 2 else 1) && b[5] == Props(g, d, valid);
  }

  lemma {:induction false} ColumnsSay(pre: bytes, pts: seq<Pt>, post: bytes, d: Dim)
    requires PtsOk(pts, d)
    ensures PointsSay(pre + Columns(pts) + post, |pre|, pts, d, true)
  {
    hide Columns, NormNaN, PtsOk, PointSays;
    var b, n := pre + Columns(pts) + post, |pts|;
    R.ColumnsAre(pts, d);
    forall i | 0 <= i < n ensures PointSays(b, |pre|, n, i, pts[i], d, true) { ColumnSays(pre, pts, post, d, i); }
  }

  lemma {:induction false} ColumnSays(pre: bytes, pts: seq<Pt>, post: bytes, d: Dim, i: nat)
    requires PtsOk(pts, d) && i < |pts|
    ensures |pre| + d.Width(|pts|) <= |pre + Columns(pts) + post| && PointSays(pre + Columns(pts) + post, |pre|, |pts|, i, pts[i], d, true)
  {
    hide Columns, NormNaN, PtsOk, Flat, Dim.Width;
    R.ColumnsAre(pts, d);
    R.XyBack(pre, pts, post, d, i);
    if d.z { R.ZBack(pre, pts, post, d, i); }
    if d.m { R.MBack(pre, pts, post, d, i); }
  }

  lemma {:induction false} PointSaid(pre: bytes, p: Pt, d: Dim)
    requires PtOk(p, d)
    ensures |pre + Wkb(p)| == |pre| + d.Width(1) && PointSays(pre + Wkb(p), |pre|, 1, 0, p, d, false)
  {
  }

  lemma {:induction false} EntriesSay(g: Geometry)
    requires !g.Empty? && Counted(g)
    ensures |Figures(g)| == FigureCount(g) && |Shapes(g)| == ShapeCount(g)
    ensures forall i :: 0 <= i < FigureCount(g) ==> Figures(g)[i] == Figure(FigureCode(g, i), PointsBefore(g, i))
    ensures forall i :: 0 <= i < ShapeCount(g) ==> Shapes(g)[i] == Shape(if i == 0 then -1 else 0, if i == 0 then 0 else i - 1, ShapeCode(g, i))
  {
    hide Join;
  }

  lemma {:induction false} TablesSaid(pre: bytes, g: Geometry)
    requires !g.Empty? && Counted(g) && |g.Points()| < 0x1000_0000 && |Figures(g)| < 0x1000_0000 && |Shapes(g)| < TWO32
    ensures TablesSay(pre + Tables(Figures(g), Shapes(g)), |pre|, g)
  {
    hide Tables, Figures, Shapes, FigureCode, PointsBefore, ShapeCode, FigureCount, ShapeCount, FigureSays, ShapeSays, U32, Counted;
    var b, figures, shapes := pre + Tables(Figures(g), Shapes(g)), Figures(g), Shapes(g);
    EntriesSay(g);
    R.EntriesFit(g);
    R.EntriesBack(pre, figures, shapes);
    var o, q := |pre|, |pre| + 4 + 5 * |figures|;
    forall i | 0 <= i < |figures| ensures FigureSays(b, o + 4 + 5 * i, g, i) {
      assert SpatialParse.FiguresIn(b, o + 4, |figures|)[i] == figures[i];
      FigureSaid(b, o + 4, |figures|, i, g);
    }
    forall i | 0 <= i < |shapes| ensures ShapeSays(b, q + 4 + 9 * i, g, i) {
      assert SpatialParse.ShapesIn(b, q + 4, |shapes|)[i] == shapes[i];
      ShapeSaid(b, q + 4, |shapes|, i, g);
    }
  }

  lemma {:induction false} FigureSaid(b: bytes, o: nat, k: nat, i: nat, g: Geometry)
    requires i < k && o + 5 * k <= |b| && i < FigureCount(g)
    requires SpatialParse.FiguresIn(b, o, k)[i] == Figure(FigureCode(g, i), PointsBefore(g, i))
    ensures FigureSays(b, o + 5 * i, g, i)
  {
    hide U32, PointsBefore, FigureCode, FigureCount;
  }

  lemma {:induction false} ShapeSaid(b: bytes, o: nat, k: nat, i: nat, g: Geometry)
    requires i < k && o + 9 * k <= |b| && i < ShapeCount(g)
    requires SpatialParse.ShapesIn(b, o, k)[i] == Shape(if i == 0 then -1 else 0, if i == 0 then 0 else i - 1, ShapeCode(g, i))
    ensures ShapeSays(b, o + 9 * i, g, i)
  {
    hide U32, ShapeCode, ShapeCount;
  }

  /** The CLR form of every geometry that can be stored is laid out so. */
  lemma {:induction false} ClrLaidOut(g: Geometry, d: Dim, srid: bytes, valid: bool, geography: bool)
    requires g.Ok(d) && !g.Empty? && |srid| == 4 && |Clr(g, d, srid, valid, geography)| <= MAX_ALLOC
    ensures LaidOut(Clr(g, d, srid, valid, geography), g, d, srid, valid, geography)
  {
    hide HeaderSays, PointsSay, TablesSay, Columns, Tables, Figures, Shapes, ClrHeader, Flat, Le32, Wkb, PtsOk;
    var header, pts := ClrHeader(g, d, srid, valid, geography), g.Points();
    ClrWidth(g, d, srid, valid, geography);
    PointsOk(g, d);
    if g.Point? {
      HeaderSaid(g, d, srid, valid, geography, Wkb(g.p));
      OnePoint(header, g.p, d);
    } else if Counted(g) {
      CountedLaidOut(g, d, srid, valid, geography);
    } else {
      HeaderSaid(g, d, srid, valid, geography, Columns(pts));
      ColumnsSay(header, pts, [], d);
      assert header + Columns(pts) + [] == header + Columns(pts);
    }
  }

  lemma {:induction false} OnePoint(pre: bytes, p: Pt, d: Dim)
    requires PtsOk([p], d)
    ensures PointsSay(pre + Wkb(p), |pre|, [p], d, false) && |pre + Wkb(p)| == |pre| + d.Width(1)
  {
    hide Wkb, PointSays;
    assert PtOk([p][0], d);
    PointSaid(pre, p, d);
  }

  lemma {:induction false} CountedLaidOut(g: Geometry, d: Dim, srid: bytes, valid: bool, geography: bool)
    requires g.Ok(d) && !g.Empty? && Counted(g) && |srid| == 4 && |Clr(g, d, srid, valid, geography)| <= MAX_ALLOC
    ensures LaidOut(Clr(g, d, srid, valid, geography), g, d, srid, valid, geography)
  {
    hide HeaderSays, PointsSay, TablesSay, Columns, Tables, Figures, Shapes, ClrHeader, Flat, Le32, Wkb, PtsOk, U32;
    var header, pts := ClrHeader(g, d, srid, valid, geography), g.Points();
    var count, columns, tables := Le32(Wrap32(|pts|)), Columns(pts), Tables(Figures(g), Shapes(g));
    ClrWidth(g, d, srid, valid, geography);
    PointsOk(g, d);
    R.ColumnsAre(pts, d);
    HeaderSaid(g, d, srid, valid, geography, count + columns + tables);
    R.ClrGroup(header, count, columns, tables);
    var b := header + (count + columns + tables);
    ColumnsSay(header + count, pts, tables, d);
    TablesSaid(header + count + columns, g);
    U32OfLe32(header, Wrap32(|pts|), columns + tables);
    R.Parts(header, count, columns, tables, []);
    CountSaid(header, count, columns, tables, |pts|);
    assert b == Clr(g, d, srid, valid, geography);
  }

  lemma {:induction false} CountSaid(header: bytes, count: bytes, columns: bytes, tables: bytes, n: nat)
    requires |header| == 6 && n < TWO32 && count == Le32(n)
    ensures var b := header + count + columns + tables; |b| >= 10 && U32(b, 6) == n
  {
    hide Le32, U32;
    var b := header + count + columns + tables;
    assert b == header + count + (columns + tables);
    U32OfLe32(header, n, columns + tables);
  }

  /** The buffer that the encoder returns. */
  method Encode(wkb: bytes, npoints: nat, isValid: bool, isGeography: bool, ghost g: Geometry, ghost d: Dim,
                ghost srid: bytes, ghost head: bytes)
    returns (r: array?<byte>)
    requires FromPostgis(wkb, g, d, srid, head) && npoints == |g.Points()|
    requires isGeography ==> |srid| == 4
    ensures r != null ==> LaidOut(r[..], g, d, if srid == [] then [0, 0, 0, 0] else srid, isValid, isGeography)
  {
    hide *;
    r := Construct(wkb, npoints, isValid, isGeography, g, d, srid, head);
    if r != null {
      NotEmpty(wkb, g, d, srid, head);
      SridSaid(srid);
      ClrLaidOut(g, d, SridOut(srid), isValid, isGeography);
    }
  }

  lemma SridSaid(srid: bytes)
    requires |srid| == 0 || |srid| == 4
    ensures SridOut(srid) == (if srid == [] then [0, 0, 0, 0] else srid) && |SridOut(srid)| == 4 && MAX_ALLOC == 0x3fff_ffff
  {
  }
}
