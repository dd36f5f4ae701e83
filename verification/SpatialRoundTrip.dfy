/** Encoding a geometry to CLR bytes and decoding them again: exactly which geometries come back, and
    as what. */
module SpatialRoundTrip {
  import opened Bytes
  import opened Spatial
  import opened SpatialParse
  import SpatialDecoder
  import SpatialEncoder

  // ---- Reading back columns and tables ----

  lemma {:induction false} Middle<T>(pre: seq<T>, x: seq<T>, post: seq<T>, a: nat, b: nat)
    requires a <= b <= |x|
    ensures (pre + x + post)[|pre| + a..|pre| + b] == x[a..b]
  {
    forall i | 0 <= i < b - a ensures (pre + x + post)[|pre| + a..|pre| + b][i] == x[a..b][i] {
    }
  }

  /** The ways to single out one of three parts between a prefix and a suffix. */
  lemma {:induction false} Parts(pre: bytes, x: bytes, y: bytes, z: bytes, post: bytes)
    ensures pre + (x + y + z) + post == pre + x + (y + z + post)
    ensures pre + (x + y + z) + post == pre + x + y + (z + post)
    ensures pre + (x + y + z) + post == pre + x + y + z + post
  {
    var b := pre + (x + y + z) + post;
    assert b == pre + x + (y + z + post);
    assert b == pre + x + y + (z + post);
    assert b == pre + x + y + z + post;
  }

  lemma {:induction false} ColumnBack(pre: bytes, pts: seq<Pt>, f: Pt -> bytes, w: nat, post: bytes, i: nat)
    requires i < |pts| && forall p :: p in pts ==> |f(p)| == w
    ensures 0 <= w * i <= w * i + w && |pre| + w * i + w <= |pre + Flat(pts, f) + post|
    ensures (pre + Flat(pts, f) + post)[|pre| + w * i..|pre| + w * i + w] == f(pts[i])
  {
    FlatAt(pts, i, f, w);
    Middle(pre, Flat(pts, f), post, w * i, w * i + w);
  }

  lemma {:induction false} XyBack(pre: bytes, pts: seq<Pt>, post: bytes, d: Dim, i: nat)
    requires PtsOk(pts, d) && i < |pts|
    ensures var b := pre + Columns(pts) + post; |pre| + 16 * i + 16 <= |b| && b[|pre| + 16 * i..|pre| + 16 * i + 16] == XyOf(pts[i])
  {
    hide *;
    ColumnsAre(pts, d);
    ColumnBack(pre, pts, XyOf, 16, Flat(pts, ZOf) + Flat(pts, MOf) + post, i);
    Parts(pre, Flat(pts, XyOf), Flat(pts, ZOf), Flat(pts, MOf), post);
  }

  lemma {:induction false} ZBack(pre: bytes, pts: seq<Pt>, post: bytes, d: Dim, i: nat)
    requires PtsOk(pts, d) && i < |pts| && d.z
    ensures var b, o := pre + Columns(pts) + post, |pre| + 16 * |pts| + 8 * i; o + 8 <= |b| && b[o..o + 8] == ZOf(pts[i])
  {
    hide *;
    ColumnsAre(pts, d);
    ColumnBack(pre + Flat(pts, XyOf), pts, ZOf, 8, Flat(pts, MOf) + post, i);
    Parts(pre, Flat(pts, XyOf), Flat(pts, ZOf), Flat(pts, MOf), post);
  }

  lemma {:induction false} MBack(pre: bytes, pts: seq<Pt>, post: bytes, d: Dim, i: nat)
    requires PtsOk(pts, d) && i < |pts| && d.m
    ensures var b, o := pre + Columns(pts) + post, |pre| + 16 * |pts| + (if d.z then 8 * |pts| else 0) + 8 * i;
            o + 8 <= |b| && b[o..o + 8] == MOf(pts[i])
  {
    hide *;
    ColumnsAre(pts, d);
    ColumnBack(pre + Flat(pts, XyOf) + Flat(pts, ZOf), pts, MOf, 8, post, i);
    Parts(pre, Flat(pts, XyOf), Flat(pts, ZOf), Flat(pts, MOf), post);
  }

  lemma {:induction false} PointBack(pre: bytes, pts: seq<Pt>, post: bytes, d: Dim, i: nat)
    requires PtsOk(pts, d) && i < |pts|
    ensures |pre| + d.Width(|pts|) <= |pre + Columns(pts) + post|
    ensures PointIn(pre + Columns(pts) + post, |pre|, |pts|, i, d) == NormPt(pts[i])
  {
    hide *;
    ColumnsAre(pts, d);
    PtsOkAt(pts, d, i);
    XyBack(pre, pts, post, d, i);
    if d.z { ZBack(pre, pts, post, d, i); }
    if d.m { MBack(pre, pts, post, d, i); }
    PointOf(pre + Columns(pts) + post, |pre|, |pts|, i, d, pts[i]);
  }

  lemma {:induction false} PtsOkAt(pts: seq<Pt>, d: Dim, i: nat)
    requires PtsOk(pts, d) && i < |pts|
    ensures PtOk(pts[i], d) && XyOf(pts[i]) == pts[i].xy
  {
  }

  lemma {:induction false} ColumnsAre(pts: seq<Pt>, d: Dim)
    requires PtsOk(pts, d)
    ensures Columns(pts) == Flat(pts, XyOf) + Flat(pts, ZOf) + Flat(pts, MOf)
    ensures |Flat(pts, XyOf)| == 16 * |pts|
    ensures |Flat(pts, ZOf)| == (if d.z then 8 * |pts| else 0)
    ensures |Flat(pts, MOf)| == (if d.m then 8 * |pts| else 0)
    ensures |Columns(pts)| == d.Width(|pts|)
    ensures forall p :: p in pts ==> |XyOf(p)| == 16
    ensures d.z ==> forall p :: p in pts ==> |ZOf(p)| == 8
    ensures d.m ==> forall p :: p in pts ==> |MOf(p)| == 8
  {
    ColumnWidths(pts, d);
    PtWidths(pts, d);
  }

  lemma {:induction false} PointOf(b: bytes, base: nat, n: nat, i: nat, d: Dim, p: Pt)
    requires i < n && base + d.Width(n) <= |b| && PtOk(p, d)
    requires b[base + 16 * i..base + 16 * i + 16] == p.xy
    requires d.z ==> var o := base + 16 * n + 8 * i; b[o..o + 8] == ZOf(p)
    requires d.m ==> var o := base + 16 * n + (if d.z then 8 * n else 0) + 8 * i; b[o..o + 8] == MOf(p)
    ensures PointIn(b, base, n, i, d) == NormPt(p)
  {
  }

  function Norm(pts: seq<Pt>): (r: seq<Pt>)
    ensures |r| == |pts|
  {
    seq(|pts|, i requires 0 <= i < |pts| => NormPt(pts[i]))
  }

  lemma {:induction false} PointsBack(pre: bytes, pts: seq<Pt>, post: bytes, d: Dim)
    requires PtsOk(pts, d)
    ensures |pre| + d.Width(|pts|) <= |pre + Columns(pts) + post|
    ensures PointsIn(pre + Columns(pts) + post, |pre|, |pts|, d) == Norm(pts)
  {
    ColumnWidths(pts, d);
    forall i | 0 <= i < |pts|
      ensures PointsIn(pre + Columns(pts) + post, |pre|, |pts|, d)[i] == Norm(pts)[i]
    {
      PointBack(pre, pts, post, d, i);
    }
  }

  predicate FiguresFit(figures: seq<Figure>) {
    forall i :: 0 <= i < |figures| ==> figures[i].offset < TWO32
  }

  predicate ShapesFit(shapes: seq<Shape>) {
    forall i :: 0 <= i < |shapes| ==> -1 <= shapes[i].parent < 0x8000_0000 && shapes[i].figure < TWO32
  }

  lemma {:induction false} FigureBack(pre: bytes, f: Figure, post: bytes)
    requires f.offset < TWO32
    ensures FigureIn(pre + FigureBytes(f) + post, |pre|) == f
  {
    assert pre + FigureBytes(f) + post == (pre + [f.attribute]) + Le32(f.offset) + post;
    U32OfLe32(pre + [f.attribute], f.offset, post);
  }

  lemma {:induction false} ShapeBack(pre: bytes, s: Shape, post: bytes)
    requires -1 <= s.parent < 0x8000_0000 && s.figure < TWO32
    ensures ShapeIn(pre + ShapeBytes(s) + post, |pre|) == s
  {
    hide Le32, U32;
    var p, f := Le32(Wrap32(s.parent)), Le32(s.figure);
    var b := pre + ShapeBytes(s) + post;
    assert b == pre + p + (f + [s.kind] + post);
    U32OfLe32(pre, Wrap32(s.parent), f + [s.kind] + post);
    assert b == (pre + p) + f + ([s.kind] + post);
    U32OfLe32(pre + p, s.figure, [s.kind] + post);
  }

  lemma {:induction false} FiguresBack(pre: bytes, figures: seq<Figure>, post: bytes)
    requires FiguresFit(figures)
    ensures |pre| + 5 * |figures| <= |pre + Flat(figures, FigureBytes) + post|
    ensures FiguresIn(pre + Flat(figures, FigureBytes) + post, |pre|, |figures|) == figures
  {
    var b := pre + Flat(figures, FigureBytes) + post;
    FlatWidth(figures, FigureBytes, 5);
    forall i | 0 <= i < |figures| ensures FigureIn(b, |pre| + 5 * i) == figures[i] {
      FlatSplit(figures, i, FigureBytes);
      FlatWidth(figures[..i], FigureBytes, 5);
      var before, after := Flat(figures[..i], FigureBytes), Flat(figures[i + 1..], FigureBytes);
      Parts(pre, before, FigureBytes(figures[i]), after, post);
      FigureBack(pre + before, figures[i], after + post);
    }
  }

  lemma {:induction false} ShapesBack(pre: bytes, shapes: seq<Shape>, post: bytes)
    requires ShapesFit(shapes)
    ensures |pre| + 9 * |shapes| <= |pre + Flat(shapes, ShapeBytes) + post|
    ensures ShapesIn(pre + Flat(shapes, ShapeBytes) + post, |pre|, |shapes|) == shapes
  {
    var b := pre + Flat(shapes, ShapeBytes) + post;
    FlatWidth(shapes, ShapeBytes, 9);
    forall i | 0 <= i < |shapes| ensures ShapeIn(b, |pre| + 9 * i) == shapes[i] {
      FlatSplit(shapes, i, ShapeBytes);
      FlatWidth(shapes[..i], ShapeBytes, 9);
      var before, after := Flat(shapes[..i], ShapeBytes), Flat(shapes[i + 1..], ShapeBytes);
      Parts(pre, before, ShapeBytes(shapes[i]), after, post);
      ShapeBack(pre + before, shapes[i], after + post);
    }
  }

  /** What the parser makes of tables that end the input. */
  lemma {:induction false} TablesForm(figures: seq<Figure>, shapes: seq<Shape>)
    requires |figures| < TWO32 && |shapes| < TWO32
    ensures Tables(figures, shapes) == Le32(|figures|) + Flat(figures, FigureBytes) + Le32(|shapes|) + Flat(shapes, ShapeBytes)
    ensures |Flat(figures, FigureBytes)| == 5 * |figures|
    ensures |Tables(figures, shapes)| == 8 + 5 * |figures| + 9 * |shapes|
  {
    hide Le32, Flat, FigureBytes, ShapeBytes;
    TablesWidth(figures, shapes);
    FlatWidth(figures, FigureBytes, 5);
  }

  lemma {:induction false} FourParts(pre: bytes, c: bytes, f: bytes, e: bytes, s: bytes)
    ensures pre + (c + f + e + s) == pre + c + (f + e + s) == pre + c + f + (e + s) == pre + c + f + e + s == pre + c + f + e + s + []
  {
    Parts(pre, c, f, e, s);
    Assoc(pre, c + f + e, s);
  }

  /** The counts and entries of tables that end the input. */
  lemma {:induction false} EntriesBack(pre: bytes, figures: seq<Figure>, shapes: seq<Shape>)
    requires FiguresFit(figures) && ShapesFit(shapes) && |figures| < TWO32 && |shapes| < TWO32
    ensures var b, o, q := pre + Tables(figures, shapes), |pre|, |pre| + 4 + 5 * |figures|;
            && |b| == q + 4 + 9 * |shapes|
            && U32(b, o) == |figures| && U32(b, q) == |shapes|
            && FiguresIn(b, o + 4, |figures|) == figures && ShapesIn(b, q + 4, |shapes|) == shapes
  {
    var c, f, e, s := Le32(|figures|), Flat(figures, FigureBytes), Le32(|shapes|), Flat(shapes, ShapeBytes);
    hide *;
    TablesForm(figures, shapes);
    FourParts(pre, c, f, e, s);
    U32OfLe32(pre, |figures|, f + e + s);
    FiguresBack(pre + c, figures, e + s);
    U32OfLe32(pre + c + f, |shapes|, s);
    ShapesBack(pre + c + f + e, shapes, []);
  }

  /** What the parser makes of tables that end the input. */
  lemma {:induction false} TablesBack(pre: bytes, figures: seq<Figure>, shapes: seq<Shape>, n: nat)
    requires FiguresFit(figures) && ShapesFit(shapes) && |figures| < TWO32 && 1 <= |shapes| && 12 * |shapes| <= MAX_ALLOC
    ensures var r := ReadTables(pre + Tables(figures, shapes), |pre|, n);
            r == if 1 <= |figures| <= n && FiguresOk(figures, n) && ShapesOk(shapes, |figures|) then Ok(TableData(figures, shapes)) else Err(Conversion)
  {
    hide Tables, U32, FiguresIn, ShapesIn, FiguresOk, ShapesOk, FiguresFit, ShapesFit;
    EntriesBack(pre, figures, shapes);
  }

  // ---- Figures of runs ----

  function NormAll(runs: seq<seq<Pt>>): (r: seq<seq<Pt>>)
    ensures |r| == |runs| && forall i :: 0 <= i < |r| ==> r[i] == Norm(runs[i])
  {
    seq(|runs|, i requires 0 <= i < |runs| => Norm(runs[i]))
  }

  lemma {:induction false} NormSlice(pts: seq<Pt>, a: nat, b: nat)
    requires a <= b <= |pts|
    ensures Norm(pts)[a..b] == Norm(pts[a..b])
  {
  }

  lemma {:induction false} RunOfJoin(runs: seq<seq<Pt>>, i: nat)
    requires i < |runs|
    ensures |Join(runs[..i])| + |runs[i]| == |Join(runs[..i + 1])| <= |Join(runs)|
    ensures Join(runs)[|Join(runs[..i])|..|Join(runs[..i + 1])|] == runs[i]
  {
    JoinSnoc(runs, i);
    JoinSplit(runs, i);
    Middle(Join(runs[..i]), runs[i], Join(runs[i + 1..]), 0, |runs[i]|);
  }

  /** Figure i of the table written for runs starts where run i starts. */
  predicate StartsAtRuns(figures: seq<Figure>, runs: seq<seq<Pt>>) {
    |figures| == |runs| && forall i :: 0 <= i < |runs| ==> figures[i].offset == |Join(runs[..i])|
  }

  lemma {:induction false} EndOfRun(figures: seq<Figure>, runs: seq<seq<Pt>>, i: nat)
    requires StartsAtRuns(figures, runs) && i < |runs|
    ensures EndOf(figures, |Join(runs)|, i) == |Join(runs[..i + 1])|
    ensures EndOf(figures, |Join(runs)|, i) - figures[i].offset == |runs[i]|
  {
    RunOfJoin(runs, i);
    assert i + 1 == |runs| ==> runs[..i + 1] == runs;
  }

  /** The parser accepts such a table exactly when there is a run and no run is empty. */
  lemma {:induction false} FiguresOfRuns(figures: seq<Figure>, runs: seq<seq<Pt>>)
    requires StartsAtRuns(figures, runs) && forall i :: 0 <= i < |runs| ==> figures[i].attribute <= EXTERIOR_RING
    ensures FiguresOk(figures, |Join(runs)|) <==> |runs| >= 1 && forall i :: 0 <= i < |runs| ==> |runs[i]| >= 1
    ensures FiguresOk(figures, |Join(runs)|) ==> |figures| <= |Join(runs)|
  {
    var n := |Join(runs)|;
    if FiguresOk(figures, n) {
      forall i | 0 <= i < |runs| ensures |runs[i]| >= 1 {
        EndOfRun(figures, runs, i);
        assert FigureOk(figures, n, i) && (i + 1 < |runs| ==> FigureOk(figures, n, i + 1));
      }
      OffsetsIncrease(figures, n, 0, |figures| - 1);
      assert FigureOk(figures, n, |figures| - 1);
    }
    if |runs| >= 1 && forall i :: 0 <= i < |runs| ==> |runs[i]| >= 1 {
      forall i | 0 <= i < |runs| ensures FigureOk(figures, n, i) {
        RunOfJoin(runs, i);
        if i > 0 { RunOfJoin(runs, i - 1); }
        assert runs[..0] == [];
      }
    }
  }

  lemma {:induction false} RingsBack(rings: seq<seq<Pt>>)
    ensures var figures, n := RingFigures(rings), |Join(rings)|;
            && (FiguresOk(figures, n) && RingsOk(figures, n) <==> |rings| >= 1 && forall i :: 0 <= i < |rings| ==> |rings[i]| >= 4)
            && (FiguresOk(figures, n) ==> |figures| <= n && RingsOf(figures, Norm(Join(rings))) == NormAll(rings))
  {
    var figures, n := RingFigures(rings), |Join(rings)|;
    FiguresOfRuns(figures, rings);
    forall i | 0 <= i < |rings| ensures RingOk(figures, n, i) <==> |rings[i]| >= 4 {
      EndOfRun(figures, rings, i);
    }
    if FiguresOk(figures, n) {
      forall i | 0 <= i < |rings| ensures RingsOf(figures, Norm(Join(rings)))[i] == NormAll(rings)[i] {
        RunOfJoin(rings, i);
        EndOfRun(figures, rings, i);
        NormSlice(Join(rings), |Join(rings[..i])|, |Join(rings[..i + 1])|);
      }
    }
  }

  lemma {:induction false} MultiShapesBack(figures: seq<Figure>, root: byte, child: byte)
    requires |figures| >= 1 && AllStrokes(figures)
    ensures var shapes := MultiShapes(root, child, |figures|);
            ShapesOk(shapes, |figures|) && ChildrenOk(TableData(figures, shapes), child)
  {
    var shapes := MultiShapes(root, child, |figures|);
    forall i | 0 <= i < |shapes| ensures ShapeOk(shapes, |figures|, i) {
    }
    forall c | 1 <= c < |shapes| ensures ChildOk(TableData(figures, shapes), child, c) {
    }
  }

  /** Child c of a written multi-linestring spans exactly line c - 1. */
  lemma {:induction false} ChildSpan(lines: seq<seq<Pt>>, c: nat)
    requires FiguresOk(StrokeFigures(lines), |Join(lines)|) && 1 <= c <= |lines|
    ensures var t, n := TableData(StrokeFigures(lines), MultiShapes(5, 2, |lines|)), |Join(lines)|;
            && ShapesOk(t.shapes, |t.figures|) && ChildrenOk(t, 2) && ChildOk(t, 2, c)
            && ChildStart(t, n, c) == |Join(lines[..c - 1])| && ChildEnd(t, n, c) == |Join(lines[..c])|
  {
    var t, n := TableData(StrokeFigures(lines), MultiShapes(5, 2, |lines|)), |Join(lines)|;
    MultiShapesBack(t.figures, 5, 2);
    assert ChildOk(t, 2, c);
    if c < |lines| {
      assert ChildOk(t, 2, c + 1);
    } else {
      assert lines[..c] == lines;
    }
  }

  lemma {:induction false} LinesBack(lines: seq<seq<Pt>>)
    requires FiguresOk(StrokeFigures(lines), |Join(lines)|)
    ensures var t, n := TableData(StrokeFigures(lines), MultiShapes(5, 2, |lines|)), |Join(lines)|;
            && ShapesOk(t.shapes, |t.figures|) && ChildrenOk(t, 2) && LinesOrdered(t, n)
            && LinesOf(t, Norm(Join(lines))) == NormAll(lines)
  {
    var t, n := TableData(StrokeFigures(lines), MultiShapes(5, 2, |lines|)), |Join(lines)|;
    MultiShapesBack(t.figures, 5, 2);
    forall c | 1 <= c < |t.shapes| ensures ChildOk(t, 2, c) && ChildStart(t, n, c) <= ChildEnd(t, n, c) {
      ChildSpan(lines, c);
      RunOfJoin(lines, c - 1);
    }
    assert LinesOrdered(t, n);
    forall i | 0 <= i < |lines| ensures LinesOf(t, Norm(Join(lines)))[i] == NormAll(lines)[i] {
      ChildSpan(lines, i + 1);
      RunOfJoin(lines, i);
      NormSlice(Join(lines), |Join(lines[..i])|, |Join(lines[..i + 1])|);
    }
  }

  lemma {:induction false} MultiPointsBack(pts: seq<Pt>)
    requires |pts| >= 1
    ensures var t, n := TableData(PointFigures(|pts|), MultiShapes(4, 1, |pts|)), |pts|;
            && FiguresOk(t.figures, n) && ShapesOk(t.shapes, |t.figures|) && ChildrenOk(t, 1)
            && MultiPointsOf(t, Norm(pts)) == Norm(pts)
  {
    var t, n := TableData(PointFigures(|pts|), MultiShapes(4, 1, |pts|)), |pts|;
    forall i | 0 <= i < n ensures FigureOk(t.figures, n, i) {
    }
    MultiShapesBack(t.figures, 4, 1);
    forall i | 0 <= i < n ensures MultiPointsOf(t, Norm(pts))[i] == Norm(pts)[i] {
      assert ChildOk(t, 1, i + 1);
    }
  }

  // ---- Whole geometries ----

  /** The geometry with every NaN Z and M replaced; a single point is copied as it is. */
  function NormGeometry(g: Geometry): Geometry {
    match g
    case Point(_) => g
    case Line(pts) => Line(Norm(pts))
    case Polygon(rings) => Polygon(NormAll(rings))
    case MultiPoint(pts) => MultiPoint(Norm(pts))
    case MultiLine(lines) => MultiLine(NormAll(lines))
    case Empty(_) => g
  }

  /** What the CLR form, read back, can stand for. */
  predicate Representable(g: Geometry) {
    match g
    case Point(_) => true
    case Line(pts) => |pts| >= 2
    case Polygon(rings) => |rings| >= 1 && forall i :: 0 <= i < |rings| ==> |rings[i]| >= 4
    case MultiPoint(pts) => |pts| >= 1
    case MultiLine(lines) => |lines| >= 1 && forall i :: 0 <= i < |lines| ==> |lines[i]| >= 1
    case Empty(_) => false
  }

  ghost predicate Fits(g: Geometry, d: Dim) {
    && 13 + |EwkbBody(NormGeometry(g), HeadFor(g, d))| <= MAX_ALLOC
    && |g.Points()| < 0x1000_0000 && |Figures(g)| < 0x1000_0000 && 12 * |Shapes(g)| <= MAX_ALLOC
  }

  lemma {:induction false} EntriesFit(g: Geometry)
    requires |g.Points()| < 0x1000_0000 && |Figures(g)| < 0x1000_0000
    ensures FiguresFit(Figures(g)) && ShapesFit(Shapes(g))
  {
    match g
    case Polygon(rings) =>
      forall i | 0 <= i < |rings| ensures |Join(rings[..i])| <= |Join(rings)| { RunOfJoin(rings, i); }
    case MultiLine(lines) =>
      forall i | 0 <= i < |lines| ensures |Join(lines[..i])| <= |Join(lines)| { RunOfJoin(lines, i); }
    case _ =>
  }

  /** Points and tables read back from pre + Columns + Tables. */
  lemma {:induction false} PartsBack(pre: bytes, pts: seq<Pt>, figures: seq<Figure>, shapes: seq<Shape>, d: Dim)
    requires PtsOk(pts, d) && |pre| == 10
    requires FiguresFit(figures) && ShapesFit(shapes) && |figures| < TWO32 && 1 <= |shapes| && 12 * |shapes| <= MAX_ALLOC
    ensures var b := pre + Columns(pts) + Tables(figures, shapes);
            var n, o := |pts|, 10 + d.Width(|pts|);
            && |b| == o + 8 + 5 * |figures| + 9 * |shapes|
            && PointsIn(b, 10, n, d) == Norm(pts)
            && ReadTables(b, o, n) == if 1 <= |figures| <= n && FiguresOk(figures, n) && ShapesOk(shapes, |figures|)
                                      then Ok(TableData(figures, shapes)) else Err(Conversion)
  {
    hide *;
    ColumnsAre(pts, d);
    TablesWidth(figures, shapes);
    PointsBack(pre, pts, Tables(figures, shapes), d);
    TablesBack(pre + Columns(pts), figures, shapes, |pts|);
  }

  /** How the root shape decides the type, when no bytes follow the tables. */
  lemma {:induction false} ByRootShape(b: bytes, h: Head, t: TableData, pts: seq<Pt>)
    requires h.counted && h.npoints == |pts| >= 1 && 10 + h.dim.Width(h.npoints) <= |b|
    requires PointsIn(b, 10, |pts|, h.dim) == pts
    requires var o := 10 + h.dim.Width(h.npoints); ReadTables(b, o, |pts|) == Ok(t) && |b| == o + t.Size()
    ensures ParseCounted(b, h) ==
            match t.shapes[0].kind
            case 1 => ParseSimple(Point(PointIn(b, 10, 1, 0, h.dim)), h.dim, 0)
            case 2 => if AllStrokes(t.figures) then ParseSimple(Line(pts), h.dim, t.Size() - 22) else Err(Conversion)
            case 3 => if RingsOk(t.figures, |pts|) then ParseSimple(Polygon(RingsOf(t.figures, pts)), h.dim, 0) else Err(Conversion)
            case 4 => if ChildrenOk(t, 1) then ParseMulti(MultiPoint(MultiPointsOf(t, pts)), h.dim) else Err(Conversion)
            case 5 =>
              if ChildrenOk(t, 2) && LinesOrdered(t, |pts|) then ParseMulti(MultiLine(LinesOf(t, pts)), h.dim) else Err(Conversion)
            case _ => Err(UnsupportedShape)
  {
    hide Flat, Join, PointsIn, PointIn, RingsOf, LinesOf, MultiPointsOf, ParseSimple, ParseMulti;
    hide FiguresOk, ShapesOk, AllStrokes, RingsOk, ChildrenOk, LinesOrdered, ReadTables;
  }

  lemma {:induction false} TablesRejected(b: bytes, h: Head)
    requires h.counted && h.npoints >= 1 && 10 + h.dim.Width(h.npoints) <= |b|
    requires ReadTables(b, 10 + h.dim.Width(h.npoints), h.npoints) == Err(Conversion)
    ensures ParseCounted(b, h) == Err(Conversion)
  {
    hide Flat, Join, PointsIn, PointIn, RingsOf, LinesOf, MultiPointsOf, ParseSimple, ParseMulti;
    hide FiguresOk, ShapesOk, AllStrokes, RingsOk, ChildrenOk, LinesOrdered, ReadTables;
  }

  lemma {:induction false} LineTables(g: Geometry)
    requires g.Line? && Counted(g)
    ensures FiguresOk(Figures(g), |g.pts|) && ShapesOk(Shapes(g), 1) && AllStrokes(Figures(g)) && |Figures(g)| == |Shapes(g)| == 1
    ensures Representable(g) && Shapes(g)[0].kind == 2
  {
    assert FigureOk(Figures(g), |g.pts|, 0) && ShapeOk(Shapes(g), 1, 0);
  }

  lemma {:induction false} PolygonShape(g: Geometry)
    requires g.Polygon?
    ensures |g.rings| >= 1 ==> ShapesOk(Shapes(g), |g.rings|)
  {
    assert |g.rings| >= 1 ==> ShapeOk(Shapes(g), |g.rings|, 0);
  }

  lemma {:induction false} StrokesBack(lines: seq<seq<Pt>>)
    ensures var figures, n := StrokeFigures(lines), |Join(lines)|;
            && (FiguresOk(figures, n) <==> |lines| >= 1 && forall i :: 0 <= i < |lines| ==> |lines[i]| >= 1)
            && (FiguresOk(figures, n) ==> |figures| <= n)
  {
    FiguresOfRuns(StrokeFigures(lines), lines);
  }

  /** What the parser must find in the tables of g. */
  lemma {:induction false} TablesOfGeometry(g: Geometry, d: Dim)
    requires g.Ok(d) && Counted(g) && |g.Points()| >= 1
    ensures var n, figures, shapes := |g.Points()|, Figures(g), Shapes(g);
            |shapes| >= 1 && shapes[0].kind == g.Kind() &&
            if 1 <= |figures| <= n && FiguresOk(figures, n) && ShapesOk(shapes, |figures|) then
              var t, pts := TableData(figures, shapes), Norm(g.Points());
              match g
              case Line(_) => Representable(g) && AllStrokes(figures) && t.Size() == 22
              case Polygon(rings) => (RingsOk(figures, n) <==> Representable(g)) && RingsOf(figures, pts) == NormAll(rings)
              case MultiPoint(_) => Representable(g) && ChildrenOk(t, 1) && MultiPointsOf(t, pts) == pts
              case MultiLine(lines) => Representable(g) && ChildrenOk(t, 2) && LinesOrdered(t, n) && LinesOf(t, pts) == NormAll(lines)
              case _ => true
            else !Representable(g)
  {
    hide FiguresOk, ShapesOk, ChildrenOk, LinesOrdered, AllStrokes, RingsOk, RingsOf, MultiPointsOf, LinesOf, NormAll, Norm, Join;
    hide RingFigures, StrokeFigures, PointFigures;
    match g
    case Line(_) => LineTables(g);
    case Polygon(rings) =>
      RingsBack(rings);
      PolygonShape(g);
    case MultiPoint(pts) => MultiPointsBack(pts);
    case MultiLine(lines) =>
      StrokesBack(lines);
      if FiguresOk(StrokeFigures(lines), |Join(lines)|) { LinesBack(lines); }
  }

  lemma {:induction false} ParsesTo(g: Geometry, d: Dim)
    requires Fits(g, d) && !g.Empty?
    ensures g.MultiPoint? || g.MultiLine? ==> ParseMulti(NormGeometry(g), d) == Ok(Parsed(NormGeometry(g), d, 0))
    ensures !(g.MultiPoint? || g.MultiLine?) ==> ParseSimple(NormGeometry(g), d, 0) == Ok(Parsed(NormGeometry(g), d, 0))
  {
  }

  lemma {:induction false} FitsIs(g: Geometry, d: Dim)
    requires g.Ok(d) && Counted(g) && Fits(g, d)
    ensures PtsOk(g.Points(), d) && FiguresFit(Figures(g)) && ShapesFit(Shapes(g))
    ensures |Figures(g)| < TWO32 && 12 * |Shapes(g)| <= MAX_ALLOC
    ensures NormGeometry(g) ==
            match g
            case Line(pts) => Line(Norm(pts))
            case Polygon(rings) => Polygon(NormAll(rings))
            case MultiPoint(pts) => MultiPoint(Norm(pts))
            case MultiLine(lines) => MultiLine(NormAll(lines))
            case _ => g
    ensures g.Kind() == if g.Line? then 2 else if g.Polygon? then 3 else if g.MultiPoint? then 4 else 5
    ensures !g.Empty? && !g.Point? && (g.Line? || g.MultiPoint? ==> g.Points() == g.pts)
  {
    PointsOk(g, d);
    EntriesFit(g);
  }

  /** Decoding the counted form, once the header is read. */
  lemma {:induction false} CountedBack(pre: bytes, g: Geometry, d: Dim)
    requires g.Ok(d) && Counted(g) && Fits(g, d) && |pre| == 10 && |g.Points()| >= 1
    ensures var b, n := pre + Columns(g.Points()) + Tables(Figures(g), Shapes(g)), |g.Points()|;
            && 10 + d.Width(n) <= |b|
            && ParseCounted(b, Head(d, 0, true, n, false)) ==
               if Representable(g) then Ok(Parsed(NormGeometry(g), d, 0)) else Err(Conversion)
  {
    hide *;
    FitsIs(g, d);
    TablesOfGeometry(g, d);
    var pts, figures, shapes := g.Points(), Figures(g), Shapes(g);
    var b, n := pre + Columns(pts) + Tables(figures, shapes), |pts|;
    PartsBack(pre, pts, figures, shapes, d);
    var h, t := Head(d, 0, true, n, false), TableData(figures, shapes);
    if ReadTables(b, 10 + d.Width(n), n).Ok? {
      SizeIs(t);
      ByRootShape(b, h, t, Norm(pts));
      ParsesTo(g, d);
    } else {
      TablesRejected(b, h);
    }
  }

  lemma {:induction false} SizeIs(t: TableData)
    ensures t.Size() == 8 + 5 * |t.figures| + 9 * |t.shapes|
  {
  }

  // ---- Header and coordinate checks ----

  predicate XyFinite(p: Pt)
    requires |p.xy| == 16
  {
    !NotFinite(p.xy[..8]) && !NotFinite(p.xy[8..])
  }

  predicate AllFinite(pts: seq<Pt>) {
    forall i :: 0 <= i < |pts| ==> |pts[i].xy| == 16 && XyFinite(pts[i])
  }

  lemma {:induction false} FiniteBack(b: bytes, base: nat, pts: seq<Pt>)
    requires base + 16 * |pts| <= |b|
    requires forall i :: 0 <= i < |pts| ==> |pts[i].xy| == 16 && b[base + 16 * i..base + 16 * i + 16] == pts[i].xy
    ensures Finite(b, base, |pts|) <==> AllFinite(pts)
  {
    forall i | 0 <= i < |pts|
      ensures b[base + 8 * (2 * i)..base + 8 * (2 * i) + 8] == pts[i].xy[..8]
      ensures b[base + 8 * (2 * i + 1)..base + 8 * (2 * i + 1) + 8] == pts[i].xy[8..]
    {
      Slice(b, base + 16 * i, base + 16 * i + 16, 0, 8);
      Slice(b, base + 16 * i, base + 16 * i + 16, 8, 16);
    }
    if AllFinite(pts) {
      forall j | 0 <= j < 2 * |pts| ensures !NotFinite(b[base + 8 * j..base + 8 * j + 8]) {
        assert XyFinite(pts[j / 2]);
        assert j == 2 * (j / 2) || j == 2 * (j / 2) + 1;
      }
    }
    if Finite(b, base, |pts|) {
      forall i | 0 <= i < |pts| ensures XyFinite(pts[i]) {
        assert !NotFinite(b[base + 8 * (2 * i)..base + 8 * (2 * i) + 8]);
        assert !NotFinite(b[base + 8 * (2 * i + 1)..base + 8 * (2 * i + 1) + 8]);
      }
    }
  }

  lemma {:induction false} PropsBack(g: Geometry, d: Dim, valid: bool)
    requires !g.Empty?
    ensures DimOf(Props(g, d, valid)) == d
    ensures Counted(g) ==> Props(g, d, valid) < 8
    ensures g.Point? ==> 8 <= Props(g, d, valid) < 16
    ensures g.Line? && !Counted(g) ==> 16 <= Props(g, d, valid) < 24
  {
  }

  lemma {:induction false} ZeroCount(n: int)
    requires 0 < n < TWO32
    ensures Le32(n) != [0, 0, 0, 0]
  {
    U32OfLe32([], n, []);
    assert [] + Le32(n) + [] == Le32(n);
    assert U32([0, 0, 0, 0], 0) == 0;
  }

  /** The header the parser reads, by type. */
  lemma {:induction false} HeadBack(b: bytes, g: Geometry, d: Dim, srid: bytes, valid: bool, geography: bool, rest: bytes)
    requires !g.Empty? && |srid| == 4 && 1 <= |g.Points()| < 0x1000_0000
    requires b == ClrHeader(g, d, srid, valid, geography) + rest && |b| >= 22
    requires Counted(g) ==> 10 + d.Width(|g.Points()|) <= |b| && rest[..4] == Le32(|g.Points()|)
    ensures b[..4] == srid && U32(b, 0) == U32(srid, 0)
    ensures ParseHead(b) ==
            if Counted(g) then Ok(Head(d, 0, true, |g.Points()|, false))
            else if g.Point? then (if 6 + d.Width(1) > |b| then Err(Conversion) else Ok(Head(d, 1, false, 1, false)))
            else if 6 + d.Width(2) > |b| then Err(Conversion) else Ok(Head(d, 2, false, 2, false))
  {
    hide Le32, U32;
    assert b[..4] == srid;
    FirstWord(b, srid);
    PropsBack(g, d, valid);
    assert b[5] == Props(g, d, valid) && (b[4] == 1 || b[4] == 2);
    if Counted(g) {
      var n := |g.Points()|;
      assert b[6..10] == Le32(n);
      Le32OfU32(b, 6);
      U32OfLe32(b[..6], n, b[10..]);
      assert b == b[..6] + Le32(n) + b[10..];
      ZeroCount(n);
      assert EMPTY_COORD[..4] == [0, 0, 0, 0];
      assert |b| >= 26 ==> b[6..26][..4] == b[6..10];
    }
  }

  // ---- The round trip ----

  /** Exactly the geometries that survive encoding and decoding. */
  predicate Survives(g: Geometry, srid: bytes)
    requires |srid| == 4
  {
    Representable(g) && AllFinite(g.Points()) && 0 <= Signed32(U32(srid, 0)) <= 999999
  }

  /** The outcome g must have: itself, with NaN Z and M in their one pattern, if it survives; an error
      if it does not. */
  ghost predicate RoundTripsTo(r: Result<bytes>, g: Geometry, d: Dim, srid: bytes)
    requires |srid| == 4
  {
    if Survives(g, srid) then r == Ok(Ewkb(NormGeometry(g), d, srid, HeadFor(g, d))) else r.Err?
  }

  ghost predicate RoundTrips(b: bytes, g: Geometry, d: Dim, srid: bytes)
    requires |srid| == 4
  {
    RoundTripsTo(Decoded(b), g, d, srid)
  }

  lemma {:induction false} MeaningIs(g: Geometry, d: Dim, srid: bytes)
    requires !g.Empty?
    ensures Meaning(Parsed(NormGeometry(g), d, 0), srid) == Ewkb(NormGeometry(g), d, srid, HeadFor(g, d))
  {
    var e := Ewkb(NormGeometry(g), d, srid, HeadFor(NormGeometry(g), d));
    assert e + Zeros(0) == e;
  }

  lemma {:induction false} XyOfNorm(b: bytes, base: nat, pts: seq<Pt>, d: Dim)
    requires PtsOk(pts, d) && base + d.Width(|pts|) <= |b| && PointsIn(b, base, |pts|, d) == Norm(pts)
    ensures forall i :: 0 <= i < |pts| ==> |pts[i].xy| == 16 && b[base + 16 * i..base + 16 * i + 16] == pts[i].xy
  {
    forall i | 0 <= i < |pts| ensures |pts[i].xy| == 16 && b[base + 16 * i..base + 16 * i + 16] == pts[i].xy {
      assert PointsIn(b, base, |pts|, d)[i] == PointIn(b, base, |pts|, i, d);
    }
  }

  /** Parsing, once header, coordinates and body have been read back. */
  lemma {:induction false} FirstWord(b: bytes, srid: bytes)
    requires |b| >= 4 && b[..4] == srid
    ensures U32(b, 0) == U32(srid, 0)
  {
  }

  lemma {:induction false} Conclude(b: bytes, g: Geometry, d: Dim, srid: bytes, h: Head, body: Result<Parsed>)
    requires !g.Empty? && |b| >= 22 && b[..4] == srid && ParseHead(b) == Ok(h) && !h.empty
    requires h.npoints == |g.Points()| && h.Base() + 16 * h.npoints <= |b| && (Finite(b, h.Base(), h.npoints) <==> AllFinite(g.Points()))
    requires body == (if Representable(g) then Ok(Parsed(NormGeometry(g), d, 0)) else Err(Conversion))
    requires body == if h.counted then ParseCounted(b, h)
                     else if h.kind == 1 then ParseSimple(Point(PointIn(b, 6, 1, 0, h.dim)), h.dim, 0)
                     else ParseSimple(Line(PointsIn(b, 6, 2, h.dim)), h.dim, |b| - 6 - h.dim.Width(2))
    ensures RoundTrips(b, g, d, srid)
  {
    hide Representable, AllFinite, Finite, ParseCounted, ParseSimple, PointIn, PointsIn, Meaning, Ewkb, U32, ParseHead, NormGeometry;
    MeaningIs(g, d, srid);
    FirstWord(b, srid);
  }

  lemma {:induction false} CountedRoundTrip(g: Geometry, d: Dim, srid: bytes, valid: bool, geography: bool)
    requires g.Ok(d) && Counted(g) && |g.Points()| >= 1 && |srid| == 4 && Fits(g, d)
    ensures RoundTrips(Clr(g, d, srid, valid, geography), g, d, srid)
  {
    hide *;
    FitsIs(g, d);
    TablesOfGeometry(g, d);
    CountedForm(g, d, srid, valid, geography);
    var n, pts := |g.Points()|, g.Points();
    var header, count := ClrHeader(g, d, srid, valid, geography), Le32(|g.Points()|);
    var tables := Tables(Figures(g), Shapes(g));
    var b := Clr(g, d, srid, valid, geography);
    PartsBack(header + count, pts, Figures(g), Shapes(g), d);
    CountedBack(header + count, g, d);
    HeadBack(b, g, d, srid, valid, geography, count + Columns(pts) + tables);
    XyOfNorm(b, 10, pts, d);
    FiniteBack(b, 10, pts);
    var h := Head(d, 0, true, n, false);
    BaseIs(h);
    Conclude(b, g, d, srid, h, ParseCounted(b, h));
  }

  lemma {:induction false} BaseIs(h: Head)
    ensures h.Base() == if h.counted then 10 else 6
    ensures 16 * h.npoints <= h.dim.Width(h.npoints)
  {
  }

  lemma {:induction false} CountedForm(g: Geometry, d: Dim, srid: bytes, valid: bool, geography: bool)
    requires g.Ok(d) && Counted(g) && |g.Points()| >= 1 && |srid| == 4 && Fits(g, d)
    ensures |g.Points()| < 0x1000_0000 && |g.Points()| < TWO32
    ensures |Figures(g)| < 0x1000_0000
    ensures var header, count := ClrHeader(g, d, srid, valid, geography), Le32(|g.Points()|);
            var columns, tables := Columns(g.Points()), Tables(Figures(g), Shapes(g));
            && |header| == 6 && |count| == 4 && (count + columns + tables)[..4] == count
            && Clr(g, d, srid, valid, geography) == header + (count + columns + tables)
            && Clr(g, d, srid, valid, geography) == header + count + columns + tables
  {
    hide Columns, Tables, Figures, Shapes, Le32, U32, Flat;
    assert Wrap32(|g.Points()|) == |g.Points()|;
    ClrGroup(ClrHeader(g, d, srid, valid, geography), Le32(|g.Points()|), Columns(g.Points()), Tables(Figures(g), Shapes(g)));
  }

  lemma {:induction false} ClrGroup(header: bytes, count: bytes, columns: bytes, tables: bytes)
    ensures header + (count + columns + tables) == header + count + columns + tables
    ensures |count| == 4 ==> (count + columns + tables)[..4] == count
  {
    Assoc4(header, count, columns, tables);
  }

  /** Lines of at most two points carry no tables; one point alone is too short to be read back. */
  lemma {:induction false} ShortLineRoundTrip(g: Geometry, d: Dim, srid: bytes, valid: bool, geography: bool)
    requires g.Ok(d) && g.Line? && 1 <= |g.pts| <= 2 && |srid| == 4 && Fits(g, d)
    ensures RoundTrips(Clr(g, d, srid, valid, geography), g, d, srid)
  {
    hide *;
    var pts, b, header := g.pts, Clr(g, d, srid, valid, geography), ClrHeader(g, d, srid, valid, geography);
    ShortLineForm(g, d, srid, valid, geography);
    HeadBack(b, g, d, srid, valid, geography, Columns(pts));
    if |pts| == 2 {
      PointsBack(header, pts, [], d);
      XyOfNorm(b, 6, pts, d);
      FiniteBack(b, 6, pts);
      LineIs(g, d);
      ParsesTo(g, d);
      var h := Head(d, 2, false, 2, false);
      BaseIs(h);
      Conclude(b, g, d, srid, h, ParseSimple(Line(PointsIn(b, 6, 2, d)), d, |b| - 6 - d.Width(2)));
    } else {
      HeadRejected(b, g, d, srid);
    }
  }

  lemma {:induction false} HeadRejected(b: bytes, g: Geometry, d: Dim, srid: bytes)
    requires |srid| == 4 && |b| >= 22 && ParseHead(b).Err? && !Representable(g)
    ensures RoundTrips(b, g, d, srid)
  {
  }

  lemma {:induction false} ShortLineForm(g: Geometry, d: Dim, srid: bytes, valid: bool, geography: bool)
    requires g.Ok(d) && g.Line? && 1 <= |g.pts| <= 2 && |srid| == 4
    ensures var b, header := Clr(g, d, srid, valid, geography), ClrHeader(g, d, srid, valid, geography);
            && b == header + Columns(g.pts) && b == header + Columns(g.pts) + [] && |header| == 6
            && |b| == 6 + d.Width(|g.pts|) && |b| >= 22
    ensures PtsOk(g.pts, d) && g.Points() == g.pts && !Counted(g) && (|g.pts| == 1 ==> !Representable(g) && d.Width(1) < d.Width(2))
  {
    ColumnWidths(g.pts, d);
    hide Columns, Flat;
  }

  lemma {:induction false} LineIs(g: Geometry, d: Dim)
    requires g.Line? && |g.pts| == 2
    ensures NormGeometry(g) == Line(Norm(g.pts)) && Representable(g) && g.Points() == g.pts
  {
  }

  lemma {:induction false} PointForm(g: Geometry, d: Dim, srid: bytes, valid: bool, geography: bool)
    requires g.Ok(d) && g.Point? && |srid| == 4
    ensures var b, header := Clr(g, d, srid, valid, geography), ClrHeader(g, d, srid, valid, geography);
            b == header + Wkb(g.p) && |header| == 6 && |b| >= 22 && |g.p.xy| == 16 && b[6..22] == g.p.xy && PtOk(g.p, d) && !Counted(g)
  {
    SpatialDecoder.PointBytes(g.p, d);
  }

  lemma {:induction false} PointRoundTrip(g: Geometry, d: Dim, srid: bytes, valid: bool, geography: bool)
    requires g.Ok(d) && g.Point? && |srid| == 4 && Fits(g, d)
    ensures RoundTrips(Clr(g, d, srid, valid, geography), g, d, srid)
  {
    hide *;
    var b, header := Clr(g, d, srid, valid, geography), ClrHeader(g, d, srid, valid, geography);
    PointForm(g, d, srid, valid, geography);
    PointIs(g);
    PointRead(header, g.p, d);
    FiniteBack(b, 6, [g.p]);
    HeadBack(b, g, d, srid, valid, geography, Wkb(g.p));
    ParsesTo(g, d);
    var h := Head(d, 1, false, 1, false);
    BaseIs(h);
    Conclude(b, g, d, srid, h, ParseSimple(Point(PointIn(b, 6, 1, 0, d)), d, 0));
  }

  lemma {:induction false} PointIs(g: Geometry)
    requires g.Point?
    ensures NormGeometry(g) == g && Representable(g) && g.Points() == [g.p]
  {
  }

  lemma {:induction false} PointRead(header: bytes, p: Pt, d: Dim)
    requires |header| == 6 && PtOk(p, d)
    ensures 6 + d.Width(1) == |header + Wkb(p)| && PointIn(header + Wkb(p), 6, 1, 0, d) == p
  {
  }

  /** Encoding a non-empty geometry and decoding the bytes gives the geometry back exactly when it
      survives; every other geometry is rejected. */
  lemma {:induction false} RoundTrip(g: Geometry, d: Dim, srid: bytes, valid: bool, geography: bool)
    requires g.Ok(d) && !g.Empty? && |g.Points()| >= 1 && |srid| == 4 && Fits(g, d)
    ensures RoundTrips(Clr(g, d, srid, valid, geography), g, d, srid)
  {
    if Counted(g) {
      CountedRoundTrip(g, d, srid, valid, geography);
    } else if g.Point? {
      PointRoundTrip(g, d, srid, valid, geography);
    } else {
      ShortLineRoundTrip(g, d, srid, valid, geography);
    }
  }

  // ---- Byte identity ----

  /** No Z or M is NaN. */
  predicate Clean(pts: seq<Pt>) {
    forall i :: 0 <= i < |pts| ==> !IsNaN(pts[i].z) && !IsNaN(pts[i].m)
  }

  lemma {:induction false} CleanRuns(runs: seq<seq<Pt>>)
    requires Clean(Join(runs))
    ensures NormAll(runs) == runs
  {
    forall i | 0 <= i < |runs| ensures Norm(runs[i]) == runs[i] {
      RunOfJoin(runs, i);
      forall j | 0 <= j < |runs[i]| ensures Norm(runs[i])[j] == runs[i][j] {
        assert runs[i][j] == Join(runs)[|Join(runs[..i])| + j];
      }
    }
  }

  lemma {:induction false} CleanIsFixed(g: Geometry)
    requires Clean(g.Points())
    ensures NormGeometry(g) == g
  {
    match g
    case Polygon(rings) => CleanRuns(rings);
    case MultiLine(lines) => CleanRuns(lines);
    case Line(pts) => assert Norm(pts) == pts;
    case MultiPoint(pts) => assert Norm(pts) == pts;
    case _ =>
  }

  /** Neither NaN patterns nor the bytes of child headers change the size. */
  lemma {:induction false} NormWidths(g: Geometry, d: Dim, head: bytes, other: bytes)
    requires g.Ok(d) && |other| == 5 && (g.MultiPoint? || g.MultiLine? ==> |head| == 5)
    ensures |EwkbBody(NormGeometry(g), other)| == |EwkbBody(g, head)|
  {
    match g
    case Line(pts) => NormWidth(pts, d);
    case Polygon(rings) => NormRunsWidth(rings, d, [], []);
    case MultiPoint(pts) =>
      NormWidth(pts, d);
      SpatialEncoder.WidthOfPoints(head, pts, d);
      SpatialEncoder.WidthOfPoints(other, Norm(pts), d);
    case MultiLine(lines) => NormRunsWidth(lines, d, head, other);
    case _ =>
  }

  lemma {:induction false} NormWidth(pts: seq<Pt>, d: Dim)
    requires PtsOk(pts, d)
    ensures PtsOk(Norm(pts), d) && |Flat(Norm(pts), Wkb)| == |Flat(pts, Wkb)|
  {
    assert PtsOk(Norm(pts), d);
    ColumnWidths(pts, d);
    ColumnWidths(Norm(pts), d);
  }

  lemma {:induction false} NormRunsWidth(runs: seq<seq<Pt>>, d: Dim, head: bytes, other: bytes)
    requires AllPtsOk(runs, d) && (|head| == 0 || |head| == 5) && |other| == |head|
    ensures |Flat(NormAll(runs), Run(other))| == |Flat(runs, Run(head))|
  {
    forall i | 0 <= i < |runs| ensures PtsOk(NormAll(runs)[i], d) {
      NormWidth(runs[i], d);
    }
    WidthOfRuns(head, runs, d);
    WidthOfRuns(other, NormAll(runs), d);
    NormJoin(runs);
  }

  lemma {:induction false} NormJoin(runs: seq<seq<Pt>>)
    ensures |Join(NormAll(runs))| == |Join(runs)|
  {
    if runs != [] {
      var n := |runs| - 1;
      NormJoin(runs[..n]);
      assert NormAll(runs)[..n] == NormAll(runs[..n]);
    }
  }

  /** When both results can be allocated, every count fits. */
  lemma {:induction false} FitsWhenAllocated(wkb: bytes, g: Geometry, d: Dim, srid: bytes, head: bytes, out: bytes,
                                             valid: bool, geography: bool)
    requires SpatialEncoder.FromPostgis(wkb, g, d, srid, head) && |out| == 4
    requires |wkb| + 8 - |srid| <= MAX_ALLOC && |Clr(g, d, out, valid, geography)| + 4 <= MAX_ALLOC
    ensures Fits(g, d)
  {
    SpatialEncoder.CountsFit(wkb, g, d, srid, head);
    SpatialEncoder.ClrWidth(g, d, out, valid, geography);
    SpatialEncoder.HeaderOf(wkb, g, d, srid, head);
    NormWidths(g, d, head, HeadFor(g, d));
  }

  /** Encodes what PostGIS sent and decodes it again. A clean polygon, linestring or point that
      survives comes back byte for byte; a geometry that does not survive is rejected. */
  method EncodeThenDecode(wkb: bytes, npoints: nat, isValid: bool, isGeography: bool, ghost g: Geometry, ghost d: Dim,
                          ghost srid: bytes, ghost head: bytes)
    returns (r: Result<bytes>)
    requires SpatialEncoder.FromPostgis(wkb, g, d, srid, head) && npoints == |g.Points()| >= 1
    requires isGeography ==> |srid| == 4
    requires |wkb| + 8 - |srid| <= MAX_ALLOC && |Clr(g, d, SpatialEncoder.SridOut(srid), isValid, isGeography)| + 4 <= MAX_ALLOC
    ensures RoundTripsTo(r, g, d, SpatialEncoder.SridOut(srid))
    ensures Survives(g, SpatialEncoder.SridOut(srid)) && Clean(g.Points()) && srid != [] && !g.MultiPoint? && !g.MultiLine? ==> r == Ok(wkb)
  {
    var clr := SpatialEncoder.Construct(wkb, npoints, isValid, isGeography, g, d, srid, head);
    FitsWhenAllocated(wkb, g, d, srid, head, SpatialEncoder.SridOut(srid), isValid, isGeography);
    RoundTrip(g, d, SpatialEncoder.SridOut(srid), isValid, isGeography);
    r := SpatialDecoder.Decode(clr[..]);
    if Clean(g.Points()) {
      CleanIsFixed(g);
    }
  }
}
