/** A reader of extended well-known binary, written from the format alone: what PostGIS makes of the bytes
    that the decoder returns. */
module EwkbReader {
  import opened Bytes
  import opened Spatial
  import P = SpatialParse
  import E = SpatialEncoder

  datatype Read<+T> = Bad | Got(value: T, rest: bytes)

  datatype Head = Head(kind: int, d: Dim, srid: bool)

  /** A geometry in which every part has its own dimensions. */
  datatype Tree =
    | PointT(d: Dim, p: Pt)
    | LineT(d: Dim, pts: seq<Pt>)
    | PolygonT(d: Dim, rings: seq<seq<Pt>>)
    | MultiT(kind: int, d: Dim, parts: seq<Tree>)

  /** Byte order, then the type word. Z and M are marked by its two highest bits, or by adding 1000, 2000 or
      3000 to the type; the third highest bit says that an SRID follows. */
  function ReadHead(b: bytes): Read<Head> {
    if |b| < 5 || b[0] != 1 then Bad else
    var word := U32(b, 1);
    var low := word % 0x1000_0000;
    var z := word / 0x8000_0000 == 1 || low / 1000 == 1 || low / 1000 == 3;
    var m := word / 0x4000_0000 % 2 == 1 || low / 1000 == 2 || low / 1000 == 3;
    Got(Head(low % 1000, Dim(z, m), word / 0x2000_0000 % 2 == 1), b[5..])
  }

  /** X and Y, then Z and M if present, for each point in turn. */
  function ReadPoint(b: bytes, d: Dim): Read<Pt> {
    var z, m := 16 + (if d.z then 8 else 0), if d.m then 8 else 0;
    if |b| < z + m then Bad else Got(Pt(b[..16], b[16..z], b[z..z + m]), b[z + m..])
  }

  function ReadPoints(b: bytes, d: Dim, n: nat): Read<seq<Pt>>
    decreases n
  {
    if n == 0 then Got([], b) else
    match ReadPoint(b, d)
    case Bad => Bad
    case Got(p, rest) =>
      match ReadPoints(rest, d, n - 1)
      case Bad => Bad
      case Got(ps, rest') => Got([p] + ps, rest')
  }

  function ReadRun(b: bytes, d: Dim): Read<seq<Pt>> {
    if |b| < 4 then Bad else ReadPoints(b[4..], d, U32(b, 0))
  }

  function ReadRuns(b: bytes, d: Dim, n: nat): Read<seq<seq<Pt>>>
    decreases n
  {
    if n == 0 then Got([], b) else
    match ReadRun(b, d)
    case Bad => Bad
    case Got(run, rest) =>
      match ReadRuns(rest, d, n - 1)
      case Bad => Bad
      case Got(runs, rest') => Got([run] + runs, rest')
  }

  function ReadSimple(b: bytes, h: Head): Read<Tree> {
    if h.kind == 1 then
      match ReadPoint(b, h.d) case Bad => Bad case Got(p, rest) => Got(PointT(h.d, p), rest)
    else if h.kind == 2 then
      match ReadRun(b, h.d) case Bad => Bad case Got(pts, rest) => Got(LineT(h.d, pts), rest)
    else if h.kind == 3 && |b| >= 4 then
      match ReadRuns(b[4..], h.d, U32(b, 0)) case Bad => Bad case Got(rings, rest) => Got(PolygonT(h.d, rings), rest)
    else Bad
  }

  /** A part of a multi-geometry is a geometry of its own, with its own header. */
  function ReadPart(b: bytes): Read<Tree> {
    match ReadHead(b)
    case Bad => Bad
    case Got(h, rest) => if h.srid then Bad else ReadSimple(rest, h)
  }

  function ReadParts(b: bytes, n: nat): Read<seq<Tree>>
    decreases n
  {
    if n == 0 then Got([], b) else
    match ReadPart(b)
    case Bad => Bad
    case Got(t, rest) =>
      match ReadParts(rest, n - 1)
      case Bad => Bad
      case Got(ts, rest') => Got([t] + ts, rest')
  }

  function ReadTree(b: bytes, h: Head): Read<Tree> {
    if h.kind == 4 || h.kind == 5 then
      if |b| < 4 then Bad else
      match ReadParts(b[4..], U32(b, 0)) case Bad => Bad case Got(parts, rest) => Got(MultiT(h.kind, h.d, parts), rest)
    else ReadSimple(b, h)
  }

  datatype Located = Located(srid: bytes, tree: Tree)

  function ReadEwkb(b: bytes): Read<Located> {
    match ReadHead(b)
    case Bad => Bad
    case Got(h, rest) =>
      var k := if h.srid then 4 else 0;
      if |rest| < k then Bad else
      match ReadTree(rest[k..], h) case Bad => Bad case Got(t, rest') => Got(Located(rest[..k], t), rest')
  }

  // ---- What a geometry is to the reader ----

  function TreeOf(g: Geometry, d: Dim): Tree {
    match g
    case Point(p) => PointT(d, p)
    case Line(pts) => LineT(d, pts)
    case Polygon(rings) => PolygonT(d, rings)
    case MultiPoint(pts) => MultiT(4, d, seq(|pts|, i requires 0 <= i < |pts| => PointT(d, pts[i])))
    case MultiLine(lines) => MultiT(5, d, seq(|lines|, i requires 0 <= i < |lines| => LineT(d, lines[i])))
    case Empty(kind) =>
      if kind == 1 then PointT(d, Pt(P.NAN_COORD + P.NAN_COORD, [], []))
      else if kind == 2 then LineT(d, []) else if kind == 3 then PolygonT(d, []) else MultiT(kind, d, [])
  }

  // ---- Reading back what is written ----

  lemma {:induction false} HeadRead(kind: byte, d: Dim, srid: bool, t: bytes)
    requires 1 <= kind <= 5
    ensures ReadHead(EwkbHeader(kind, d, srid) + t) == Got(Head(kind, d, srid), t)
  {
    var b := EwkbHeader(kind, d, srid) + t;
    var top: int := d.EwkbBits() + (if srid then 0x20 else 0);
    assert b[0] == 1 && b[1] == kind && b[2] == 0 && b[3] == 0 && b[4] == top && b[5..] == t;
    assert U32(b, 1) == kind + 0x100_0000 * top;
    FlagsRead(kind, d, srid);
  }

  lemma {:induction false} FlagsRead(kind: int, d: Dim, srid: bool)
    requires 1 <= kind <= 5
    ensures var word := kind + 0x100_0000 * (d.EwkbBits() + (if srid then 0x20 else 0));
            word % 0x1000_0000 == kind && (word / 0x8000_0000 == 1 <==> d.z) && (word / 0x4000_0000 % 2 == 1 <==> d.m) &&
            (word / 0x2000_0000 % 2 == 1 <==> srid) && kind / 1000 == 0 && kind % 1000 == kind
  {
  }

  lemma {:induction false} ChildHeadRead(kind: byte, d: Dim, t: bytes)
    requires 1 <= kind <= 2
    ensures ReadHead(P.ChildHead(kind, d) + t) == Got(Head(kind, d, false), t)
  {
    hide Le32, U32;
    var n := kind + (if d.z then 1000 else 0) + (if d.m then 2000 else 0);
    var b := P.ChildHead(kind, d) + t;
    assert b == [1] + Le32(n) + t && b[0] == 1 && b[5..] == t;
    U32OfLe32([1], n, t);
  }

  lemma {:induction false} PointRead(p: Pt, d: Dim, t: bytes)
    requires PtOk(p, d)
    ensures ReadPoint(Wkb(p) + t, d) == Got(p, t)
  {
    var b := Wkb(p) + t;
    var z, m := 16 + |p.z|, |p.m|;
    assert b[..16] == p.xy && b[16..z] == p.z && b[z..z + m] == p.m && b[z + m..] == t;
  }

  lemma {:induction false} FlatFirst<T>(xs: seq<T>, f: T -> bytes, t: bytes)
    requires xs != []
    ensures Flat(xs, f) + t == f(xs[0]) + (Flat(xs[1..], f) + t) && |f(xs[0])| <= |Flat(xs, f)| && |Flat(xs[1..], f)| <= |Flat(xs, f)|
  {
    FlatSplit(xs, 0, f);
    NoRecords(xs, f);
    assert [] + f(xs[0]) == f(xs[0]);
    Assoc(f(xs[0]), Flat(xs[1..], f), t);
  }

  lemma {:induction false} PointsRead(pts: seq<Pt>, d: Dim, t: bytes)
    requires PtsOk(pts, d)
    ensures ReadPoints(Flat(pts, Wkb) + t, d, |pts|) == Got(pts, t)
    decreases |pts|
  {
    hide Wkb, ReadPoint, Flat;
    if pts == [] {
      NoRecords(pts, Wkb);
      assert pts[..0] == pts && [] + t == t;
    } else {
      FlatFirst(pts, Wkb, t);
      PointRead(pts[0], d, Flat(pts[1..], Wkb) + t);
      PointsRead(pts[1..], d, t);
      assert [pts[0]] + pts[1..] == pts;
    }
  }

  lemma {:induction false} CountRead(n: nat, t: bytes)
    requires n < TWO32
    ensures |Le32(n) + t| >= 4 && U32(Le32(n) + t, 0) == n && (Le32(n) + t)[4..] == t
  {
    hide Le32, U32;
    U32OfLe32([], n, t);
    assert [] + Le32(n) + t == Le32(n) + t;
  }

  lemma {:induction false} RunRead(pts: seq<Pt>, d: Dim, t: bytes)
    requires PtsOk(pts, d) && |pts| < TWO32
    ensures ReadRun(RunBytes([], pts) + t, d) == Got(pts, t)
  {
    hide Le32, U32, Flat, PtsOk;
    assert Wrap32(|pts|) == |pts|;
    assert RunBytes([], pts) + t == Le32(|pts|) + (Flat(pts, Wkb) + t);
    CountRead(|pts|, Flat(pts, Wkb) + t);
    PointsRead(pts, d, t);
  }

  lemma {:induction false} RunLength(head: bytes, pts: seq<Pt>, d: Dim)
    requires PtsOk(pts, d)
    ensures Run(head)(pts) == RunBytes(head, pts) && |RunBytes(head, pts)| >= 4 + 16 * |pts|
  {
    ColumnWidths(pts, d);
  }

  lemma {:induction false} RunsRead(runs: seq<seq<Pt>>, d: Dim, t: bytes)
    requires AllPtsOk(runs, d) && |Flat(runs, Run([]))| <= MAX_ALLOC
    ensures ReadRuns(Flat(runs, Run([])) + t, d, |runs|) == Got(runs, t)
    decreases |runs|
  {
    hide ReadRun, Flat, PtsOk, RunBytes, Run;
    if runs == [] {
      NoRecords(runs, Run([]));
      assert runs[..0] == runs && [] + t == t;
    } else {
      FlatFirst(runs, Run([]), t);
      RunLength([], runs[0], d);
      RunRead(runs[0], d, Flat(runs[1..], Run([])) + t);
      RunsRead(runs[1..], d, t);
      assert [runs[0]] + runs[1..] == runs;
    }
  }

  /** A child header reads as this kind and these dimensions. */
  ghost predicate Heads(head: bytes, kind: int, d: Dim) { |head| == 5 && forall t :: ReadHead(head + t) == Got(Head(kind, d, false), t) }

  lemma {:induction false} PointPartsRead(pts: seq<Pt>, d: Dim, head: bytes, t: bytes)
    requires PtsOk(pts, d) && Heads(head, 1, d)
    ensures ReadParts(Flat(pts, PointChild(head)) + t, |pts|) == Got(seq(|pts|, i requires 0 <= i < |pts| => PointT(d, pts[i])), t)
    decreases |pts|
  {
    hide Flat, ReadHead, ReadPoint, Wkb;
    var parts := seq(|pts|, i requires 0 <= i < |pts| => PointT(d, pts[i]));
    if pts == [] {
      NoRecords(pts, PointChild(head));
      assert pts[..0] == pts && [] + t == t;
    } else {
      var rest := Flat(pts[1..], PointChild(head)) + t;
      FlatFirst(pts, PointChild(head), t);
      assert PointChild(head)(pts[0]) + rest == head + (Wkb(pts[0]) + rest);
      PointRead(pts[0], d, rest);
      assert ReadHead(head + (Wkb(pts[0]) + rest)) == Got(Head(1, d, false), Wkb(pts[0]) + rest);
      PointPartsRead(pts[1..], d, head, t);
      assert parts == [PointT(d, pts[0])] + seq(|pts[1..]|, i requires 0 <= i < |pts[1..]| => PointT(d, pts[1..][i]));
    }
  }

  lemma {:induction false} LinePartsRead(lines: seq<seq<Pt>>, d: Dim, head: bytes, t: bytes)
    requires AllPtsOk(lines, d) && Heads(head, 2, d) && |Flat(lines, Run(head))| <= MAX_ALLOC
    ensures ReadParts(Flat(lines, Run(head)) + t, |lines|) == Got(seq(|lines|, i requires 0 <= i < |lines| => LineT(d, lines[i])), t)
    decreases |lines|
  {
    hide Flat, ReadHead, ReadRun, PtsOk, Le32;
    var parts := seq(|lines|, i requires 0 <= i < |lines| => LineT(d, lines[i]));
    if lines == [] {
      NoRecords(lines, Run(head));
      assert lines[..0] == lines && [] + t == t;
    } else {
      var rest := Flat(lines[1..], Run(head)) + t;
      FlatFirst(lines, Run(head), t);
      RunLength(head, lines[0], d);
      assert RunBytes(head, lines[0]) + rest == head + (RunBytes([], lines[0]) + rest);
      RunRead(lines[0], d, rest);
      assert ReadHead(head + (RunBytes([], lines[0]) + rest)) == Got(Head(2, d, false), RunBytes([], lines[0]) + rest);
      LinePartsRead(lines[1..], d, head, t);
      assert parts == [LineT(d, lines[0])] + seq(|lines[1..]|, i requires 0 <= i < |lines[1..]| => LineT(d, lines[1..][i]));
    }
  }

  /** How many records there are is bounded by their bytes. */
  lemma {:induction false} CountsFit(g: Geometry, d: Dim, head: bytes)
    requires g.Ok(d) && |EwkbBody(g, head)| <= MAX_ALLOC && (g.MultiPoint? ==> |head| == 5)
    ensures g.Line? ==> |g.pts| < TWO32
    ensures g.Polygon? ==> |g.rings| < TWO32
    ensures g.MultiPoint? ==> |g.pts| < TWO32
    ensures g.MultiLine? ==> |g.lines| < TWO32
  {
    match g
    case Line(pts) => RunLength([], pts, d);
    case Polygon(rings) => RunsCount(rings, [], d);
    case MultiPoint(pts) => PointsCount(pts, head);
    case MultiLine(lines) => RunsCount(lines, head, d);
    case _ =>
  }

  lemma {:induction false} RunsCount(runs: seq<seq<Pt>>, head: bytes, d: Dim)
    requires AllPtsOk(runs, d)
    ensures |runs| <= |Flat(runs, Run(head))|
    decreases |runs|
  {
    if runs != [] {
      RunsCount(runs[..|runs| - 1], head, d);
      RunLength(head, runs[|runs| - 1], d);
    }
  }

  lemma {:induction false} PointsCount(pts: seq<Pt>, head: bytes)
    requires |head| == 5
    ensures |pts| <= |Flat(pts, PointChild(head))|
    decreases |pts|
  {
    if pts != [] { PointsCount(pts[..|pts| - 1], head); }
  }

  lemma {:induction false} Behind(a: bytes, b: bytes, t: bytes)
    ensures (a + b) + t == a + (b + t)
  {
  }

  /** The body of a geometry, as the reader sees it behind its header. */
  lemma {:induction false} BodyRead(g: Geometry, d: Dim, head: bytes, srid: bool, t: bytes)
    requires g.Ok(d) && !g.Empty? && |EwkbBody(g, head)| <= MAX_ALLOC
    requires (g.MultiPoint? ==> Heads(head, 1, d)) && (g.MultiLine? ==> Heads(head, 2, d))
    ensures ReadTree(EwkbBody(g, head) + t, Head(g.Kind(), d, srid)) == Got(TreeOf(g, d), t)
  {
    hide Flat, Le32, U32, ReadPoint, ReadRun, ReadRuns, ReadParts, PtsOk, Run, PointChild, Wkb, RunBytes, Heads;
    HeadLength(g, d, head);
    CountsFit(g, d, head);
    match g
    case Point(p) => PointRead(p, d, t);
    case Line(pts) => RunRead(pts, d, t);
    case Polygon(rings) =>
      Behind(Le32(Wrap32(|rings|)), Flat(rings, Run([])), t);
      CountRead(|rings|, Flat(rings, Run([])) + t);
      RunsRead(rings, d, t);
    case MultiPoint(pts) =>
      Behind(Le32(Wrap32(|pts|)), Flat(pts, PointChild(head)), t);
      CountRead(|pts|, Flat(pts, PointChild(head)) + t);
      PointPartsRead(pts, d, head, t);
    case MultiLine(lines) =>
      Behind(Le32(Wrap32(|lines|)), Flat(lines, Run(head)), t);
      CountRead(|lines|, Flat(lines, Run(head)) + t);
      LinePartsRead(lines, d, head, t);
  }

  lemma {:induction false} HeadLength(g: Geometry, d: Dim, head: bytes)
    requires (g.MultiPoint? ==> Heads(head, 1, d)) && (g.MultiLine? ==> Heads(head, 2, d))
    ensures g.MultiPoint? || g.MultiLine? ==> |head| == 5
  {
  }

  /** The EWKB of every geometry reads as that geometry, part by part. */
  lemma {:induction false} EwkbRead(g: Geometry, d: Dim, srid: bytes, head: bytes, t: bytes)
    requires g.Ok(d) && !g.Empty? && |EwkbBody(g, head)| <= MAX_ALLOC && (|srid| == 0 || |srid| == 4)
    requires (g.MultiPoint? ==> Heads(head, 1, d)) && (g.MultiLine? ==> Heads(head, 2, d))
    ensures ReadEwkb(Ewkb(g, d, srid, head) + t) == Got(Located(srid, TreeOf(g, d)), t)
  {
    hide EwkbBody, EwkbHeader, ReadHead, ReadTree, Heads, TreeOf, Geometry.Ok;
    var header, body := EwkbHeader(g.Kind(), d, srid != []), EwkbBody(g, head);
    assert Ewkb(g, d, srid, head) + t == header + (srid + (body + t));
    HeadRead(g.Kind(), d, srid != [], srid + (body + t));
    assert (srid + (body + t))[..|srid|] == srid && (srid + (body + t))[|srid|..] == body + t;
    BodyRead(g, d, head, srid != [], t);
  }

  /** Both kinds of child header are read: the flags that PostGIS sends, and the thousands the decoder writes. */
  lemma {:induction false} ChildHeads(kind: byte, d: Dim)
    requires 1 <= kind <= 2
    ensures Heads(EwkbHeader(kind, d, false), kind, d) && Heads(P.ChildHead(kind, d), kind, d)
  {
    hide ReadHead, EwkbHeader, P.ChildHead;
    forall t ensures ReadHead(EwkbHeader(kind, d, false) + t) == Got(Head(kind, d, false), t) { HeadRead(kind, d, false, t); }
    forall t ensures ReadHead(P.ChildHead(kind, d) + t) == Got(Head(kind, d, false), t) { ChildHeadRead(kind, d, t); }
  }

  /** The encoder's input, with child headers as PostGIS writes them, reads as the geometry it is given for. */
  lemma {:induction false} InputRead(wkb: bytes, g: Geometry, d: Dim, srid: bytes, head: bytes)
    requires E.FromPostgis(wkb, g, d, srid, head) && head == EwkbHeader(if g.MultiPoint? then 1 else 2, d, false)
    ensures ReadEwkb(wkb) == Got(Located(srid, TreeOf(g, d)), [])
  {
    hide ReadEwkb, EwkbBody, EwkbHeader, TreeOf, Heads, Geometry.Ok;
    ChildHeads(1, d);
    ChildHeads(2, d);
    EwkbRead(g, d, srid, head, []);
    assert wkb + [] == wkb;
  }

  // ---- What the decoder returns ----

  lemma {:induction false} ParsedOk(b: bytes)
    requires P.Parse(b).Ok?
    ensures var p := P.Parse(b).value; p.g.Ok(p.d) && (!p.g.Empty? ==> |EwkbBody(p.g, P.HeadFor(p.g, p.d))| <= MAX_ALLOC)
    ensures var p := P.Parse(b).value; p.g.Empty? ==> 1 <= p.g.kind <= 5 && p.d == Dim(false, false) && p.pad == 0
  {
    hide EwkbBody, P.ParseHead, P.Finite, P.PointIn, P.PointsIn, P.ParseCounted, P.ParseEmpty, U32;
    var h := P.ParseHead(b).value;
    if h.empty {
      EmptyOk(b);
    } else if h.counted {
      CountedOk(b, h);
    } else if h.kind == 1 {
      BodyAlike(Point(P.PointIn(b, 6, 1, 0, h.dim)), h.dim);
    } else {
      BodyAlike(Line(P.PointsIn(b, 6, 2, h.dim)), h.dim);
    }
  }

  lemma {:induction false} EmptyOk(b: bytes)
    requires |b| >= 22 && P.ParseEmpty(b).Ok?
    ensures var p := P.ParseEmpty(b).value; p.g.Empty? && 1 <= p.g.kind <= 5 && p.d == Dim(false, false) && p.pad == 0
  {
  }

  lemma {:induction false} BodyAlike(g: Geometry, d: Dim)
    requires !g.MultiPoint? && !g.MultiLine?
    ensures EwkbBody(g, P.HeadFor(g, d)) == EwkbBody(g, [])
  {
  }

  lemma {:induction false} CountedOk(b: bytes, h: P.Head)
    requires h.counted && h.npoints >= 1 && 10 + h.dim.Width(h.npoints) <= |b| && P.ParseCounted(b, h).Ok?
    ensures var p := P.ParseCounted(b, h).value; p.g.Ok(p.d) && !p.g.Empty? && |EwkbBody(p.g, P.HeadFor(p.g, p.d))| <= MAX_ALLOC
  {
    hide EwkbBody, P.PointIn, P.PointsIn, P.ReadTables, P.RingsOf, P.LinesOf, P.MultiPointsOf, U32;
    hide P.FiguresOk, P.ShapesOk, P.ChildrenOk, P.LinesOrdered, P.RingsOk, P.AllStrokes;
    var n, d := h.npoints, h.dim;
    var pts := P.PointsIn(b, 10, n, d);
    var t := P.ReadTables(b, 10 + d.Width(n), n).value;
    match t.shapes[0].kind
    case 1 => BodyAlike(Point(P.PointIn(b, 10, 1, 0, d)), d);
    case 2 => BodyAlike(Line(pts), d);
    case 3 => RingsAllOk(t.figures, pts, d); BodyAlike(Polygon(P.RingsOf(t.figures, pts)), d);
    case 4 => ChosenOk(t, pts, d);
    case 5 => LinesAllOk(t, pts, d);
    case _ =>
  }

  lemma {:induction false} RingsAllOk(figures: seq<Figure>, pts: seq<Pt>, d: Dim)
    requires P.FiguresOk(figures, |pts|) && PtsOk(pts, d)
    ensures AllPtsOk(P.RingsOf(figures, pts), d)
  {
    forall i | 0 <= i < |figures| ensures PtsOk(P.RingsOf(figures, pts)[i], d) {
      assert P.FigureOk(figures, |pts|, i) && (i + 1 < |figures| ==> P.FigureOk(figures, |pts|, i + 1));
    }
  }

  lemma {:induction false} ChosenOk(t: P.TableData, pts: seq<Pt>, d: Dim)
    requires P.FiguresOk(t.figures, |pts|) && P.ChildrenOk(t, 1) && |t.shapes| >= 1 && PtsOk(pts, d)
    ensures PtsOk(P.MultiPointsOf(t, pts), d)
  {
    forall c | 0 <= c < |t.shapes| - 1 ensures PtOk(P.MultiPointsOf(t, pts)[c], d) { assert P.ChildOk(t, 1, c + 1); }
  }

  lemma {:induction false} LinesAllOk(t: P.TableData, pts: seq<Pt>, d: Dim)
    requires P.FiguresOk(t.figures, |pts|) && P.ShapesOk(t.shapes, |t.figures|) && P.ChildrenOk(t, 2) && P.LinesOrdered(t, |pts|) && PtsOk(pts, d)
    ensures AllPtsOk(P.LinesOf(t, pts), d)
  {
    forall c | 0 <= c < |t.shapes| - 1 ensures PtsOk(P.LinesOf(t, pts)[c], d) { assert P.ChildOk(t, 2, c + 1); }
  }

  lemma {:induction false} EmptyRead(kind: byte, srid: bytes)
    requires 1 <= kind <= 5 && |srid| == 4
    ensures var d := Dim(false, false);
            ReadEwkb(EwkbHeader(kind, d, true) + srid + (if kind == 1 then P.NAN_COORD + P.NAN_COORD else Zeros(4))) ==
            Got(Located(srid, TreeOf(Empty(kind), d)), [])
  {
    hide EwkbHeader, ReadHead;
    var d, tail := Dim(false, false), if kind == 1 then P.NAN_COORD + P.NAN_COORD else Zeros(4);
    assert EwkbHeader(kind, d, true) + srid + tail == EwkbHeader(kind, d, true) + (srid + tail);
    HeadRead(kind, d, true, srid + tail);
    assert (srid + tail)[..4] == srid && (srid + tail)[4..] == tail;
    if kind == 1 {
      assert tail[..16] == tail && tail[16..16] == [] && tail[16..] == [];
    } else {
      assert U32(tail, 0) == 0 && tail[4..] == [];
    }
  }

  /** Whatever the decoder returns reads as the geometry it found, each part with the dimensions of the
      whole, followed by nothing but zeros. */
  lemma {:induction false} DecodedRead(b: bytes)
    requires P.Decoded(b).Ok?
    ensures var p := P.Parse(b).value; ReadEwkb(P.Decoded(b).value) == Got(Located(b[..4], TreeOf(p.g, p.d)), Zeros(p.pad))
  {
    hide P.Parse, ReadEwkb, Ewkb, EwkbBody, TreeOf, Geometry.Ok, Heads, P.ChildHead, EwkbHeader;
    LongEnough(b);
    ParsedOk(b);
    var p := P.Parse(b).value;
    if p.g.Empty? {
      EmptyRead(p.g.kind, b[..4]);
      assert Zeros(p.pad) == [];
    } else {
      ChildHeads(1, p.d);
      ChildHeads(2, p.d);
      EwkbRead(p.g, p.d, b[..4], P.HeadFor(p.g, p.d), Zeros(p.pad));
    }
  }

  lemma {:induction false} LongEnough(b: bytes)
    requires P.Parse(b).Ok?
    ensures |b| >= 22
  {
  }
}
