/** EWKB to CLR: the copy loops that turn interleaved points into columns, the writers of the figure
    and shape tables, and the buffer that receives them. */
module SpatialEncoder {
  import opened Bytes
  import opened Spatial

  // ---- Reading runs of points ----

  /** The bytes of src from s on are the interleaved points pts. */
  ghost predicate RunAt(src: bytes, s: int, pts: seq<Pt>, d: Dim) {
    && PtsOk(pts, d)
    && 0 <= s && s + d.Width(|pts|) <= |src|
    && src[s..s + d.Width(|pts|)] == Flat(pts, Wkb)
  }

  ghost predicate CoordAt(src: bytes, o: int, c: bytes) {
    0 <= o && o + |c| <= |src| && src[o..o + |c|] == c
  }

  lemma {:induction false} CoordIs(src: bytes, o: int, c: bytes)
    requires CoordAt(src, o, c)
    ensures 0 <= o && o + |c| <= |src| && src[o..o + |c|] == c
  {
  }

  lemma {:induction false} XyIs(p: Pt)
    ensures XyOf(p) == p.xy
  {
  }

  lemma {:induction false} WkbParts(p: Pt, d: Dim)
    requires PtOk(p, d)
    ensures |Wkb(p)| == d.Stride() && Wkb(p)[0..16] == p.xy
    ensures d.z ==> Wkb(p)[16..24] == p.z
    ensures d.m ==> Wkb(p)[d.Stride() - 8..d.Stride()] == p.m
  {
  }

  lemma {:induction false} PtAt(src: bytes, s: int, pts: seq<Pt>, d: Dim, i: nat)
    requires RunAt(src, s, pts, d) && i < |pts|
    ensures s <= s + d.Width(i) && s + d.Width(i) + d.Stride() <= |src|
    ensures src[s + d.Width(i)..s + d.Width(i) + d.Stride()] == Wkb(pts[i])
  {
    hide Flat, Wkb, PtOk;
    PtWidths(pts, d);
    FlatAt(pts, i, Wkb, d.Stride());
    Slice(src, s, s + d.Width(|pts|), d.Width(i), d.Width(i) + d.Stride());
  }

  lemma {:induction false} CoordsAt(src: bytes, s: int, pts: seq<Pt>, d: Dim, i: nat)
    requires RunAt(src, s, pts, d) && i < |pts|
    ensures CoordAt(src, s + d.Width(i), pts[i].xy)
    ensures d.z ==> CoordAt(src, s + d.Width(i) + 16, pts[i].z)
    ensures d.m ==> CoordAt(src, s + d.Width(i) + d.Stride() - 8, pts[i].m)
  {
    PtAt(src, s, pts, d, i);
    WkbParts(pts[i], d);
    var o, w := s + d.Width(i), d.Stride();
    Slice(src, o, o + w, 0, 16);
    if d.z { Slice(src, o, o + w, 16, 24); }
    if d.m { Slice(src, o, o + w, w - 8, w); }
  }

  lemma {:induction false} RunOf(pre: bytes, pts: seq<Pt>, d: Dim, post: bytes)
    requires PtsOk(pts, d)
    ensures RunAt(pre + Flat(pts, Wkb) + post, |pre|, pts, d)
  {
    ColumnWidths(pts, d);
  }

  // ---- Copy loops ----

  /** Copies 16 bytes of each of n points, stride bytes apart in src. */
  method CopyPairs(dst: array<byte>, base: int, src: bytes, first: int, n: nat, stride: nat, ghost pts: seq<Pt>)
    requires n == |pts| && 0 <= base && base + 16 * n <= dst.Length
    requires forall i :: 0 <= i < n ==> |pts[i].xy| == 16 && CoordAt(src, first + stride * i, pts[i].xy)
    modifies dst
    ensures dst[..base + 16 * n] == old(dst[..base]) + Flat(pts, XyOf)
    ensures forall k :: base + 16 * n <= k < dst.Length ==> dst[k] == old(dst[k])
  {
    hide *;
    ghost var was := dst[..];
    NoRecords(pts, XyOf);
    for i := 0 to n
      invariant dst[..base + 16 * i] == was[..base] + Flat(pts[..i], XyOf)
      invariant forall k :: base + 16 * i <= k < dst.Length ==> dst[k] == was[k]
    {
      FlatStep(was[..base], pts, i, XyOf);
      var o := first + stride * i;
      CoordIs(src, o, pts[i].xy);
      XyIs(pts[i]);
      Put(dst, base + i * 16, src[o..o + 16]);
    }
    assert pts[..n] == pts;
  }

  /** Copies one coordinate of each of n points, stride bytes apart in src. */
  method CopyCoords(dst: array<byte>, base: int, src: bytes, first: int, n: nat, stride: nat, ghost coords: seq<bytes>)
    requires n == |coords| && 0 <= base && base + 8 * n <= dst.Length
    requires forall i :: 0 <= i < n ==> |coords[i]| == 8
    requires forall i :: 0 <= i < n ==> CoordAt(src, first + stride * i, coords[i])
    modifies dst
    ensures dst[..base + 8 * n] == old(dst[..base]) + Flat(coords, NormNaN)
    ensures forall k :: base + 8 * n <= k < dst.Length ==> dst[k] == old(dst[k])
  {
    hide *;
    ghost var was := dst[..];
    NoRecords(coords, NormNaN);
    for i := 0 to n
      invariant dst[..base + 8 * i] == was[..base] + Flat(coords[..i], NormNaN)
      invariant forall k :: base + 8 * i <= k < dst.Length ==> dst[k] == was[k]
    {
      FlatStep(was[..base], coords, i, NormNaN);
      var o := first + stride * i;
      CoordIs(src, o, coords[i]);
      var c := src[o..o + 8];
      Put(dst, base + i * 8, NormNaN(c));
    }
    assert coords[..n] == coords;
  }

  function Zs(pts: seq<Pt>): (r: seq<bytes>)
    ensures |r| == |pts| && forall i :: 0 <= i < |r| ==> r[i] == pts[i].z
  {
    seq(|pts|, i requires 0 <= i < |pts| => pts[i].z)
  }

  function Ms(pts: seq<Pt>): (r: seq<bytes>)
    ensures |r| == |pts| && forall i :: 0 <= i < |r| ==> r[i] == pts[i].m
  {
    seq(|pts|, i requires 0 <= i < |pts| => pts[i].m)
  }

  lemma {:induction false} ZsFlat(pts: seq<Pt>)
    ensures Flat(pts, ZOf) == Flat(Zs(pts), NormNaN)
  {
    if pts != [] {
      var n := |pts| - 1;
      ZsFlat(pts[..n]);
      assert Zs(pts)[..n] == Zs(pts[..n]);
    }
  }

  lemma {:induction false} MsFlat(pts: seq<Pt>)
    ensures Flat(pts, MOf) == Flat(Ms(pts), NormNaN)
  {
    if pts != [] {
      var n := |pts| - 1;
      MsFlat(pts[..n]);
      assert Ms(pts)[..n] == Ms(pts[..n]);
    }
  }

  /** The coordinates of point i, by the stride the copy loops use. */
  lemma {:induction false} StrideAt(src: bytes, s: int, pts: seq<Pt>, d: Dim, i: nat)
    requires RunAt(src, s, pts, d) && i < |pts|
    ensures |pts[i].xy| == 16 && CoordAt(src, s + d.Stride() * i, pts[i].xy)
    ensures d.z ==> |pts[i].z| == 8 && CoordAt(src, s + 16 + d.Stride() * i, pts[i].z)
    ensures d.m ==> |pts[i].m| == 8 && CoordAt(src, s + 16 + (if d.z then 8 else 0) + d.Stride() * i, pts[i].m)
  {
    CoordsAt(src, s, pts, d, i);
    hide CoordAt;
    assert PtOk(pts[i], d);
    assert d.Width(i) == d.Stride() * i;
  }

  method CopyXy(dst: array<byte>, at: int, src: bytes, s: int, n: nat, stride: nat, ghost pts: seq<Pt>, ghost d: Dim)
    requires n == |pts| && stride == d.Stride() && RunAt(src, s, pts, d)
    requires 0 <= at && at + 16 * n <= dst.Length
    modifies dst
    ensures dst[..at + 16 * n] == old(dst[..at]) + Flat(pts, XyOf)
    ensures forall k :: at + 16 * n <= k < dst.Length ==> dst[k] == old(dst[k])
  {
    hide *;
    forall i | 0 <= i < n ensures |pts[i].xy| == 16 && CoordAt(src, s + stride * i, pts[i].xy) {
      StrideAt(src, s, pts, d, i);
    }
    CopyPairs(dst, at, src, s, n, stride, pts);
  }

  method CopyZ(dst: array<byte>, at: int, src: bytes, s: int, n: nat, stride: nat, ghost pts: seq<Pt>, ghost d: Dim)
    requires n == |pts| && stride == d.Stride() && d.z && RunAt(src, s, pts, d)
    requires 0 <= at + 16 * n && at + 24 * n <= dst.Length
    modifies dst
    ensures dst[..at + 24 * n] == old(dst[..at + 16 * n]) + Flat(pts, ZOf)
    ensures forall k :: at + 24 * n <= k < dst.Length ==> dst[k] == old(dst[k])
  {
    hide *;
    ghost var zs := Zs(pts);
    forall i | 0 <= i < n ensures |zs[i]| == 8 && CoordAt(src, s + 16 + stride * i, zs[i]) {
      StrideAt(src, s, pts, d, i);
    }
    ZsFlat(pts);
    CopyCoords(dst, at + n * 16, src, s + 16, n, stride, zs);
  }

  method CopyM(dst: array<byte>, at: int, src: bytes, s: int, n: nat, stride: nat, hasZ: bool, ghost pts: seq<Pt>, ghost d: Dim)
    requires n == |pts| && stride == d.Stride() && d.m && hasZ == d.z && RunAt(src, s, pts, d)
    requires var base := at + 16 * n + (if hasZ then 8 * n else 0); 0 <= base && base + 8 * n <= dst.Length
    modifies dst
    ensures var base := at + 16 * n + (if hasZ then 8 * n else 0);
            dst[..base + 8 * n] == old(dst[..base]) + Flat(pts, MOf) && forall k :: base + 8 * n <= k < dst.Length ==> dst[k] == old(dst[k])
  {
    hide *;
    var zOffset := if hasZ then n * 8 else 0;
    var coordOffset := if hasZ then 8 else 0;
    ghost var ms := Ms(pts);
    forall i | 0 <= i < n ensures |ms[i]| == 8 && CoordAt(src, s + 16 + coordOffset + stride * i, ms[i]) {
      StrideAt(src, s, pts, d, i);
    }
    MsFlat(pts);
    CopyCoords(dst, at + n * 16 + zOffset, src, s + 16 + coordOffset, n, stride, ms);
  }

  // ---- Counted runs ----

  /** After pre, counted runs that each start with head fill src. */
  ghost predicate RunsAt(src: bytes, pre: bytes, head: bytes, runs: seq<seq<Pt>>, d: Dim) {
    && AllPtsOk(runs, d) && |src| < 0x4000_0000
    && src == pre + Le32(Wrap32(|runs|)) + Flat(runs, Run(head))
  }

  /** What stands before run k. */
  ghost function Before(pre: bytes, head: bytes, runs: seq<seq<Pt>>, k: nat): bytes
    requires k <= |runs|
  {
    pre + Le32(Wrap32(|runs|)) + Flat(runs[..k], Run(head))
  }

  lemma {:induction false} StartOfRuns(pre: bytes, head: bytes, runs: seq<seq<Pt>>)
    ensures |Before(pre, head, runs, 0)| == |pre| + 4 && Join(runs[..0]) == []
    ensures Flat([], XyOf) == Flat([], ZOf) == Flat([], MOf) == []
  {
  }

  lemma {:induction false} RunsNonEmpty(head: bytes, runs: seq<seq<Pt>>)
    ensures |runs| <= |Flat(runs, Run(head))|
  {
    if runs != [] {
      RunsNonEmpty(head, runs[..|runs| - 1]);
    }
  }

  lemma {:induction false} CountOfRuns(src: bytes, pre: bytes, head: bytes, runs: seq<seq<Pt>>, d: Dim)
    requires RunsAt(src, pre, head, runs, d)
    ensures |pre| + 4 <= |src| && U32(src, |pre|) == |runs| < 0x4000_0000
  {
    RunsNonEmpty(head, runs);
    U32OfLe32(pre, Wrap32(|runs|), Flat(runs, Run(head)));
  }

  lemma {:induction false} RunSplit(src: bytes, pre: bytes, head: bytes, runs: seq<seq<Pt>>, d: Dim, k: nat)
    requires RunsAt(src, pre, head, runs, d) && k < |runs|
    ensures src == Before(pre, head, runs, k) + RunBytes(head, runs[k]) + Flat(runs[k + 1..], Run(head))
  {
    FlatSplit(runs, k, Run(head));
    Assoc4(pre + Le32(Wrap32(|runs|)), Flat(runs[..k], Run(head)), RunBytes(head, runs[k]), Flat(runs[k + 1..], Run(head)));
  }

  lemma {:induction false} RunCount(before: bytes, head: bytes, pts: seq<Pt>, after: bytes)
    requires |pts| < TWO32
    ensures |before| + |head| + 4 <= |before + RunBytes(head, pts) + after|
    ensures U32(before + RunBytes(head, pts) + after, |before| + |head|) == |pts|
  {
    var count, body := Le32(|pts|), Flat(pts, Wkb);
    assert before + RunBytes(head, pts) + after == (before + head) + count + (body + after);
    U32OfLe32(before + head, |pts|, body + after);
  }

  lemma {:induction false} RunPoints(before: bytes, head: bytes, pts: seq<Pt>, d: Dim, after: bytes)
    requires PtsOk(pts, d)
    ensures RunAt(before + RunBytes(head, pts) + after, |before| + |head| + 4, pts, d)
  {
    var count, body := Le32(Wrap32(|pts|)), Flat(pts, Wkb);
    assert before + RunBytes(head, pts) + after == (before + head + count) + body + after;
    RunOf(before + head + count, pts, d, after);
  }

  /** Run k: its header, its count, its points. */
  lemma {:induction false} RunK(src: bytes, pre: bytes, head: bytes, runs: seq<seq<Pt>>, d: Dim, k: nat)
    requires RunsAt(src, pre, head, runs, d) && k < |runs|
    ensures |Before(pre, head, runs, k)| + |head| + 4 <= |src|
    ensures U32(src, |Before(pre, head, runs, k)| + |head|) == |runs[k]|
    ensures RunAt(src, |Before(pre, head, runs, k)| + |head| + 4, runs[k], d)
  {
    RunSplit(src, pre, head, runs, d, k);
    ColumnWidths(runs[k], d);
    RunCount(Before(pre, head, runs, k), head, runs[k], Flat(runs[k + 1..], Run(head)));
    RunPoints(Before(pre, head, runs, k), head, runs[k], d, Flat(runs[k + 1..], Run(head)));
  }

  lemma {:induction false} RunNext(src: bytes, pre: bytes, head: bytes, runs: seq<seq<Pt>>, d: Dim, k: nat)
    requires RunsAt(src, pre, head, runs, d) && k < |runs|
    ensures |Before(pre, head, runs, k + 1)| == |Before(pre, head, runs, k)| + |head| + 4 + d.Width(|runs[k]|)
  {
    FlatSnoc(runs, k, Run(head));
    ColumnWidths(runs[k], d);
  }

  lemma {:induction false} JoinBound<T>(xss: seq<seq<T>>, k: nat)
    requires k < |xss|
    ensures |Join(xss[..k])| + |xss[k]| == |Join(xss[..k + 1])| <= |Join(xss)|
  {
    JoinSnoc(xss, k);
    JoinSplit(xss, k);
  }

  /** Appending the records of ring k to those of the rings before it. */
  lemma {:induction false} JoinStep(was: bytes, rings: seq<seq<Pt>>, k: nat, f: Pt -> bytes)
    requires k < |rings|
    ensures was + Flat(Join(rings[..k]), f) + Flat(rings[k], f) == was + Flat(Join(rings[..k + 1]), f)
    ensures |Join(rings[..k])| + |rings[k]| == |Join(rings[..k + 1])| <= |Join(rings)|
  {
    JoinBound(rings, k);
    JoinSnoc(rings, k);
    FlatConcat(Join(rings[..k]), rings[k], f);
    Assoc(was, Flat(Join(rings[..k]), f), Flat(rings[k], f));
  }

  // ---- Columns of polygons and multi-linestrings: one pass per column over the runs ----

  method CopyRunsXy(r: array<byte>, dst: nat, src: bytes, s: int, stride: nat, skip: nat, ghost pre: bytes,
                    ghost head: bytes, ghost runs: seq<seq<Pt>>, ghost d: Dim)
    returns (total: nat)
    requires RunsAt(src, pre, head, runs, d) && s == |pre| && skip == |head| && stride == d.Stride()
    requires dst + 16 * |Join(runs)| <= r.Length
    modifies r
    ensures total == |Join(runs)|
    ensures r[..dst + 16 * total] == old(r[..dst]) + Flat(Join(runs), XyOf)
  {
    hide *;
    StartOfRuns(pre, head, runs);
    CountOfRuns(src, pre, head, runs, d);
    ghost var was := r[..];
    var numRuns := U32(src, s);
    var p := s + 4;
    total := 0;
    for k := 0 to numRuns
      invariant p == |Before(pre, head, runs, k)| && total == |Join(runs[..k])|
      invariant dst + 16 * total <= r.Length
      invariant r[..dst + 16 * total] == was[..dst] + Flat(Join(runs[..k]), XyOf)
    {
      RunK(src, pre, head, runs, d, k);
      RunNext(src, pre, head, runs, d, k);
      JoinStep(was[..dst], runs, k, XyOf);
      var n := U32(src, p + skip);
      p := p + skip + 4;
      CopyXy(r, dst + total * 16, src, p, n, stride, runs[k], d);
      p := p + stride * n;
      total := total + n;
    }
    assert runs[..numRuns] == runs;
  }

  method CopyRunsZ(r: array<byte>, dst: nat, src: bytes, s: int, stride: nat, skip: nat, total: nat, ghost pre: bytes,
                   ghost head: bytes, ghost runs: seq<seq<Pt>>, ghost d: Dim)
    requires RunsAt(src, pre, head, runs, d) && s == |pre| && skip == |head| && stride == d.Stride() && d.z && total == |Join(runs)|
    requires dst + 24 * total <= r.Length
    modifies r
    ensures r[..dst + 24 * total] == old(r[..dst + 16 * total]) + Flat(Join(runs), ZOf)
  {
    hide *;
    StartOfRuns(pre, head, runs);
    CountOfRuns(src, pre, head, runs, d);
    ghost var was, base := r[..], dst + 16 * total;
    var numRuns := U32(src, s);
    var p, copied := s + 4, 0;
    for k := 0 to numRuns
      invariant p == |Before(pre, head, runs, k)| && copied == |Join(runs[..k])| <= total
      invariant r[..base + 8 * copied] == was[..base] + Flat(Join(runs[..k]), ZOf)
    {
      RunK(src, pre, head, runs, d, k);
      RunNext(src, pre, head, runs, d, k);
      JoinStep(was[..base], runs, k, ZOf);
      var n := U32(src, p + skip);
      p := p + skip + 4;
      CopyZ(r, dst + total * 16 - n * 16 + copied * 8, src, p, n, stride, runs[k], d);
      p := p + stride * n;
      copied := copied + n;
    }
    assert runs[..numRuns] == runs;
  }

  method CopyRunsM(r: array<byte>, dst: nat, src: bytes, s: int, stride: nat, skip: nat, total: nat, hasZ: bool,
                   ghost pre: bytes, ghost head: bytes, ghost runs: seq<seq<Pt>>, ghost d: Dim)
    requires RunsAt(src, pre, head, runs, d) && s == |pre| && skip == |head| && stride == d.Stride() && d.m && hasZ == d.z && total == |Join(runs)|
    requires dst + (if hasZ then 32 else 24) * total <= r.Length
    modifies r
    ensures var base := dst + (if hasZ then 24 * total else 16 * total);
            r[..base + 8 * total] == old(r[..base]) + Flat(Join(runs), MOf)
  {
    hide *;
    StartOfRuns(pre, head, runs);
    CountOfRuns(src, pre, head, runs, d);
    var numRuns := U32(src, s);
    var p, copied := s + 4, 0;
    var zOffset := if hasZ then total * 8 else 0;
    ghost var was, base := r[..], dst + 16 * total + zOffset;
    for k := 0 to numRuns
      invariant p == |Before(pre, head, runs, k)| && copied == |Join(runs[..k])| <= total
      invariant r[..base + 8 * copied] == was[..base] + Flat(Join(runs[..k]), MOf)
    {
      RunK(src, pre, head, runs, d, k);
      RunNext(src, pre, head, runs, d, k);
      JoinStep(was[..base], runs, k, MOf);
      var n := U32(src, p + skip);
      p := p + skip + 4;
      CopyM(r, dst + total * 16 + zOffset - n * 16 - (if hasZ then n * 8 else 0) + copied * 8, src, p, n, stride, hasZ, runs[k], d);
      p := p + stride * n;
      copied := copied + n;
    }
    assert runs[..numRuns] == runs;
  }

  method WriteFigure(r: array<byte>, at: nat, attribute: byte, offset: nat) returns (width: nat)
    requires at + 5 <= r.Length
    modifies r
    ensures width == 5
    ensures r[..at + 5] == old(r[..at]) + FigureBytes(Figure(attribute, offset))
  {
    Put(r, at, [attribute] + Le32(Wrap32(offset)));
    width := 5;
  }

  method WriteShape(r: array<byte>, at: nat, parent: int, figure: nat, kind: byte) returns (width: nat)
    requires at + 9 <= r.Length
    modifies r
    ensures width == 9
    ensures r[..at + 9] == old(r[..at]) + ShapeBytes(Shape(parent, figure, kind))
  {
    Put(r, at, Le32(Wrap32(parent)) + Le32(Wrap32(figure)) + [kind]);
    width := 9;
  }

  lemma {:induction false} TablesGroup(was: bytes, figures: seq<Figure>, shapes: seq<Shape>)
    ensures was + Le32(Wrap32(|figures|)) + Flat(figures, FigureBytes) + Le32(Wrap32(|shapes|)) + Flat(shapes, ShapeBytes)
            == was + Tables(figures, shapes)
  {
    var c, f, e, s := Le32(Wrap32(|figures|)), Flat(figures, FigureBytes), Le32(Wrap32(|shapes|)), Flat(shapes, ShapeBytes);
    Assoc4(was, c, f, e);
    Assoc(was, c + f + e, s);
  }

  lemma {:induction false} OneShape(s: Shape)
    ensures Flat([s], ShapeBytes) == ShapeBytes(s) && Wrap32(|[s]|) == 1
  {
    assert [s][..0] == [];
  }

  /** Ends the tables with a single root shape. */
  method WriteRootShape(r: array<byte>, at: nat, kind: byte, ghost was: bytes, ghost figures: seq<Figure>) returns (pos: nat)
    requires at + 13 <= r.Length
    requires r[..at] == was + Le32(Wrap32(|figures|)) + Flat(figures, FigureBytes)
    modifies r
    ensures pos == at + 13
    ensures r[..pos] == was + Tables(figures, [Shape(-1, 0, kind)])
  {
    hide *;
    OneShape(Shape(-1, 0, kind));
    TablesGroup(was, figures, [Shape(-1, 0, kind)]);
    Put(r, at, Le32(1));
    var width := WriteShape(r, at + 4, -1, 0, kind);
    pos := at + 4 + width;
  }

  lemma {:induction false} WrapSmall(n: int)
    requires 0 <= n < 0x1_0000_0000
    ensures 0 <= Wrap32(n) < TWO32 && Wrap32(n) == n
  {
  }

  lemma {:induction false} NoFigures()
    ensures Flat([], FigureBytes) == []
  {
  }

  lemma {:induction false} RingFigureAt(rings: seq<seq<Pt>>, k: nat)
    requires k < |rings|
    ensures RingFigures(rings)[k] == Figure(if k == 0 then EXTERIOR_RING else INTERIOR_RING, |Join(rings[..k])|)
  {
  }

  method WritePolygonMetadata(r: array<byte>, at: nat, src: bytes, s: int, stride: nat, ghost pre: bytes,
                              ghost rings: seq<seq<Pt>>, ghost d: Dim)
    returns (pos: nat)
    requires RunsAt(src, pre, [], rings, d) && s == |pre| && stride == d.Stride()
    requires at + 17 + 5 * |rings| <= r.Length
    modifies r
    ensures pos == at + 17 + 5 * |rings|
    ensures r[..pos] == old(r[..at]) + Tables(RingFigures(rings), [Shape(-1, 0, 3)])
  {
    hide *;
    StartOfRuns(pre, [], rings);
    CountOfRuns(src, pre, [], rings, d);
    ghost var was := r[..at];
    ghost var figures := RingFigures(rings);
    var numRings := U32(src, s);
    var p, cumulative := s + 4, 0;
    Put(r, at, Le32(numRings));
    pos := at + 4;
    ghost var begun := was + Le32(numRings);
    NoFigures();
    for k := 0 to numRings
      invariant pos == at + 4 + 5 * k
      invariant p == |Before(pre, [], rings, k)| && cumulative == |Join(rings[..k])|
      invariant r[..pos] == begun + Flat(figures[..k], FigureBytes)
    {
      RunK(src, pre, [], rings, d, k);
      RunNext(src, pre, [], rings, d, k);
      JoinBound(rings, k);
      FlatStep(begun, figures, k, FigureBytes);
      RingFigureAt(rings, k);
      var n := U32(src, p);
      var width := WriteFigure(r, pos, if k == 0 then EXTERIOR_RING else INTERIOR_RING, cumulative);
      pos := pos + width;
      cumulative := cumulative + n;
      p := p + 4 + stride * n;
    }
    assert figures[..numRings] == figures;
    WrapSmall(numRings);
    pos := WriteRootShape(r, pos, 3, was, figures);
  }

  /** Ends the tables with the shapes of a multi-geometry. */
  method WriteMultiShapes(r: array<byte>, at: nat, root: byte, child: byte, n: nat, ghost was: bytes, ghost figures: seq<Figure>)
    returns (pos: nat)
    requires at + 13 + 9 * n <= r.Length && n + 1 < 0x1_0000_0000
    requires r[..at] == was + Le32(Wrap32(|figures|)) + Flat(figures, FigureBytes)
    modifies r
    ensures pos == at + 13 + 9 * n
    ensures r[..pos] == was + Tables(figures, MultiShapes(root, child, n))
  {
    hide *;
    ghost var shapes := MultiShapes(root, child, n);
    MultiShapesAre(root, child, n);
    WrapSmall(n + 1);
    ghost var begun := was + Le32(Wrap32(|figures|)) + Flat(figures, FigureBytes) + Le32(n + 1);
    Put(r, at, Le32(n + 1));
    NoShapes();
    FlatStep(begun, shapes, 0, ShapeBytes);
    assert begun + [] == begun;
    var width := WriteShape(r, at + 4, -1, 0, root);
    pos := at + 4 + width;
    for i := 0 to n
      invariant pos == at + 13 + 9 * i
      invariant r[..pos] == begun + Flat(shapes[..i + 1], ShapeBytes)
    {
      FlatStep(begun, shapes, i + 1, ShapeBytes);
      width := WriteShape(r, pos, 0, i, child);
      pos := pos + width;
    }
    assert shapes[..n + 1] == shapes;
    TablesGroup(was, figures, shapes);
  }

  lemma {:induction false} NoShapes()
    ensures Flat([], ShapeBytes) == []
  {
  }

  lemma {:induction false} MultiShapesAre(root: byte, child: byte, n: nat)
    ensures var s := MultiShapes(root, child, n);
            |s| == n + 1 && s[0] == Shape(-1, 0, root) && forall i :: 0 <= i < n ==> s[i + 1] == Shape(0, i, child)
  {
  }

  method WriteMultiPointMetadata(r: array<byte>, at: nat, n: nat) returns (pos: nat)
    requires n + 1 < 0x1_0000_0000 && at + 17 + 14 * n <= r.Length
    modifies r
    ensures pos == at + 17 + 14 * n
    ensures r[..pos] == old(r[..at]) + Tables(PointFigures(n), MultiShapes(4, 1, n))
  {
    hide *;
    ghost var was := r[..at];
    ghost var figures := PointFigures(n);
    WrapSmall(n);
    Put(r, at, Le32(n));
    pos := at + 4;
    ghost var begun := was + Le32(n);
    NoFigures();
    for i := 0 to n
      invariant pos == at + 4 + 5 * i
      invariant r[..pos] == begun + Flat(figures[..i], FigureBytes)
    {
      FlatStep(begun, figures, i, FigureBytes);
      PointFigureAt(n, i);
      var width := WriteFigure(r, pos, STROKE, i);
      pos := pos + width;
    }
    assert figures[..n] == figures;
    pos := WriteMultiShapes(r, pos, 4, 1, n, was, figures);
  }

  lemma {:induction false} PointFigureAt(n: nat, k: nat)
    requires k < n
    ensures PointFigures(n)[k] == Figure(STROKE, k)
  {
  }

  lemma {:induction false} StrokeFigureAt(runs: seq<seq<Pt>>, k: nat)
    requires k < |runs|
    ensures StrokeFigures(runs)[k] == Figure(STROKE, |Join(runs[..k])|)
  {
  }

  method WriteMultiLineMetadata(r: array<byte>, at: nat, src: bytes, s: int, stride: nat, ghost pre: bytes,
                                ghost head: bytes, ghost lines: seq<seq<Pt>>, ghost d: Dim)
    returns (pos: nat)
    requires RunsAt(src, pre, head, lines, d) && s == |pre| && |head| == 5 && stride == d.Stride()
    requires at + 17 + 14 * |lines| <= r.Length
    modifies r
    ensures pos == at + 17 + 14 * |lines|
    ensures r[..pos] == old(r[..at]) + Tables(StrokeFigures(lines), MultiShapes(5, 2, |lines|))
  {
    hide *;
    StartOfRuns(pre, head, lines);
    CountOfRuns(src, pre, head, lines, d);
    ghost var was := r[..at];
    ghost var figures := StrokeFigures(lines);
    var numLines := U32(src, s);
    var p, cumulative := s + 4, 0;
    Put(r, at, Le32(numLines));
    pos := at + 4;
    ghost var begun := was + Le32(numLines);
    NoFigures();
    for k := 0 to numLines
      invariant pos == at + 4 + 5 * k
      invariant p == |Before(pre, head, lines, k)| && cumulative == |Join(lines[..k])|
      invariant r[..pos] == begun + Flat(figures[..k], FigureBytes)
    {
      RunK(src, pre, head, lines, d, k);
      RunNext(src, pre, head, lines, d, k);
      JoinBound(lines, k);
      FlatStep(begun, figures, k, FigureBytes);
      StrokeFigureAt(lines, k);
      var width := WriteFigure(r, pos, STROKE, cumulative);
      pos := pos + width;
      var n := U32(src, p + 5);
      cumulative := cumulative + n;
      p := p + 9 + stride * n;
    }
    assert figures[..numLines] == figures;
    WrapSmall(numLines);
    pos := WriteMultiShapes(r, pos, 5, 2, numLines, was, figures);
  }

  // ---- Coordinates and tables of each geometry type ----

  lemma {:induction false} AbsentColumns(pts: seq<Pt>, d: Dim)
    requires PtsOk(pts, d)
    ensures !d.z ==> Flat(pts, ZOf) == []
    ensures !d.m ==> Flat(pts, MOf) == []
  {
    ColumnWidths(pts, d);
  }

  lemma {:induction false} RunIsOk(src: bytes, s: int, pts: seq<Pt>, d: Dim)
    requires RunAt(src, s, pts, d)
    ensures PtsOk(pts, d)
  {
  }

  lemma {:induction false} JoinedRunsOk(src: bytes, pre: bytes, head: bytes, runs: seq<seq<Pt>>, d: Dim)
    requires RunsAt(src, pre, head, runs, d)
    ensures PtsOk(Join(runs), d)
  {
    JoinOk(runs, d);
  }

  lemma {:induction false} ColumnsGroup(was: bytes, pts: seq<Pt>)
    ensures was + Flat(pts, XyOf) + Flat(pts, ZOf) + Flat(pts, MOf) == was + Columns(pts)
    ensures forall b: bytes :: b + [] == b
  {
    Assoc4(was, Flat(pts, XyOf), Flat(pts, ZOf), Flat(pts, MOf));
  }

  lemma {:induction false} DimWidth(d: Dim, n: nat)
    ensures d.Width(n) == 16 * n + (if d.z then 8 * n else 0) + (if d.m then 8 * n else 0)
  {
  }

  method CopyColumns(r: array<byte>, dst: nat, src: bytes, s: int, n: nat, stride: nat, hasZ: bool, hasM: bool,
                     ghost pts: seq<Pt>, ghost d: Dim)
    requires n == |pts| && stride == d.Stride() && hasZ == d.z && hasM == d.m && RunAt(src, s, pts, d)
    requires dst + d.Width(n) <= r.Length
    modifies r
    ensures r[..dst + d.Width(n)] == old(r[..dst]) + Columns(pts)
  {
    hide *;
    RunIsOk(src, s, pts, d);
    AbsentColumns(pts, d);
    DimWidth(d, n);
    ColumnsGroup(r[..dst], pts);
    CopyXy(r, dst, src, s, n, stride, pts, d);
    if hasZ { CopyZ(r, dst, src, s, n, stride, pts, d); }
    if hasM { CopyM(r, dst, src, s, n, stride, hasZ, pts, d); }
  }

  method CopyRunColumns(r: array<byte>, dst: nat, src: bytes, s: int, stride: nat, skip: nat, hasZ: bool, hasM: bool,
                        ghost pre: bytes, ghost head: bytes, ghost runs: seq<seq<Pt>>, ghost d: Dim)
    returns (total: nat)
    requires RunsAt(src, pre, head, runs, d) && s == |pre| && skip == |head| && stride == d.Stride() && hasZ == d.z && hasM == d.m
    requires dst + d.Width(|Join(runs)|) <= r.Length
    modifies r
    ensures total == |Join(runs)|
    ensures r[..dst + d.Width(total)] == old(r[..dst]) + Columns(Join(runs))
  {
    hide *;
    JoinedRunsOk(src, pre, head, runs, d);
    AbsentColumns(Join(runs), d);
    DimWidth(d, |Join(runs)|);
    ColumnsGroup(r[..dst], Join(runs));
    total := CopyRunsXy(r, dst, src, s, stride, skip, pre, head, runs, d);
    if hasZ { CopyRunsZ(r, dst, src, s, stride, skip, total, pre, head, runs, d); }
    if hasM { CopyRunsM(r, dst, src, s, stride, skip, total, hasZ, pre, head, runs, d); }
  }

  /** After pre, counted point children that each start with head fill src. */
  ghost predicate PointsAt(src: bytes, pre: bytes, head: bytes, pts: seq<Pt>, d: Dim) {
    && PtsOk(pts, d) && |head| == 5 && |src| < 0x4000_0000
    && src == pre + Le32(Wrap32(|pts|)) + Flat(pts, PointChild(head))
  }

  lemma {:induction false} ChildAt(src: bytes, pre: bytes, head: bytes, pts: seq<Pt>, d: Dim, i: nat)
    requires PointsAt(src, pre, head, pts, d) && i < |pts|
    ensures CoordAt(src, |pre| + 4 + (5 + d.Stride()) * i, PointChild(head)(pts[i]))
    ensures |PointChild(head)(pts[i])| == 5 + d.Stride()
  {
    hide Flat, Wkb, PtOk;
    var w := 5 + d.Stride();
    forall p | p in pts ensures |PointChild(head)(p)| == w {
      PtWidths(pts, d);
    }
    FlatAt(pts, i, PointChild(head), w);
    var f, at := Flat(pts, PointChild(head)), |pre| + 4;
    assert src[at..] == f;
    Slice(src, at, |src|, w * i, w * i + w);
  }

  lemma {:induction false} ChildCoordsAt(src: bytes, pre: bytes, head: bytes, pts: seq<Pt>, d: Dim, i: nat)
    requires PointsAt(src, pre, head, pts, d) && i < |pts|
    ensures var o := |pre| + 4 + (5 + d.Stride()) * i + 5;
            && CoordAt(src, o, pts[i].xy)
            && (d.z ==> CoordAt(src, o + 16, pts[i].z))
            && (d.m ==> CoordAt(src, o + d.Stride() - 8, pts[i].m))
  {
    hide CoordAt, Wkb, Flat;
    ChildAt(src, pre, head, pts, d, i);
    WkbParts(pts[i], d);
    var o, w, c := |pre| + 4 + (5 + d.Stride()) * i, d.Stride(), PointChild(head)(pts[i]);
    assert c == head + Wkb(pts[i]);
    SubCoord(src, o, c, 5, pts[i].xy);
    if d.z { SubCoord(src, o, c, 21, pts[i].z); }
    if d.m { SubCoord(src, o, c, w - 3, pts[i].m); }
  }

  lemma {:induction false} SubCoord(src: bytes, o: int, c: bytes, k: nat, part: bytes)
    requires CoordAt(src, o, c) && CoordAt(c, k, part)
    ensures CoordAt(src, o + k, part)
  {
    Slice(src, o, o + |c|, k, k + |part|);
  }

  lemma {:induction false} PointColumnsAt(src: bytes, pre: bytes, head: bytes, pts: seq<Pt>, d: Dim)
    requires PointsAt(src, pre, head, pts, d)
    ensures !d.z ==> Flat(pts, ZOf) == []
    ensures !d.m ==> Flat(pts, MOf) == []
    ensures forall i :: 0 <= i < |pts| ==> |pts[i].xy| == 16 && CoordAt(src, |pre| + 9 + (5 + d.Stride()) * i, pts[i].xy)
    ensures d.z ==> forall i :: 0 <= i < |pts| ==> |Zs(pts)[i]| == 8 && CoordAt(src, |pre| + 25 + (5 + d.Stride()) * i, Zs(pts)[i])
    ensures d.m ==> forall i :: 0 <= i < |pts| ==> |Ms(pts)[i]| == 8 && CoordAt(src, |pre| + 25 + (if d.z then 8 else 0) + (5 + d.Stride()) * i, Ms(pts)[i])
  {
    AbsentColumns(pts, d);
    forall i | 0 <= i < |pts|
      ensures |pts[i].xy| == 16 && CoordAt(src, |pre| + 9 + (5 + d.Stride()) * i, pts[i].xy)
      ensures d.z ==> |Zs(pts)[i]| == 8 && CoordAt(src, |pre| + 25 + (5 + d.Stride()) * i, Zs(pts)[i])
      ensures d.m ==> |Ms(pts)[i]| == 8 && CoordAt(src, |pre| + 25 + (if d.z then 8 else 0) + (5 + d.Stride()) * i, Ms(pts)[i])
    {
      ChildCoordsAt(src, pre, head, pts, d, i);
    }
  }

  method CopyPointColumns(r: array<byte>, dst: nat, src: bytes, s: int, n: nat, pointSize: nat, hasZ: bool, hasM: bool,
                          ghost pre: bytes, ghost head: bytes, ghost pts: seq<Pt>, ghost d: Dim)
    requires PointsAt(src, pre, head, pts, d) && s == |pre| + 4 && n == |pts| && pointSize == 5 + d.Stride() && hasZ == d.z && hasM == d.m
    requires dst + d.Width(n) <= r.Length
    modifies r
    ensures r[..dst + d.Width(n)] == old(r[..dst]) + Columns(pts)
  {
    hide *;
    PointColumnsAt(src, pre, head, pts, d);
    ColumnsGroup(r[..dst], pts);
    DimWidth(d, n);
    CopyPairs(r, dst, src, s + 5, n, pointSize, pts);
    var offset := dst + 16 * n;
    if hasZ {
      ZsFlat(pts);
      CopyCoords(r, offset, src, s + 5 + 16, n, pointSize, Zs(pts));
      offset := offset + 8 * n;
    }
    if hasM {
      MsFlat(pts);
      CopyCoords(r, offset, src, s + 5 + 16 + (if hasZ then 8 else 0), n, pointSize, Ms(pts));
    }
  }

  // ---- The whole result ----

  lemma {:induction false} CountedGroup(header: bytes, count: bytes, columns: bytes, tables: bytes)
    ensures header + count + columns + tables == header + (count + columns + tables)
  {
    Assoc4(header, count, columns, tables);
  }

  method FillLine(r: array<byte>, src: bytes, offset: nat, npoints: nat, stride: nat, hasZ: bool, hasM: bool,
                  ghost pts: seq<Pt>, ghost d: Dim)
    requires npoints == |pts| < 0x1_0000_0000 && stride == d.Stride() && hasZ == d.z && hasM == d.m && RunAt(src, offset + 4, pts, d)
    requires r.Length == if npoints > 2 then 32 + d.Width(npoints) else 6 + d.Width(npoints)
    modifies r
    ensures r[..] == old(r[..6]) + if npoints > 2 then Le32(Wrap32(|pts|)) + Columns(pts) + Tables([Figure(STROKE, 0)], [Shape(-1, 0, 2)])
                                   else Columns(pts)
  {
    hide *;
    WrapSmall(npoints);
    DimWidth(d, npoints);
    ghost var header := r[..6];
    var dst := 6;
    if npoints > 2 {
      Put(r, 6, Le32(npoints));
      dst := 10;
    }
    CopyColumns(r, dst, src, offset + 4, npoints, stride, hasZ, hasM, pts, d);
    if npoints > 2 {
      ghost var was := r[..10 + d.Width(npoints)];
      var pos := dst + stride * npoints;
      StrideWidth(d, npoints);
      Put(r, pos, Le32(1));
      var width := WriteFigure(r, pos + 4, STROKE, 0);
      OneFigure(Figure(STROKE, 0));
      pos := WriteRootShape(r, pos + 4 + width, 2, was, [Figure(STROKE, 0)]);
      CountedGroup(header, Le32(npoints), Columns(pts), Tables([Figure(STROKE, 0)], [Shape(-1, 0, 2)]));
      assert r[..] == r[..pos];
    } else {
      assert r[..] == r[..6 + d.Width(npoints)];
    }
  }

  lemma {:induction false} OneFigure(f: Figure)
    ensures Flat([f], FigureBytes) == FigureBytes(f) && Wrap32(|[f]|) == 1
  {
    assert [f][..0] == [];
  }

  lemma {:induction false} StrideWidth(d: Dim, n: nat)
    ensures d.Stride() * n == d.Width(n)
  {
  }

  method FillPolygon(r: array<byte>, src: bytes, offset: nat, npoints: nat, stride: nat, hasZ: bool, hasM: bool,
                     ghost pre: bytes, ghost rings: seq<seq<Pt>>, ghost d: Dim)
    requires RunsAt(src, pre, [], rings, d) && offset == |pre| && stride == d.Stride() && hasZ == d.z && hasM == d.m
    requires npoints == |Join(rings)| < 0x1_0000_0000
    requires r.Length == 27 + d.Width(npoints) + 5 * |rings|
    modifies r
    ensures r[..] == old(r[..6]) + (Le32(Wrap32(npoints)) + Columns(Join(rings)) + Tables(RingFigures(rings), [Shape(-1, 0, 3)]))
  {
    hide *;
    WrapSmall(npoints);
    DimWidth(d, npoints);
    ghost var header := r[..6];
    Put(r, 6, Le32(npoints));
    var total := CopyRunColumns(r, 10, src, offset, stride, 0, hasZ, hasM, pre, [], rings, d);
    var pos := 10 + total * 16 + (if hasZ then total * 8 else 0) + (if hasM then total * 8 else 0);
    pos := WritePolygonMetadata(r, pos, src, offset, stride, pre, rings, d);
    CountedGroup(header, Le32(npoints), Columns(Join(rings)), Tables(RingFigures(rings), [Shape(-1, 0, 3)]));
    assert r[..] == r[..pos];
  }

  method FillMultiPoint(r: array<byte>, src: bytes, offset: nat, npoints: nat, stride: nat, hasZ: bool, hasM: bool,
                        ghost pre: bytes, ghost head: bytes, ghost pts: seq<Pt>, ghost d: Dim)
    requires PointsAt(src, pre, head, pts, d) && offset == |pre| && stride == d.Stride() && hasZ == d.z && hasM == d.m
    requires npoints == |pts| < 0xFFFF_FFFF
    requires r.Length == 27 + d.Width(npoints) + 14 * npoints
    modifies r
    ensures r[..] == old(r[..6]) + (Le32(Wrap32(npoints)) + Columns(pts) + Tables(PointFigures(|pts|), MultiShapes(4, 1, |pts|)))
  {
    hide *;
    WrapSmall(npoints);
    DimWidth(d, npoints);
    ghost var header := r[..6];
    Put(r, 6, Le32(npoints));
    CopyPointColumns(r, 10, src, offset + 4, npoints, 5 + stride, hasZ, hasM, pre, head, pts, d);
    var pos := 10 + npoints * 16 + (if hasZ then npoints * 8 else 0) + (if hasM then npoints * 8 else 0);
    pos := WriteMultiPointMetadata(r, pos, npoints);
    CountedGroup(header, Le32(npoints), Columns(pts), Tables(PointFigures(|pts|), MultiShapes(4, 1, |pts|)));
    assert r[..] == r[..pos];
  }

  method FillMultiLine(r: array<byte>, src: bytes, offset: nat, npoints: nat, stride: nat, hasZ: bool, hasM: bool,
                       ghost pre: bytes, ghost head: bytes, ghost lines: seq<seq<Pt>>, ghost d: Dim)
    requires RunsAt(src, pre, head, lines, d) && |head| == 5 && offset == |pre| && stride == d.Stride() && hasZ == d.z && hasM == d.m
    requires npoints == |Join(lines)| < 0x1_0000_0000
    requires r.Length == 27 + d.Width(npoints) + 14 * |lines|
    modifies r
    ensures r[..] == old(r[..6]) + (Le32(Wrap32(npoints)) + Columns(Join(lines)) + Tables(StrokeFigures(lines), MultiShapes(5, 2, |lines|)))
  {
    hide *;
    WrapSmall(npoints);
    DimWidth(d, npoints);
    ghost var header := r[..6];
    Put(r, 6, Le32(npoints));
    var total := CopyRunColumns(r, 10, src, offset, stride, 5, hasZ, hasM, pre, head, lines, d);
    var pos := 10 + total * 16 + (if hasZ then total * 8 else 0) + (if hasM then total * 8 else 0);
    pos := WriteMultiLineMetadata(r, pos, src, offset, stride, pre, head, lines, d);
    CountedGroup(header, Le32(npoints), Columns(Join(lines)), Tables(StrokeFigures(lines), MultiShapes(5, 2, |lines|)));
    assert r[..] == r[..pos];
  }

  /** What PostGIS hands over: the EWKB of a non-empty geometry of a supported type. */
  ghost predicate FromPostgis(wkb: bytes, g: Geometry, d: Dim, srid: bytes, head: bytes) {
    && wkb == Ewkb(g, d, srid, head) && |wkb| < 0x4000_0000
    && g.Ok(d) && !g.Empty?
    && (|srid| == 0 || |srid| == 4)
    && (g.MultiPoint? || g.MultiLine? ==> |head| == 5)
  }

  /** The four SRID bytes of the result: PostGIS's own, or zeros when it sent none. */
  function SridOut(srid: bytes): (r: bytes)
    ensures |srid| == 0 || |srid| == 4 ==> |r| == 4
  {
    if srid == [] then Zeros(4) else srid
  }

  lemma {:induction false} HeaderOf(wkb: bytes, g: Geometry, d: Dim, srid: bytes, head: bytes)
    requires FromPostgis(wkb, g, d, srid, head)
    ensures |wkb| >= 5 + |srid|
    ensures wkb[1] == g.Kind() && wkb[4] == d.EwkbBits() + (if srid == [] then 0 else 0x20)
    ensures srid != [] ==> wkb[5..9] == srid
    ensures wkb == wkb[..5 + |srid|] + EwkbBody(g, head)
  {
    assert wkb[..5] == EwkbHeader(g.Kind(), d, srid != []);
  }

  /** The body of each geometry type, as the copy loops read it. */
  lemma {:induction false} BodyOf(wkb: bytes, g: Geometry, d: Dim, srid: bytes, head: bytes)
    requires FromPostgis(wkb, g, d, srid, head)
    ensures |wkb| >= 5 + |srid|
    ensures var pre := wkb[..5 + |srid|];
            && (g.Line? ==> RunAt(wkb, |pre| + 4, g.pts, d))
            && (g.Polygon? ==> RunsAt(wkb, pre, [], g.rings, d))
            && (g.MultiPoint? ==> PointsAt(wkb, pre, head, g.pts, d))
            && (g.MultiLine? ==> RunsAt(wkb, pre, head, g.lines, d))
  {
    HeaderOf(wkb, g, d, srid, head);
    var pre := wkb[..5 + |srid|];
    match g
    case Point(_) =>
    case Line(pts) =>
      RunPoints(pre, [], pts, d, []);
      assert pre + RunBytes([], pts) + [] == wkb;
    case Polygon(rings) => Assoc(pre, Le32(Wrap32(|rings|)), Flat(rings, Run([])));
    case MultiPoint(pts) => Assoc(pre, Le32(Wrap32(|pts|)), Flat(pts, PointChild(head)));
    case MultiLine(lines) => Assoc(pre, Le32(Wrap32(|lines|)), Flat(lines, Run(head)));
  }

  lemma {:induction false} PointIs(wkb: bytes, g: Geometry, d: Dim, srid: bytes, head: bytes)
    requires FromPostgis(wkb, g, d, srid, head) && g.Point?
    ensures EwkbBody(g, head) == Wkb(g.p) && |Wkb(g.p)| == d.Stride() && d.Width(|g.Points()|) == d.Stride()
  {
    PtWidths([g.p], d);
    assert g.p in [g.p];
    hide Ewkb, Wkb;
  }

  lemma {:induction false} Tail(a: bytes, b: bytes)
    ensures (a + b)[|a|..] == b
  {
  }

  lemma {:induction false} PointBody(wkb: bytes, g: Geometry, d: Dim, srid: bytes, head: bytes)
    requires FromPostgis(wkb, g, d, srid, head) && g.Point?
    ensures |wkb| == 5 + |srid| + d.Stride() && wkb[5 + |srid|..5 + |srid| + d.Stride()] == Wkb(g.p)
    ensures d.Width(|g.Points()|) == d.Stride()
  {
    hide *;
    HeaderOf(wkb, g, d, srid, head);
    PointIs(wkb, g, d, srid, head);
    var w := 5 + |srid|;
    assert wkb[w..] == Wkb(g.p) by { Tail(wkb[..w], Wkb(g.p)); }
    assert wkb[w..w + d.Stride()] == wkb[w..];
  }

  lemma {:induction false} WidthOfPoints(head: bytes, pts: seq<Pt>, d: Dim)
    requires PtsOk(pts, d) && |head| == 5
    ensures 5 * |pts| + d.Width(|pts|) == |Flat(pts, PointChild(head))|
  {
    forall p | p in pts ensures |PointChild(head)(p)| == 5 + d.Stride() {
      PtWidths(pts, d);
    }
    FlatWidth(pts, PointChild(head), 5 + d.Stride());
    assert (5 + d.Stride()) * |pts| == 5 * |pts| + d.Stride() * |pts|;
  }

  /** Every count the tables hold takes bytes of the EWKB. */
  lemma {:induction false} BodyWidth(g: Geometry, d: Dim, head: bytes)
    requires g.Ok(d) && !g.Empty? && (g.MultiPoint? || g.MultiLine? ==> |head| == 5)
    ensures 16 * |g.Points()| <= d.Width(|g.Points()|) <= |EwkbBody(g, head)|
    ensures d.Width(|g.Points()|) + 5 * |Figures(g)| + 9 * |Shapes(g)| <= 2 * |EwkbBody(g, head)| + 14
  {
    match g
    case Point(p) => PtWidths([p], d);
    case Line(pts) => ColumnWidths(pts, d);
    case Polygon(rings) => WidthOfRuns([], rings, d);
    case MultiPoint(pts) => WidthOfPoints(head, pts, d);
    case MultiLine(lines) => WidthOfRuns(head, lines, d);
  }

  /** So the result's size stays within 32 bits. */
  lemma {:induction false} CountsFit(wkb: bytes, g: Geometry, d: Dim, srid: bytes, head: bytes)
    requires FromPostgis(wkb, g, d, srid, head)
    ensures |g.Points()| < 0x0400_0000
    ensures d.Width(|g.Points()|) + 5 * |Figures(g)| + 9 * |Shapes(g)| < 0x8000_0010
  {
    BodyWidth(g, d, head);
  }

  /** The size of the CLR form. */
  lemma {:induction false} ClrWidth(g: Geometry, d: Dim, srid: bytes, valid: bool, geography: bool)
    requires g.Ok(d) && !g.Empty? && |srid| == 4
    ensures |Clr(g, d, srid, valid, geography)| ==
            6 + d.Width(|g.Points()|) + (if Counted(g) then 12 + 5 * |Figures(g)| + 9 * |Shapes(g)| else 0)
  {
    PointsOk(g, d);
    ColumnWidths(g.Points(), d);
    TablesWidth(Figures(g), Shapes(g));
  }

  lemma {:induction false} NotEmpty(wkb: bytes, g: Geometry, d: Dim, srid: bytes, head: bytes)
    requires FromPostgis(wkb, g, d, srid, head)
    ensures g.Ok(d) && !g.Empty? && (|srid| == 0 || |srid| == 4) && (g.MultiPoint? || g.MultiLine? ==> |head| == 5)
  {
  }

  lemma {:induction false} FlagBits(d: Dim, hasSrid: bool)
    ensures var flag := d.EwkbBits() + (if hasSrid then 0x20 else 0);
            var mask := flag - flag % 64;
            && (flag / 32 % 2 == 1 <==> hasSrid)
            && (mask == 0x80 || mask == 0xC0 <==> d.z)
            && (mask == 0x40 || mask == 0xC0 <==> d.m)
  {
  }

  /** Bytes of count and tables that follow the coordinates' share of the result. */
  method ExtraSize(wkb: bytes, kind: byte, npoints: nat, offset: nat, ghost g: Geometry, ghost d: Dim, ghost srid: bytes, ghost head: bytes)
    returns (needsCount: bool, metadata: nat)
    requires FromPostgis(wkb, g, d, srid, head) && kind == g.Kind() && npoints == |g.Points()| && offset == 5 + |srid|
    ensures needsCount == Counted(g)
    ensures metadata == if Counted(g) then 8 + 5 * |Figures(g)| + 9 * |Shapes(g)| else 0
  {
    BodyOf(wkb, g, d, srid, head);
    needsCount := (kind == 2 && npoints > 2) || kind == 3 || kind == 4 || kind == 5;
    var figures, shapes := 0, 0;
    if kind == 1 || (kind == 2 && npoints <= 2) {
      metadata := 0;
      return;
    } else if kind == 2 {
      figures, shapes := 1, 1;
    } else if kind == 3 {
      CountOfRuns(wkb, wkb[..offset], [], g.rings, d);
      figures, shapes := U32(wkb, offset), 1;
    } else if kind == 4 {
      figures, shapes := npoints, npoints + 1;
    } else {
      CountOfRuns(wkb, wkb[..offset], head, g.lines, d);
      figures := U32(wkb, offset);
      shapes := figures + 1;
    }
    metadata := 4 + figures * 5 + 4 + shapes * 9;
  }

  /** Fills the buffer after its six header bytes. */
  method Fill(r: array<byte>, wkb: bytes, kind: byte, offset: nat, npoints: nat, stride: nat, hasZ: bool, hasM: bool,
              ghost g: Geometry, ghost d: Dim, ghost srid: bytes, ghost head: bytes, ghost out: bytes, ghost valid: bool, ghost geography: bool)
    requires FromPostgis(wkb, g, d, srid, head) && kind == g.Kind() && offset == 5 + |srid| && npoints == |g.Points()|
    requires stride == d.Stride() && hasZ == d.z && hasM == d.m && |out| == 4
    requires r.Length == |Clr(g, d, out, valid, geography)| && r.Length >= 6
    requires r[..6] == ClrHeader(g, d, out, valid, geography)
    modifies r
    ensures r[..] == Clr(g, d, out, valid, geography)
  {
    hide Flat, Join, Le32, U32, RunAt, RunsAt, PointsAt, Columns, Tables, FromPostgis, Ewkb, EwkbBody, ClrHeader;
    hide Dim.Width, Dim.Stride, StrokeFigures, RingFigures, PointFigures, MultiShapes, Wkb;
    NotEmpty(wkb, g, d, srid, head);
    BodyOf(wkb, g, d, srid, head);
    CountsFit(wkb, g, d, srid, head);
    ClrWidth(g, d, out, valid, geography);
    ghost var pre := wkb[..offset];
    if kind == 1 {
      PointBody(wkb, g, d, srid, head);
      Put(r, 6, wkb[offset..offset + stride]);
      assert r[..] == r[..6 + stride];
    } else if kind == 2 {
      FillLine(r, wkb, offset, npoints, stride, hasZ, hasM, g.pts, d);
    } else if kind == 3 {
      FillPolygon(r, wkb, offset, npoints, stride, hasZ, hasM, pre, g.rings, d);
    } else if kind == 4 {
      FillMultiPoint(r, wkb, offset, npoints, stride, hasZ, hasM, pre, head, g.pts, d);
    } else {
      FillMultiLine(r, wkb, offset, npoints, stride, hasZ, hasM, pre, head, g.lines, d);
    }
  }

  /** The properties byte, read off the table of type codes. */
  function GeomType(kind: byte, bits: nat, valid: bool, npoints: nat): byte
    requires bits < 4
  {
    if kind == 1 then (if valid then 12 + bits else 8 + bits)
    else if kind == 2 then
      if valid then (if npoints > 2 then 4 + bits else 20 + bits) else (if npoints > 2 then bits else 16 + bits)
    else if kind == 3 then (if valid then 4 + bits else bits)
    else 4 + bits
  }

  lemma {:induction false} GeomTypeIsProps(g: Geometry, d: Dim, valid: bool, npoints: nat)
    requires !g.Empty? && npoints == |g.Points()|
    ensures GeomType(g.Kind(), d.Bits(), valid, npoints) == Props(g, d, valid)
    ensures d.Bits() == (if d.z then 1 else 0) + (if d.m then 2 else 0)
  {
  }

  lemma {:induction false} HeaderGroup(g: Geometry, d: Dim, srid: bytes, valid: bool, geography: bool)
    ensures srid + [if !valid && geography then 2 else 1, Props(g, d, valid)] == ClrHeader(g, d, srid, valid, geography)
  {
  }

  lemma {:induction false} StrideIs(d: Dim)
    ensures d.Stride() == 16 + (if d.z then 8 else 0) + (if d.m then 8 else 0)
  {
  }

  lemma {:induction false} SridIs(srid: bytes)
    ensures SridOut(srid) == if srid == [] then Zeros(4) else srid
  {
  }

  /** EWKB to CLR. The result is null only when the buffer would exceed the allocation limit. */
  method Construct(wkb: bytes, npoints: nat, isValid: bool, isGeography: bool, ghost g: Geometry, ghost d: Dim,
                   ghost srid: bytes, ghost head: bytes)
    returns (r: array?<byte>)
    requires FromPostgis(wkb, g, d, srid, head) && npoints == |g.Points()|
    requires isGeography ==> |srid| == 4
    ensures r == null <==> |Clr(g, d, SridOut(srid), isValid, isGeography)| + 4 > 0x3fff_ffff
    ensures r != null ==> r[..] == Clr(g, d, SridOut(srid), isValid, isGeography)
  {
    hide *;
    ghost var out := SridOut(srid);
    NotEmpty(wkb, g, d, srid, head);
    SridIs(srid);
    StrideIs(d);
    HeaderOf(wkb, g, d, srid, head);
    FlagBits(d, srid != []);
    CountsFit(wkb, g, d, srid, head);
    ClrWidth(g, d, out, isValid, isGeography);
    var kind, flag := wkb[1], wkb[4];
    var hasSrid, dimMask := flag / 32 % 2 == 1, flag - flag % 64;
    var hasZ, hasM := dimMask == 0x80 || dimMask == 0xC0, dimMask == 0x40 || dimMask == 0xC0;
    var stride := 16 + (if hasZ then 8 else 0) + (if hasM then 8 else 0);
    var offset := if isGeography || hasSrid then 9 else 5;
    var needsCount, metadata := ExtraSize(wkb, kind, npoints, offset, g, d, srid, head);
    StrideWidth(d, npoints);
    var total := 6 + stride * npoints + (if needsCount then 4 else 0) + metadata;
    assert total < 0x1_0000_0000; // the source computes it in 32 bits
    if total + 4 > 0x3fff_ffff {
      return null;
    }
    r := new byte[total](_ => 0);
    Put(r, 0, if isGeography || hasSrid then wkb[5..9] else Zeros(4));
    GeomTypeIsProps(g, d, isValid, npoints);
    var bits := (if hasZ then 1 else 0) + (if hasM then 2 else 0);
    Put(r, 4, [if !isValid && isGeography then 2 else 1, GeomType(kind, bits, isValid, npoints)]);
    HeaderGroup(g, d, out, isValid, isGeography);
    Fill(r, wkb, kind, offset, npoints, stride, hasZ, hasM, g, d, srid, head, out, isValid, isGeography);
  }
}
