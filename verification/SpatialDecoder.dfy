/** CLR to EWKB: the validating parser of the figure and shape tables and the loops that interleave
    the columns again. Every read and write of these methods is within its buffer, for every input. */
module SpatialDecoder {
  import opened Bytes
  import opened Spatial
  import opened SpatialParse

  // ---- Validation ----

  /** Looks for a coordinate that is not finite among the XY pairs of n points. */
  method CheckFinite(b: bytes, base: nat, n: nat) returns (ok: bool)
    requires base + 16 * n <= |b|
    ensures ok == Finite(b, base, n)
  {
    for i := 0 to 2 * n
      invariant forall j :: 0 <= j < i ==> !NotFinite(b[base + 8 * j..base + 8 * j + 8])
    {
      if NotFinite(b[base + 8 * i..base + 8 * i + 8]) {
        return false;
      }
    }
    return true;
  }

  method ReadFigures(b: bytes, o: nat, nf: nat, n: nat) returns (r: Result<seq<Figure>>)
    requires o + 5 * nf <= |b| && nf >= 1
    ensures r == if FiguresOk(FiguresIn(b, o, nf), n) then Ok(FiguresIn(b, o, nf)) else Err(Conversion)
  {
    ghost var all := FiguresIn(b, o, nf);
    var figures := [];
    for i := 0 to nf
      invariant figures == all[..i]
      invariant forall j :: 0 <= j < i ==> FigureOk(all, n, j)
    {
      var f := Figure(b[o + 5 * i], U32(b, o + 5 * i + 1));
      assert f == all[i];
      figures := figures + [f];
      if f.attribute > EXTERIOR_RING || (i == 0 && f.offset != 0) || f.offset >= n || (i > 0 && f.offset <= figures[i - 1].offset) {
        assert !FigureOk(all, n, i);
        return Err(Conversion);
      }
    }
    assert all[..nf] == all;
    return Ok(figures);
  }

  method ReadShapes(b: bytes, o: nat, ns: nat, nf: nat) returns (r: Result<seq<Shape>>)
    requires o + 9 * ns <= |b| && ns >= 1
    ensures r == if ShapesOk(ShapesIn(b, o, ns), nf) then Ok(ShapesIn(b, o, ns)) else Err(Conversion)
  {
    ghost var all := ShapesIn(b, o, ns);
    var shapes := [];
    for i := 0 to ns
      invariant shapes == all[..i]
      invariant forall j :: 0 <= j < i ==> ShapeOk(all, nf, j)
    {
      var at := o + 9 * i;
      var s := Shape(Signed32(U32(b, at)), U32(b, at + 4), b[at + 8]);
      assert s == all[i];
      shapes := shapes + [s];
      if (i == 0 && s.parent != -1) || (s.figure >= nf && s.figure != NO_FIGURE) {
        assert !ShapeOk(all, nf, i);
        return Err(Conversion);
      }
    }
    assert all[..ns] == all;
    return Ok(shapes);
  }

  /** Reads both tables; the shape count's byte size wraps in 32 bits, and the allocation that
      follows rejects every count for which it does. */
  method ParseTables(b: bytes, o: nat, n: nat) returns (r: Result<TableData>)
    requires o <= |b| < 0x4000_0000 && n < 0x1000_0000
    ensures r == ReadTables(b, o, n)
  {
    if o + 4 > |b| { return Err(Conversion); }
    var nf := U32(b, o);
    if nf < 1 || nf > n { return Err(Conversion); }
    if o + 4 + Wrap32(nf * 5) > |b| { return Err(Conversion); }
    var figures :- ReadFigures(b, o + 4, nf, n);
    var s := o + 4 + 5 * nf;
    if s + 4 > |b| { return Err(Conversion); }
    var ns := U32(b, s);
    if ns < 1 { return Err(Conversion); }
    if s + 4 + Wrap32(ns * 9) > |b| { return Err(Conversion); }
    if ns * 12 > MAX_ALLOC { return Err(AllocationLimit); }
    assert Wrap32(ns * 9) == 9 * ns;
    var shapes :- ReadShapes(b, s + 4, ns, nf);
    return Ok(TableData(figures, shapes));
  }

  method ValidateStrokes(figures: seq<Figure>) returns (ok: bool)
    ensures ok == AllStrokes(figures)
  {
    for i := 0 to |figures|
      invariant forall j :: 0 <= j < i ==> figures[j].attribute == STROKE
    {
      if figures[i].attribute != STROKE { return false; }
    }
    return true;
  }

  /** The rings partition the points, so the running total always ends at n: the last test never
      rejects, and no ring's length wraps. */
  method ValidatePolygon(figures: seq<Figure>, n: nat) returns (ok: bool)
    requires FiguresOk(figures, n) && n < TWO32
    ensures ok == RingsOk(figures, n)
  {
    var total := 0;
    assert FigureOk(figures, n, 0);
    for i := 0 to |figures|
      invariant forall j :: 0 <= j < i ==> RingOk(figures, n, j)
      invariant total == if i < |figures| then figures[i].offset else n
    {
      assert FigureOk(figures, n, i) && (i + 1 < |figures| ==> FigureOk(figures, n, i + 1));
      if figures[i].attribute != EXTERIOR_RING && figures[i].attribute != INTERIOR_RING {
        assert !RingOk(figures, n, i);
        return false;
      }
      var ringPoints := Wrap32(if i + 1 < |figures| then figures[i + 1].offset - figures[i].offset else n - figures[i].offset);
      if ringPoints < 4 {
        assert !RingOk(figures, n, i);
        return false;
      }
      total := Wrap32(total + ringPoints);
    }
    return total == n;
  }

  method ValidateMulti(t: TableData, kind: byte) returns (ok: bool)
    requires |t.shapes| >= 1
    ensures ok == ChildrenOk(t, kind)
  {
    for c := 1 to |t.shapes|
      invariant forall j :: 1 <= j < c ==> ChildOk(t, kind, j)
    {
      if t.shapes[c].parent != 0 || t.shapes[c].kind != kind || t.shapes[c].figure >= |t.figures| {
        assert !ChildOk(t, kind, c);
        return false;
      }
    }
    ok := ValidateStrokes(t.figures);
  }

  // ---- Interleaving ----

  lemma {:induction false} PointBytes(p: Pt, d: Dim)
    requires PtOk(p, d)
    ensures |p.xy| == 16 && |p.z| == (if d.z then 8 else 0) && |p.m| == (if d.m then 8 else 0)
    ensures |Wkb(p)| == d.Stride() == 16 + (if d.z then 8 else 0) + (if d.m then 8 else 0)
    ensures forall was: bytes :: was + p.xy + p.z + p.m == was + Wkb(p)
    ensures !d.z ==> p.z == []
    ensures !d.m ==> p.m == []
  {
    forall was: bytes ensures was + p.xy + p.z + p.m == was + Wkb(p) {
      Assoc4(was, p.xy, p.z, p.m);
    }
  }

  lemma {:induction false} PointInIs(b: bytes, base: nat, n: nat, i: nat, d: Dim)
    requires i < n && base + d.Width(n) <= |b|
    ensures d.Width(n) == 16 * n + (if d.z then 8 * n else 0) + (if d.m then 8 * n else 0)
    ensures PtOk(PointIn(b, base, n, i, d), d)
    ensures var p := PointIn(b, base, n, i, d);
            var z, m := base + 16 * n + 8 * i, base + 16 * n + (if d.z then 8 * n else 0) + 8 * i;
            && p.xy == b[base + 16 * i..base + 16 * i + 16]
            && (d.z ==> p.z == b[z..z + 8])
            && (d.m ==> p.m == b[m..m + 8])
  {
  }

  /** Writes point i of n, interleaved, at offset at. */
  method WritePoint(r: array<byte>, at: nat, b: bytes, base: nat, n: nat, i: nat, d: Dim) returns (pos: nat)
    requires i < n && base + d.Width(n) <= |b| && at + d.Stride() <= r.Length
    modifies r
    ensures pos == at + d.Stride()
    ensures r[..pos] == old(r[..at]) + Wkb(PointIn(b, base, n, i, d))
    ensures forall k :: pos <= k < r.Length ==> r[k] == old(r[k])
  {
    hide *;
    PointInIs(b, base, n, i, d);
    ghost var p := PointIn(b, base, n, i, d);
    PointBytes(p, d);
    ghost var was := r[..];
    pos := at;
    Put(r, pos, b[base + i * 16..base + i * 16 + 16]);
    pos := pos + 16;
    if d.z {
      var z := base + n * 16 + i * 8;
      Put(r, pos, b[z..z + 8]);
      pos := pos + 8;
    }
    assert r[..pos] == was[..at] + p.xy + p.z;
    if d.m {
      var m := base + n * 16 + (if d.z then n * 8 else 0) + i * 8;
      Put(r, pos, b[m..m + 8]);
      pos := pos + 8;
    }
    assert r[..pos] == was[..at] + p.xy + p.z + p.m;
  }

  lemma {:induction false} PointsInAt(b: bytes, base: nat, n: nat, d: Dim, start: nat, i: nat)
    requires start + i < n && base + d.Width(n) <= |b|
    ensures |PointsIn(b, base, n, d)| == n
    ensures PointsIn(b, base, n, d)[start..][i] == PointIn(b, base, n, start + i, d)
  {
  }

  lemma {:induction false} WidthStep(d: Dim, n: nat)
    ensures d.Width(n + 1) == d.Width(n) + d.Stride() && d.Width(0) == 0
  {
  }

  lemma {:induction false} WidthMonotone(d: Dim, n: nat, m: nat)
    requires n <= m
    ensures d.Width(n) <= d.Width(m)
  {
  }

  lemma {:induction false} NoPoints()
    ensures Flat([], Wkb) == []
  {
  }

  /** Writes count points from start on, interleaved. */
  method WritePoints(r: array<byte>, at: nat, b: bytes, base: nat, n: nat, start: nat, count: nat, d: Dim) returns (pos: nat)
    requires start + count <= n && base + d.Width(n) <= |b| && at + d.Width(count) <= r.Length
    modifies r
    ensures pos == at + d.Width(count)
    ensures r[..pos] == old(r[..at]) + Flat(PointsIn(b, base, n, d)[start..start + count], Wkb)
    ensures forall k :: pos <= k < r.Length ==> r[k] == old(r[k])
  {
    hide *;
    ghost var was := r[..at];
    ghost var pts := PointsIn(b, base, n, d)[start..start + count];
    WidthStep(d, 0);
    NoPoints();
    pos := at;
    for i := 0 to count
      invariant pos == at + d.Width(i)
      invariant r[..pos] == was + Flat(pts[..i], Wkb)
      invariant forall k :: pos <= k < r.Length ==> r[k] == old(r[k])
    {
      PointsInAt(b, base, n, d, start, i);
      WidthStep(d, i);
      WidthMonotone(d, i + 1, count);
      FlatStep(was, pts, i, Wkb);
      pos := WritePoint(r, pos, b, base, n, start + i, d);
    }
    assert pts[..count] == pts;
  }

  /** A header, a count and that many points. */
  method WriteRun(r: array<byte>, at: nat, head: bytes, b: bytes, base: nat, n: nat, start: nat, count: nat, d: Dim) returns (pos: nat)
    requires start + count <= n < TWO32 && base + d.Width(n) <= |b| && at + |head| + 4 + d.Width(count) <= r.Length
    modifies r
    ensures pos == at + |head| + 4 + d.Width(count)
    ensures r[..pos] == old(r[..at]) + RunBytes(head, PointsIn(b, base, n, d)[start..start + count])
    ensures forall k :: pos <= k < r.Length ==> r[k] == old(r[k])
  {
    hide *;
    RunGroup(r[..at], head, PointsIn(b, base, n, d)[start..start + count]);
    Put(r, at, head);
    Put(r, at + |head|, Le32(count));
    pos := WritePoints(r, at + |head| + 4, b, base, n, start, count, d);
  }

  lemma {:induction false} RunGroup(was: bytes, head: bytes, pts: seq<Pt>)
    ensures was + head + Le32(Wrap32(|pts|)) + Flat(pts, Wkb) == was + RunBytes(head, pts)
    ensures |pts| < TWO32 ==> Wrap32(|pts|) == |pts|
  {
    Assoc4(was, head, Le32(Wrap32(|pts|)), Flat(pts, Wkb));
  }

  /** Record k, where it starts, and room for it. */
  lemma {:induction false} RoomFor<T>(was: bytes, xs: seq<T>, k: nat, f: T -> bytes)
    requires k < |xs|
    ensures was + Flat(xs[..k], f) + f(xs[k]) == was + Flat(xs[..k + 1], f)
    ensures |Flat(xs[..k + 1], f)| == |Flat(xs[..k], f)| + |f(xs[k])| <= |Flat(xs, f)|
  {
    FlatStep(was, xs, k, f);
    FlatSnoc(xs, k, f);
    FlatSplit(xs, k, f);
  }

  lemma {:induction false} Nothing<T>(f: T -> bytes)
    ensures Flat([], f) == []
  {
  }

  lemma {:induction false} RingBetween(figures: seq<Figure>, pts: seq<Pt>, i: nat)
    requires FiguresOk(figures, |pts|) && i < |figures|
    ensures figures[i].offset <= EndOf(figures, |pts|, i) <= |pts|
    ensures RingsOf(figures, pts)[i] == pts[figures[i].offset..EndOf(figures, |pts|, i)]
    ensures EndOf(figures, |pts|, i) == if i < |figures| - 1 then figures[i + 1].offset else |pts|
  {
    assert FigureOk(figures, |pts|, i) && (i + 1 < |figures| ==> FigureOk(figures, |pts|, i + 1));
  }

  lemma {:induction false} RunIs(head: bytes, pts: seq<Pt>, d: Dim)
    requires PtsOk(pts, d)
    ensures Run(head)(pts) == RunBytes(head, pts) && |RunBytes(head, pts)| == |head| + 4 + d.Width(|pts|)
  {
    ColumnWidths(pts, d);
  }

  lemma {:induction false} PointsInOk(b: bytes, base: nat, n: nat, d: Dim, start: nat, end: nat)
    requires start <= end <= n && base + d.Width(n) <= |b|
    ensures |PointsIn(b, base, n, d)| == n
    ensures PtsOk(PointsIn(b, base, n, d)[start..end], d)
  {
  }

  method WriteRings(r: array<byte>, at: nat, b: bytes, n: nat, figures: seq<Figure>, d: Dim) returns (pos: nat)
    requires n < TWO32 && 10 + d.Width(n) <= |b| && FiguresOk(figures, n)
    requires at + |Flat(RingsOf(figures, PointsIn(b, 10, n, d)), Run([]))| <= r.Length
    modifies r
    ensures pos == at + |Flat(RingsOf(figures, PointsIn(b, 10, n, d)), Run([]))|
    ensures r[..pos] == old(r[..at]) + Flat(RingsOf(figures, PointsIn(b, 10, n, d)), Run([]))
    ensures forall k :: pos <= k < r.Length ==> r[k] == old(r[k])
  {
    hide *;
    ghost var was := r[..at];
    ghost var pts := PointsIn(b, 10, n, d);
    ghost var rings := RingsOf(figures, pts);
    Nothing(Run([]));
    pos := at;
    for i := 0 to |figures|
      invariant pos <= r.Length
      invariant pos == at + |Flat(rings[..i], Run([]))|
      invariant r[..pos] == was + Flat(rings[..i], Run([]))
      invariant forall k :: pos <= k < r.Length ==> r[k] == old(r[k])
    {
      RingBetween(figures, pts, i);
      RoomFor(was, rings, i, Run([]));
      var start := figures[i].offset;
      var ringPoints := if i < |figures| - 1 then figures[i + 1].offset - start else n - start;
      PointsInOk(b, 10, n, d, start, start + ringPoints);
      RunIs([], rings[i], d);
      pos := WriteRun(r, pos, [], b, 10, n, start, ringPoints, d);
    }
    assert rings[..|figures|] == rings;
  }

  // ---- Multi-geometries ----

  /** Tables of a multi-geometry whose children are of kind 1 or 2. */
  ghost predicate MultiTables(t: TableData, n: nat, kind: byte) {
    && (kind == 1 || kind == 2) && n < 0x1000_0000
    && FiguresOk(t.figures, n) && ShapesOk(t.shapes, |t.figures|) && ChildrenOk(t, kind)
  }

  /** Point range of child c; the count is the wrapped difference of two 32-bit offsets. */
  method ChildInfo(t: TableData, n: nat, kind: byte, c: nat) returns (start: nat, count: nat)
    requires MultiTables(t, n, kind) && 1 <= c < |t.shapes|
    ensures ChildOk(t, kind, c)
    ensures start == ChildStart(t, n, c) < n && count == Wrap32(ChildEnd(t, n, c) - ChildStart(t, n, c))
  {
    assert ChildOk(t, kind, c);
    var figStart := t.shapes[c].figure;
    start := t.figures[figStart].offset;
    var figEnd := if c < |t.shapes| - 1 then t.shapes[c + 1].figure else |t.figures|;
    var end := if figEnd < |t.figures| then t.figures[figEnd].offset else n;
    count := Wrap32(end - start);
  }

  function ChildSize(kind: byte, count: nat, d: Dim): nat {
    if kind == 1 then 5 + d.Stride() else 9 + d.Width(count)
  }

  /** Header, SRID, child count and the first c - 1 children. */
  ghost function SizeBefore(t: TableData, n: nat, kind: byte, d: Dim, c: nat): nat
    requires MultiTables(t, n, kind) && 1 <= c <= |t.shapes|
  {
    if c == 1 then 13 else
    (assert ChildOk(t, kind, c - 1);
     SizeBefore(t, n, kind, d, c - 1) + ChildSize(kind, Wrap32(ChildEnd(t, n, c - 1) - ChildStart(t, n, c - 1)), d))
  }

  lemma {:induction false} SizeGrows(t: TableData, n: nat, kind: byte, d: Dim, c: nat, e: nat)
    requires MultiTables(t, n, kind) && 1 <= c <= e <= |t.shapes|
    ensures SizeBefore(t, n, kind, d, c) <= SizeBefore(t, n, kind, d, e)
    decreases e
  {
    if c < e {
      SizeGrows(t, n, kind, d, c, e - 1);
    }
  }

  /** The size of the result, unless it exceeds the allocation limit at some child. */
  method MultiSize(t: TableData, n: nat, kind: byte, d: Dim) returns (r: Result<nat>)
    requires MultiTables(t, n, kind) && |t.shapes| >= 1
    ensures var size := SizeBefore(t, n, kind, d, |t.shapes|);
            r == if size > MAX_ALLOC then Err(Conversion) else Ok(size)
  {
    hide *;
    SizeStep(t, n, kind, d, 1);
    var size := 13;
    for c := 1 to |t.shapes|
      invariant size == SizeBefore(t, n, kind, d, c) <= MAX_ALLOC
    {
      var start, count := ChildInfo(t, n, kind, c);
      SizeStep(t, n, kind, d, c);
      SizeGrows(t, n, kind, d, c + 1, |t.shapes|);
      var childSize := if kind == 1 then 5 + d.Stride() else 9 + d.Stride() * count;
      if kind == 2 && childSize > MAX_ALLOC { return Err(Conversion); }
      size := size + childSize;
      if size > MAX_ALLOC { return Err(Conversion); }
    }
    return Ok(size);
  }

  lemma {:induction false} SizeStep(t: TableData, n: nat, kind: byte, d: Dim, c: nat)
    requires MultiTables(t, n, kind) && 1 <= c <= |t.shapes|
    ensures |t.shapes| >= 1 && SizeBefore(t, n, kind, d, 1) == 13 <= MAX_ALLOC
    ensures c < |t.shapes| ==>
              && ChildOk(t, kind, c) && t.shapes[c].figure < |t.figures|
              && FiguresOk(t.figures, n) && ShapesOk(t.shapes, |t.figures|)
              && (var count := Wrap32(ChildEnd(t, n, c) - ChildStart(t, n, c));
                  SizeBefore(t, n, kind, d, c + 1) == SizeBefore(t, n, kind, d, c) + if kind == 1 then 5 + d.Stride() else 9 + d.Stride() * count)
  {
    if c < |t.shapes| {
      assert ChildOk(t, kind, c);
    }
  }

  /** A child line that ends before it starts makes the wrapped count too large for any buffer. */
  lemma {:induction false} UnorderedIsHuge(t: TableData, n: nat, d: Dim)
    requires MultiTables(t, n, 2) && !LinesOrdered(t, n)
    ensures SizeBefore(t, n, 2, d, |t.shapes|) > MAX_ALLOC
  {
    var c :| 1 <= c < |t.shapes| && !(assert ChildOk(t, 2, c); ChildStart(t, n, c) <= ChildEnd(t, n, c));
    assert ChildOk(t, 2, c);
    assert ChildEnd(t, n, c) - ChildStart(t, n, c) >= -0x1000_0000;
    assert Wrap32(ChildEnd(t, n, c) - ChildStart(t, n, c)) >= 0xF000_0000;
    SizeGrows(t, n, 2, d, c + 1, |t.shapes|);
  }

  lemma {:induction false} LineBetween(t: TableData, pts: seq<Pt>, c: nat)
    requires MultiTables(t, |pts|, 2) && LinesOrdered(t, |pts|) && 1 <= c < |t.shapes|
    ensures ChildOk(t, 2, c)
    ensures ChildStart(t, |pts|, c) <= ChildEnd(t, |pts|, c) <= |pts|
    ensures LinesOf(t, pts)[c - 1] == pts[ChildStart(t, |pts|, c)..ChildEnd(t, |pts|, c)]
    ensures Wrap32(ChildEnd(t, |pts|, c) - ChildStart(t, |pts|, c)) == |LinesOf(t, pts)[c - 1]|
  {
    assert ChildOk(t, 2, c);
  }

  lemma {:induction false} FirstSize(t: TableData, n: nat, d: Dim)
    requires MultiTables(t, n, 2) && 1 <= |t.shapes|
    ensures SizeBefore(t, n, 2, d, 1) == 13
  {
  }

  lemma {:induction false} LineSize(t: TableData, pts: seq<Pt>, d: Dim, head: bytes, c: nat)
    requires PtsOk(pts, d) && |head| == 5
    requires MultiTables(t, |pts|, 2) && LinesOrdered(t, |pts|) && 1 <= c < |t.shapes|
    ensures SizeBefore(t, |pts|, 2, d, c + 1) == SizeBefore(t, |pts|, 2, d, c) + |Run(head)(LinesOf(t, pts)[c - 1])|
  {
    hide FiguresOk, ShapesOk, ChildrenOk, LinesOrdered, LinesOf, Flat, Run, SizeBefore, ChildSize, PtsOk, ChildOk, RunBytes, Wrap32;
    LineBetween(t, pts, c);
    SizeNext(t, |pts|, d, c);
    LinePts(pts, d, ChildStart(t, |pts|, c), ChildEnd(t, |pts|, c));
    RunIs(head, LinesOf(t, pts)[c - 1], d);
  }

  lemma {:induction false} SizeNext(t: TableData, n: nat, d: Dim, c: nat)
    requires MultiTables(t, n, 2) && 1 <= c < |t.shapes| && ChildOk(t, 2, c)
    ensures SizeBefore(t, n, 2, d, c + 1) == SizeBefore(t, n, 2, d, c) + 9 + d.Width(Wrap32(ChildEnd(t, n, c) - ChildStart(t, n, c)))
  {
  }

  lemma {:induction false} LinePts(pts: seq<Pt>, d: Dim, a: nat, b: nat)
    requires PtsOk(pts, d) && a <= b <= |pts|
    ensures PtsOk(pts[a..b], d)
  {
  }

  lemma {:induction false} SizeOfLines(t: TableData, pts: seq<Pt>, d: Dim, head: bytes, c: nat)
    requires PtsOk(pts, d) && |head| == 5
    requires MultiTables(t, |pts|, 2) && LinesOrdered(t, |pts|) && 1 <= c <= |t.shapes|
    ensures SizeBefore(t, |pts|, 2, d, c) == 13 + |Flat(LinesOf(t, pts)[..c - 1], Run(head))|
    decreases c
  {
    hide FiguresOk, ShapesOk, ChildrenOk, LinesOrdered, LinesOf, Flat, Run, SizeBefore, ChildSize, PtsOk;
    var lines := LinesOf(t, pts);
    if c > 1 {
      SizeOfLines(t, pts, d, head, c - 1);
      LineBetween(t, pts, c - 1);
      LineSize(t, pts, d, head, c - 1);
      FlatSnoc(lines, c - 2, Run(head));
    } else {
      FirstSize(t, |pts|, d);
      NoRecords(lines, Run(head));
    }
  }

  lemma {:induction false} SizeOfPoints(t: TableData, pts: seq<Pt>, d: Dim, head: bytes, c: nat)
    requires PtsOk(pts, d) && |head| == 5
    requires MultiTables(t, |pts|, 1) && 1 <= c <= |t.shapes|
    ensures SizeBefore(t, |pts|, 1, d, c) == 13 + |Flat(MultiPointsOf(t, pts)[..c - 1], PointChild(head))|
    decreases c
  {
    hide FiguresOk, ShapesOk, ChildrenOk, MultiPointsOf, Flat, PtsOk;
    var chosen := MultiPointsOf(t, pts);
    if c > 1 {
      SizeOfPoints(t, pts, d, head, c - 1);
      PointChosen(t, pts, d, c - 1);
      FlatSnoc(chosen, c - 2, PointChild(head));
      PointBytes(chosen[c - 2], d);
    } else {
      NoRecords(chosen, PointChild(head));
    }
  }

  lemma {:induction false} PointChosen(t: TableData, pts: seq<Pt>, d: Dim, c: nat)
    requires PtsOk(pts, d) && MultiTables(t, |pts|, 1) && 1 <= c < |t.shapes|
    ensures ChildOk(t, 1, c)
    ensures MultiPointsOf(t, pts)[c - 1] == pts[ChildStart(t, |pts|, c)]
    ensures PtOk(MultiPointsOf(t, pts)[c - 1], d)
  {
    assert ChildOk(t, 1, c);
  }

  method WriteLines(r: array<byte>, at: nat, b: bytes, n: nat, t: TableData, d: Dim, head: bytes) returns (pos: nat)
    requires MultiTables(t, n, 2) && |t.shapes| >= 1 && LinesOrdered(t, n) && 10 + d.Width(n) <= |b| && |head| == 5 && n < 0x1000_0000
    requires at + |Flat(LinesOf(t, PointsIn(b, 10, n, d)), Run(head))| <= r.Length
    modifies r
    ensures pos == at + |Flat(LinesOf(t, PointsIn(b, 10, n, d)), Run(head))|
    ensures r[..pos] == old(r[..at]) + Flat(LinesOf(t, PointsIn(b, 10, n, d)), Run(head))
  {
    hide *;
    ghost var was := r[..at];
    ghost var pts := PointsIn(b, 10, n, d);
    LinesAre(t, pts);
    ghost var lines := LinesOf(t, pts);
    Nothing(Run(head));
    pos := at;
    for c := 1 to |t.shapes|
      invariant pos <= r.Length
      invariant pos == at + |Flat(lines[..c - 1], Run(head))|
      invariant r[..pos] == was + Flat(lines[..c - 1], Run(head))
    {
      LineBetween(t, pts, c);
      RoomFor(was, lines, c - 1, Run(head));
      var start, count := ChildInfo(t, n, 2, c);
      PointsInOk(b, 10, n, d, start, start + count);
      RunIs(head, lines[c - 1], d);
      Small(n);
      pos := WriteRun(r, pos, head, b, 10, n, start, count, d);
    }
    assert lines[..|t.shapes| - 1] == lines;
  }

  lemma {:induction false} LinesAre(t: TableData, pts: seq<Pt>)
    requires MultiTables(t, |pts|, 2) && LinesOrdered(t, |pts|)
    ensures FiguresOk(t.figures, |pts|) && ShapesOk(t.shapes, |t.figures|) && ChildrenOk(t, 2)
    ensures |LinesOf(t, pts)| == |t.shapes| - 1
  {
  }

  lemma {:induction false} PointsAre(t: TableData, pts: seq<Pt>)
    requires MultiTables(t, |pts|, 1)
    ensures FiguresOk(t.figures, |pts|) && ChildrenOk(t, 1) && |t.shapes| >= 1
  {
  }

  lemma Small(n: nat)
    requires n < 0x1000_0000
    ensures n < TWO32
  {
  }

  method WriteChildPoints(r: array<byte>, at: nat, b: bytes, n: nat, t: TableData, d: Dim, head: bytes) returns (pos: nat)
    requires MultiTables(t, n, 1) && |t.shapes| >= 1 && 10 + d.Width(n) <= |b| && |head| == 5
    requires at + |Flat(MultiPointsOf(t, PointsIn(b, 10, n, d)), PointChild(head))| <= r.Length
    modifies r
    ensures pos == at + |Flat(MultiPointsOf(t, PointsIn(b, 10, n, d)), PointChild(head))|
    ensures r[..pos] == old(r[..at]) + Flat(MultiPointsOf(t, PointsIn(b, 10, n, d)), PointChild(head))
  {
    hide *;
    ghost var was := r[..at];
    ghost var pts := PointsIn(b, 10, n, d);
    PointsAre(t, pts);
    ghost var chosen := MultiPointsOf(t, pts);
    Nothing(PointChild(head));
    PointsInOk(b, 10, n, d, 0, n);
    assert pts[0..n] == pts;
    pos := at;
    for c := 1 to |t.shapes|
      invariant pos <= r.Length
      invariant pos == at + |Flat(chosen[..c - 1], PointChild(head))|
      invariant r[..pos] == was + Flat(chosen[..c - 1], PointChild(head))
    {
      PointChosen(t, pts, d, c);
      RoomFor(was, chosen, c - 1, PointChild(head));
      var start, count := ChildInfo(t, n, 1, c);
      PointsInAt(b, 10, n, d, 0, start);
      PointBytes(chosen[c - 1], d);
      ChildIs(head, chosen[c - 1]);
      ghost var before := r[..pos];
      Put(r, pos, head);
      Assoc(before, head, Wkb(chosen[c - 1]));
      pos := WritePoint(r, pos + 5, b, 10, n, start, d);
    }
    assert chosen[..|t.shapes| - 1] == chosen;
  }

  lemma {:induction false} ChildIs(head: bytes, p: Pt)
    ensures PointChild(head)(p) == head + Wkb(p)
  {
  }

  // ---- The whole conversion ----

  lemma {:induction false} EwkbGroup(g: Geometry, d: Dim, srid: bytes, head: bytes, count: bytes, rest: bytes)
    requires srid != [] && EwkbBody(g, head) == count + rest
    ensures EwkbHeader(g.Kind(), d, true) + srid + count + rest == Ewkb(g, d, srid, head)
    ensures |Ewkb(g, d, srid, head)| == 5 + |srid| + |EwkbBody(g, head)|
  {
    Assoc(EwkbHeader(g.Kind(), d, true) + srid, count, rest);
  }

  lemma {:induction false} Padded(r: bytes, e: bytes, pos: nat)
    requires pos <= |r| && r[..pos] == e && forall k :: pos <= k < |r| ==> r[k] == 0
    ensures r == e + Zeros(|r| - pos)
  {
  }

  /** A fresh zeroed buffer that starts with header and SRID. */
  method NewResult(size: nat, kind: byte, d: Dim, srid: bytes) returns (r: array<byte>)
    requires size >= 9 && |srid| == 4
    ensures fresh(r) && r.Length == size
    ensures r[..9] == EwkbHeader(kind, d, true) + srid
    ensures forall k :: 9 <= k < size ==> r[k] == 0
  {
    r := new byte[size](_ => 0);
    Put(r, 0, EwkbHeader(kind, d, true));
    Put(r, 5, srid);
  }

  method DecodePoint(b: bytes, base: nat, d: Dim) returns (r: Result<bytes>)
    requires |b| >= 4 && base + d.Width(1) <= |b|
    ensures r == Rendered(ParseSimple(Point(PointIn(b, base, 1, 0, d)), d, 0), b[..4])
  {
    var size := 9 + d.Stride();
    ghost var p := PointIn(b, base, 1, 0, d);
    PointBytes(p, d);
    if size + 4 > MAX_ALLOC { return Err(AllocationLimit); }
    var out := NewResult(size, 1, d, b[..4]);
    var pos := WritePoint(out, 9, b, base, 1, 0, d);
    Padded(out[..], EwkbHeader(1, d, true) + b[..4] + Wkb(p), pos);
    return Ok(out[..]);
  }

  method DecodeLine(b: bytes, base: nat, n: nat, d: Dim, size: nat) returns (r: Result<bytes>)
    requires 4 <= |b| && n < TWO32 && base + d.Width(n) <= |b| && size >= 13 + d.Width(n)
    ensures r == Rendered(ParseSimple(Line(PointsIn(b, base, n, d)), d, size - 13 - d.Width(n)), b[..4])
  {
    ghost var pts := PointsIn(b, base, n, d);
    RunIs([], pts, d);
    if size + 4 > MAX_ALLOC { return Err(AllocationLimit); }
    var out := NewResult(size, 2, d, b[..4]);
    assert pts[0..n] == pts;
    var pos := WriteRun(out, 9, [], b, base, n, 0, n, d);
    Padded(out[..], EwkbHeader(2, d, true) + b[..4] + RunBytes([], pts), pos);
    return Ok(out[..]);
  }

  lemma {:induction false} SimpleIs(g: Geometry, d: Dim, pad: nat, srid: bytes)
    requires !g.Empty?
    ensures Rendered(ParseSimple(g, d, pad), srid) ==
            if 13 + |EwkbBody(g, [])| + pad > MAX_ALLOC then Err(AllocationLimit) else Ok(Ewkb(g, d, srid, HeadFor(g, d)) + Zeros(pad))
  {
  }

  lemma {:induction false} PolygonBody(rings: seq<seq<Pt>>, head: bytes)
    requires |rings| < 0x1000_0000
    ensures Wrap32(|rings|) == |rings| && Polygon(rings).Kind() == 3
    ensures EwkbBody(Polygon(rings), head) == Le32(|rings|) + Flat(rings, Run([]))
  {
    hide Flat;
  }

  lemma {:induction false} PolygonIs(rings: seq<seq<Pt>>, d: Dim, srid: bytes, size: nat)
    requires |srid| == 4 && |rings| < 0x1000_0000 && size >= 13 + |Flat(rings, Run([]))|
    ensures Wrap32(|rings|) == |rings|
    ensures var g := Polygon(rings);
            && |EwkbBody(g, [])| == 4 + |Flat(rings, Run([]))|
            && Ewkb(g, d, srid, HeadFor(g, d)) == EwkbHeader(3, d, true) + srid + Le32(|rings|) + Flat(rings, Run([]))
            && Rendered(ParseSimple(g, d, size - 9 - |EwkbBody(g, [])|), srid) ==
               if size + 4 > MAX_ALLOC then Err(AllocationLimit)
               else Ok(Ewkb(g, d, srid, HeadFor(g, d)) + Zeros(size - 9 - |EwkbBody(g, [])|))
  {
    hide *;
    var g := Polygon(rings);
    PolygonBody(rings, HeadFor(g, d));
    PolygonBody(rings, []);
    SimpleIs(g, d, size - 9 - |EwkbBody(g, [])|, srid);
    EwkbGroup(g, d, srid, HeadFor(g, d), Le32(|rings|), Flat(rings, Run([])));
  }

  method DecodePolygon(b: bytes, n: nat, figures: seq<Figure>, d: Dim, size: nat) returns (r: Result<bytes>)
    requires 4 <= |b| < 0x4000_0000 && n < 0x1000_0000 && 10 + d.Width(n) <= |b| && FiguresOk(figures, n) && |figures| <= n
    requires size >= 13 + |Flat(RingsOf(figures, PointsIn(b, 10, n, d)), Run([]))|
    ensures var g := Polygon(RingsOf(figures, PointsIn(b, 10, n, d)));
            r == Rendered(ParseSimple(g, d, size - 9 - |EwkbBody(g, [])|), b[..4])
  {
    hide *;
    ghost var rings := RingsOf(figures, PointsIn(b, 10, n, d));
    ghost var g := Polygon(rings);
    PolygonIs(rings, d, b[..4], size);
    Small(n);
    Small(|figures|);
    if size + 4 > MAX_ALLOC { return Err(AllocationLimit); }
    var out := NewResult(size, 3, d, b[..4]);
    Put(out, 9, Le32(|figures|));
    var pos := WriteRings(out, 13, b, n, figures, d);
    Padded(out[..], Ewkb(g, d, b[..4], HeadFor(g, d)), pos);
    return Ok(out[..]);
  }

  /** Rings taken from accepted figures partition the points, in order. */
  lemma {:induction false} RingsPartition(figures: seq<Figure>, pts: seq<Pt>, k: nat)
    requires FiguresOk(figures, |pts|) && 1 <= k <= |figures|
    ensures EndOf(figures, |pts|, k - 1) <= |pts|
    ensures Join(RingsOf(figures, pts)[..k]) == pts[..EndOf(figures, |pts|, k - 1)]
    decreases k
  {
    var rings := RingsOf(figures, pts);
    RingBetween(figures, pts, k - 1);
    JoinSnoc(rings, k - 1);
    if k == 1 {
      assert FigureOk(figures, |pts|, 0);
      assert Join(rings[..0]) == [];
    } else {
      RingsPartition(figures, pts, k - 1);
    }
  }

  lemma {:induction false} RingsOfOk(figures: seq<Figure>, pts: seq<Pt>, d: Dim)
    requires FiguresOk(figures, |pts|) && PtsOk(pts, d)
    ensures AllPtsOk(RingsOf(figures, pts), d)
    ensures Join(RingsOf(figures, pts)) == pts
    ensures |Flat(RingsOf(figures, pts), Run([]))| == 4 * |figures| + d.Width(|pts|)
  {
    var rings := RingsOf(figures, pts);
    forall i | 0 <= i < |rings| ensures PtsOk(rings[i], d) {
      RingBetween(figures, pts, i);
    }
    RingsPartition(figures, pts, |figures|);
    assert rings[..|figures|] == rings && pts[..|pts|] == pts;
    WidthOfRuns([], rings, d);
  }

  lemma {:induction false} TablesAre(t: TableData, n: nat, kind: byte)
    requires MultiTables(t, n, kind)
    ensures FiguresOk(t.figures, n) && ShapesOk(t.shapes, |t.figures|) && ChildrenOk(t, kind) && n < 0x1000_0000
  {
  }

  lemma {:induction false} HeadIs(g: Geometry, d: Dim)
    ensures HeadFor(g, d) == ChildHead(if g.MultiPoint? then 1 else 2, d)
    ensures g.MultiPoint? ==> g.Kind() == 4
    ensures g.MultiLine? ==> g.Kind() == 5
  {
  }

  lemma {:induction false} MultiIs(g: Geometry, d: Dim, srid: bytes, rest: bytes)
    requires |srid| == 4 && (g.MultiPoint? || g.MultiLine?)
    requires rest == (if g.MultiPoint? then Flat(g.pts, PointChild(HeadFor(g, d))) else Flat(g.lines, Run(HeadFor(g, d))))
    ensures var size := 13 + |rest|;
            var count := Le32(Wrap32(if g.MultiPoint? then |g.pts| else |g.lines|));
            && HeadFor(g, d) == ChildHead(if g.MultiPoint? then 1 else 2, d)
            && Ewkb(g, d, srid, HeadFor(g, d)) == EwkbHeader(g.Kind(), d, true) + srid + count + rest
            && Rendered(ParseMulti(g, d), srid) ==
               if size > MAX_ALLOC then Err(Conversion)
               else if size + 4 > MAX_ALLOC then Err(AllocationLimit)
               else Ok(Ewkb(g, d, srid, HeadFor(g, d)) + Zeros(0))
  {
    EwkbGroup(g, d, srid, HeadFor(g, d), Le32(Wrap32(if g.MultiPoint? then |g.pts| else |g.lines|)), rest);
  }

  method DecodeMultiPoint(b: bytes, n: nat, t: TableData, d: Dim) returns (r: Result<bytes>)
    requires 4 <= |b| && 10 + d.Width(n) <= |b| && MultiTables(t, n, 1) && |t.shapes| >= 1
    ensures r == Rendered(ParseMulti(MultiPoint(MultiPointsOf(t, PointsIn(b, 10, n, d))), d), b[..4])
  {
    hide *;
    ghost var pts := PointsIn(b, 10, n, d);
    PointsAre(t, pts);
    ghost var chosen := MultiPointsOf(t, pts);
    ghost var g := MultiPoint(chosen);
    var head := ChildHead(1, d);
    PointsInOk(b, 10, n, d, 0, n);
    assert pts[0..n] == pts;
    SizeOfPoints(t, pts, d, head, |t.shapes|);
    assert chosen[..|t.shapes| - 1] == chosen;
    HeadIs(g, d);
    MultiIs(g, d, b[..4], Flat(chosen, PointChild(head)));
    var m := MultiSize(t, n, 1, d);
    if m.Err? { return Err(m.error); }
    var size := m.value;
    if size + 4 > MAX_ALLOC { return Err(AllocationLimit); }
    var out := NewResult(size, 4, d, b[..4]);
    Put(out, 9, Le32(Wrap32(|t.shapes| - 1)));
    var pos := WriteChildPoints(out, 13, b, n, t, d, head);
    Padded(out[..], Ewkb(g, d, b[..4], HeadFor(g, d)), pos);
    return Ok(out[..]);
  }

  method DecodeMultiLine(b: bytes, n: nat, t: TableData, d: Dim) returns (r: Result<bytes>)
    requires 4 <= |b| && 10 + d.Width(n) <= |b| && MultiTables(t, n, 2) && |t.shapes| >= 1
    ensures r == if LinesOrdered(t, n) then Rendered(ParseMulti(MultiLine(LinesOf(t, PointsIn(b, 10, n, d))), d), b[..4]) else Err(Conversion)
  {
    hide *;
    ghost var pts := PointsIn(b, 10, n, d);
    var head := ChildHead(2, d);
    TablesAre(t, n, 2);
    if LinesOrdered(t, n) {
      LinesAre(t, pts);
      ghost var lines := LinesOf(t, pts);
      PointsInOk(b, 10, n, d, 0, n);
      assert pts[0..n] == pts;
      SizeOfLines(t, pts, d, head, |t.shapes|);
      assert lines[..|t.shapes| - 1] == lines;
      HeadIs(MultiLine(lines), d);
      MultiIs(MultiLine(lines), d, b[..4], Flat(lines, Run(head)));
    } else {
      UnorderedIsHuge(t, n, d);
    }
    var m := MultiSize(t, n, 2, d);
    if m.Err? { return Err(m.error); }
    var size := m.value;
    ghost var g := MultiLine(LinesOf(t, pts));
    if size + 4 > MAX_ALLOC { return Err(AllocationLimit); }
    var out := NewResult(size, 5, d, b[..4]);
    Put(out, 9, Le32(Wrap32(|t.shapes| - 1)));
    var pos := WriteLines(out, 13, b, n, t, d, head);
    Padded(out[..], Ewkb(g, d, b[..4], HeadFor(g, d)), pos);
    return Ok(out[..]);
  }

  /** A non-empty input whose type the shape table gives. */
  method DecodeCounted(b: bytes, h: Head) returns (r: Result<bytes>)
    requires 22 <= |b| < 0x4000_0000 && h.counted && h.npoints >= 1 && 10 + h.dim.Width(h.npoints) <= |b|
    ensures r == Rendered(ParseCounted(b, h), b[..4])
  {
    hide Flat, Join, PointsIn, PointIn, RingsOf, LinesOf, MultiPointsOf, ParseSimple, ParseMulti, Meaning;
    hide FiguresOk, ShapesOk, AllStrokes, RingsOk, ChildrenOk, LinesOrdered, ReadTables;
    var n, d := h.npoints, h.dim;
    assert n < 0x1000_0000;
    var o := 10 + n * d.Stride();
    assert o == 10 + d.Width(n);
    var parsed := ParseTables(b, o, n);
    if parsed.Err? { return Err(parsed.error); }
    var t := parsed.value;
    ghost var pts := PointsIn(b, 10, n, d);
    var kind := t.shapes[0].kind;
    if kind == 2 {
      var ok := ValidateStrokes(t.figures);
      if !ok { return Err(Conversion); }
      r := DecodeLine(b, 10, n, d, |b| - 2 + 5 - 22);
    } else if kind == 3 {
      var ok := ValidatePolygon(t.figures, n);
      if !ok { return Err(Conversion); }
      RingsOfOk(t.figures, pts, d);
      r := DecodePolygon(b, n, t.figures, d, |b| - 2 - 4 + 5 - t.Size() + 4 * (|t.figures| + 1));
    } else if kind == 1 {
      r := DecodePoint(b, 10, d);
    } else if kind == 4 {
      var ok := ValidateMulti(t, 1);
      if !ok { return Err(Conversion); }
      r := DecodeMultiPoint(b, n, t, d);
    } else if kind == 5 {
      var ok := ValidateMulti(t, 2);
      if !ok { return Err(Conversion); }
      r := DecodeMultiLine(b, n, t, d);
    } else {
      r := Err(UnsupportedShape);
    }
  }

  /** An input that declares no points. */
  method DecodeEmpty(b: bytes) returns (r: Result<bytes>)
    requires |b| >= 22
    ensures r == Rendered(ParseEmpty(b), b[..4])
  {
    if b[5] == 4 {
      if |b| < 27 { return Err(Conversion); }
      if b[6..26] != EMPTY_COORD { return Err(UnsupportedType); }
    } else if |b| < 27 {
      return Err(Conversion);
    }
    var last := b[26];
    if last == 1 {
      return Ok([1, 1, 0, 0, 0x20] + b[..4] + (NAN_COORD + NAN_COORD));
    } else if 2 <= last <= 5 {
      return Ok([1, last, 0, 0, 0x20] + b[..4] + Zeros(4));
    }
    return Err(UnsupportedType);
  }

  /** CLR to EWKB, for any input a bytea can hold. */
  method Decode(b: bytes) returns (r: Result<bytes>)
    requires |b| < 0x4000_0000
    ensures r == Decoded(b)
  {
    if |b| < 22 { return Err(TooShort); }
    var head := ParseHead(b);
    if head.Err? { return Err(head.error); }
    var h := head.value;
    var finite := true;
    if !h.empty {
      finite := CheckFinite(b, h.Base(), h.npoints);
    }
    var srid := Signed32(U32(b, 0));
    if srid < 0 || srid > 999999 || !finite { return Err(OutOfRange); }
    if h.empty {
      r := DecodeEmpty(b);
    } else if h.counted {
      r := DecodeCounted(b, h);
    } else if h.kind == 1 {
      r := DecodePoint(b, 6, h.dim);
    } else {
      r := DecodeLine(b, 6, 2, h.dim, |b| - 2 + 5 + 4);
    }
  }
}
