/** What a CLR byte string means: which inputs are accepted, and the geometry each of them denotes. */
module SpatialParse {
  import opened Bytes
  import opened Spatial

  datatype Error = TooShort | UnsupportedType | Conversion | OutOfRange | UnsupportedShape | AllocationLimit

  datatype Result<+T> = Ok(value: T) | Err(error: Error) {
    predicate IsFailure() { Err? }
    function PropagateFailure<U>(): Result<U> requires Err? { Err(error) }
    function Extract(): T requires Ok? { value }
  }

  const EMPTY_COORD: bytes := [0, 0, 0, 0, 0, 0, 0, 0, 1, 0, 0, 0, 0xff, 0xff, 0xff, 0xff, 0xff, 0xff, 0xff, 0xff]
  const NAN_COORD: bytes := [0, 0, 0, 0, 0, 0, 0xf8, 0x7f]
  const NO_FIGURE: int := 0xFFFF_FFFF

  lemma EmptyPointIsNaN()
    ensures IsNaN(NAN_COORD)
  {
  }

  // ---- Header ----

  /** counted: the point count is stored, and the type is left to the shape table (kind 0). */
  datatype Head = Head(dim: Dim, kind: byte, counted: bool, npoints: nat, empty: bool) {
    function Base(): nat { if counted then 10 else 6 }
  }

  function DimOf(props: byte): Dim { Dim(props % 2 == 1, props / 2 % 2 == 1) }

  function ParseHead(b: bytes): (r: Result<Head>)
    requires |b| >= 22
    ensures r.Ok? && !r.value.empty ==> r.value.Base() + r.value.dim.Width(r.value.npoints) <= |b|
    ensures r.Ok? && !r.value.empty ==> r.value.npoints >= 1
  {
    var t := b[5];
    if b[4] != 1 && b[4] != 2 then Err(UnsupportedType)
    else if t == 4 && |b| >= 26 && b[6..26] == EMPTY_COORD then Ok(Head(Dim(false, false), 0, false, 0, true))
    else if t < 8 then
      var n := Signed32(U32(b, 6));
      if n < 0 || 10 + DimOf(t).Width(n) > |b| then Err(Conversion) else Ok(Head(DimOf(t), 0, true, n, n == 0))
    else if t < 16 then
      if 6 + DimOf(t).Width(1) > |b| then Err(Conversion) else Ok(Head(DimOf(t), 1, false, 1, false))
    else if t < 24 then
      if 6 + DimOf(t).Width(2) > |b| then Err(Conversion) else Ok(Head(DimOf(t), 2, false, 2, false))
    else Err(UnsupportedType)
  }

  // ---- Coordinates ----

  /** Point i of n points stored in columns from base on. */
  function PointIn(b: bytes, base: nat, n: nat, i: nat, d: Dim): (p: Pt)
    requires i < n && base + d.Width(n) <= |b|
    ensures PtOk(p, d)
  {
    var z, m := base + 16 * n + 8 * i, base + 16 * n + (if d.z then 8 * n else 0) + 8 * i;
    Pt(b[base + 16 * i..base + 16 * i + 16], if d.z then b[z..z + 8] else [], if d.m then b[m..m + 8] else [])
  }

  function PointsIn(b: bytes, base: nat, n: nat, d: Dim): (pts: seq<Pt>)
    requires base + d.Width(n) <= |b|
    ensures |pts| == n && PtsOk(pts, d)
  {
    seq(n, i requires 0 <= i < n => PointIn(b, base, n, i, d))
  }

  predicate Finite(b: bytes, base: nat, n: nat)
    requires base + 16 * n <= |b|
  {
    forall i :: 0 <= i < 2 * n ==> !NotFinite(b[base + 8 * i..base + 8 * i + 8])
  }

  // ---- Tables ----

  function FigureIn(b: bytes, o: nat): Figure
    requires o + 5 <= |b|
  {
    Figure(b[o], U32(b, o + 1))
  }

  function ShapeIn(b: bytes, o: nat): Shape
    requires o + 9 <= |b|
  {
    Shape(Signed32(U32(b, o)), U32(b, o + 4), b[o + 8])
  }

  function FiguresIn(b: bytes, o: nat, k: nat): (r: seq<Figure>)
    requires o + 5 * k <= |b|
    ensures |r| == k
  {
    seq(k, i requires 0 <= i < k => FigureIn(b, o + 5 * i))
  }

  function ShapesIn(b: bytes, o: nat, k: nat): (r: seq<Shape>)
    requires o + 9 * k <= |b|
    ensures |r| == k
  {
    seq(k, i requires 0 <= i < k => ShapeIn(b, o + 9 * i))
  }

  predicate FigureOk(figures: seq<Figure>, n: nat, i: nat)
    requires i < |figures|
  {
    && figures[i].attribute <= EXTERIOR_RING
    && (i == 0 ==> figures[i].offset == 0)
    && figures[i].offset < n
    && (i > 0 ==> figures[i].offset > figures[i - 1].offset)
  }

  predicate FiguresOk(figures: seq<Figure>, n: nat) {
    |figures| >= 1 && forall i :: 0 <= i < |figures| ==> FigureOk(figures, n, i)
  }

  predicate ShapeOk(shapes: seq<Shape>, nfigures: nat, i: nat)
    requires i < |shapes|
  {
    (i == 0 ==> shapes[i].parent == -1) && (shapes[i].figure < nfigures || shapes[i].figure == NO_FIGURE)
  }

  predicate ShapesOk(shapes: seq<Shape>, nfigures: nat) {
    |shapes| >= 1 && forall i :: 0 <= i < |shapes| ==> ShapeOk(shapes, nfigures, i)
  }

  datatype TableData = TableData(figures: seq<Figure>, shapes: seq<Shape>) {
    function Size(): nat { 8 + 5 * |figures| + 9 * |shapes| }
  }

  /** The tables at offset o of an input that declares n points. */
  function ReadTables(b: bytes, o: nat, n: nat): (r: Result<TableData>)
    requires o <= |b|
    ensures r.Ok? ==> 1 <= |r.value.figures| <= n && |r.value.shapes| >= 1
    ensures r.Ok? ==> FiguresOk(r.value.figures, n) && ShapesOk(r.value.shapes, |r.value.figures|) && o + r.value.Size() <= |b|
  {
    if o + 4 > |b| then Err(Conversion) else
    var nf := U32(b, o);
    if nf < 1 || nf > n || o + 4 + 5 * nf > |b| || !FiguresOk(FiguresIn(b, o + 4, nf), n) then Err(Conversion) else
    var s := o + 4 + 5 * nf;
    if s + 4 > |b| then Err(Conversion) else
    var ns := U32(b, s);
    if ns < 1 || s + 4 + Wrap32(9 * ns) > |b| then Err(Conversion)
    else if 12 * ns > MAX_ALLOC then Err(AllocationLimit)
    else
      var shapes := ShapesIn(b, s + 4, ns);
      if !ShapesOk(shapes, nf) then Err(Conversion) else Ok(TableData(FiguresIn(b, o + 4, nf), shapes))
  }

  // ---- Geometry types ----

  function EndOf(figures: seq<Figure>, n: nat, i: nat): int
    requires i < |figures|
  {
    if i + 1 < |figures| then figures[i + 1].offset else n
  }

  predicate AllStrokes(figures: seq<Figure>) {
    forall i :: 0 <= i < |figures| ==> figures[i].attribute == STROKE
  }

  predicate RingOk(figures: seq<Figure>, n: nat, i: nat)
    requires i < |figures|
  {
    figures[i].attribute != STROKE && EndOf(figures, n, i) - figures[i].offset >= 4
  }

  predicate RingsOk(figures: seq<Figure>, n: nat) {
    forall i :: 0 <= i < |figures| ==> RingOk(figures, n, i)
  }

  function RingsOf(figures: seq<Figure>, pts: seq<Pt>): (rings: seq<seq<Pt>>)
    requires FiguresOk(figures, |pts|)
    ensures |rings| == |figures|
  {
    seq(|figures|, i requires 0 <= i < |figures| =>
      (assert FigureOk(figures, |pts|, i) && (i + 1 < |figures| ==> FigureOk(figures, |pts|, i + 1));
       pts[figures[i].offset..EndOf(figures, |pts|, i)]))
  }

  predicate ChildOk(t: TableData, kind: byte, c: nat)
    requires c < |t.shapes|
  {
    t.shapes[c].parent == 0 && t.shapes[c].kind == kind && t.shapes[c].figure < |t.figures|
  }

  predicate ChildrenOk(t: TableData, kind: byte) {
    AllStrokes(t.figures) && forall c :: 1 <= c < |t.shapes| ==> ChildOk(t, kind, c)
  }

  /** First point of child shape c. */
  function ChildStart(t: TableData, n: nat, c: nat): (k: nat)
    requires FiguresOk(t.figures, n) && c < |t.shapes| && t.shapes[c].figure < |t.figures|
    ensures k < n
  {
    assert FigureOk(t.figures, n, t.shapes[c].figure);
    t.figures[t.shapes[c].figure].offset
  }

  /** End of child shape c: where the next child's first figure starts. */
  function ChildEnd(t: TableData, n: nat, c: nat): (k: nat)
    requires FiguresOk(t.figures, n) && ShapesOk(t.shapes, |t.figures|) && c < |t.shapes|
    ensures k <= n
  {
    var e := if c + 1 < |t.shapes| then t.shapes[c + 1].figure else |t.figures|;
    if e < |t.figures| then ChildStart(t, n, c + 1) else n
  }

  lemma {:induction false} OffsetsIncrease(figures: seq<Figure>, n: nat, i: nat, j: nat)
    requires FiguresOk(figures, n) && i <= j < |figures|
    ensures figures[j].offset - figures[i].offset >= j - i
    decreases j
  {
    assert FigureOk(figures, n, j);
    if i < j {
      OffsetsIncrease(figures, n, i, j - 1);
    }
  }

  // ---- Meaning of the whole input ----

  /** A geometry, and the number of zero bytes its EWKB is followed by. */
  datatype Parsed = Parsed(g: Geometry, d: Dim, pad: nat)

  /** Child headers are plain WKB: type plus 1000 for Z, 2000 for M. */
  function ChildHead(kind: byte, d: Dim): (r: bytes)
    ensures |r| == 5
  {
    [1] + Le32(kind + (if d.z then 1000 else 0) + (if d.m then 2000 else 0))
  }

  function HeadFor(g: Geometry, d: Dim): bytes {
    ChildHead(if g.MultiPoint? then 1 else 2, d)
  }

  function MultiPointsOf(t: TableData, pts: seq<Pt>): (r: seq<Pt>)
    requires FiguresOk(t.figures, |pts|) && ChildrenOk(t, 1) && |t.shapes| >= 1
    ensures |r| == |t.shapes| - 1
  {
    seq(|t.shapes| - 1, c requires 0 <= c < |t.shapes| - 1 => (assert ChildOk(t, 1, c + 1); pts[ChildStart(t, |pts|, c + 1)]))
  }

  /** No child line ends before it starts. */
  predicate LinesOrdered(t: TableData, n: nat)
    requires FiguresOk(t.figures, n) && ShapesOk(t.shapes, |t.figures|) && ChildrenOk(t, 2)
  {
    forall c :: 1 <= c < |t.shapes| ==> (assert ChildOk(t, 2, c); ChildStart(t, n, c) <= ChildEnd(t, n, c))
  }

  function LinesOf(t: TableData, pts: seq<Pt>): (r: seq<seq<Pt>>)
    requires FiguresOk(t.figures, |pts|) && ShapesOk(t.shapes, |t.figures|) && ChildrenOk(t, 2) && LinesOrdered(t, |pts|)
    ensures |r| == |t.shapes| - 1
  {
    seq(|t.shapes| - 1, c requires 0 <= c < |t.shapes| - 1 =>
      (assert ChildOk(t, 2, c + 1); pts[ChildStart(t, |pts|, c + 1)..ChildEnd(t, |pts|, c + 1)]))
  }

  function ParseMulti(g: Geometry, d: Dim): Result<Parsed> {
    var size := 9 + |EwkbBody(g, HeadFor(g, d))|;
    if size > MAX_ALLOC then Err(Conversion)
    else if size + 4 > MAX_ALLOC then Err(AllocationLimit)
    else Ok(Parsed(g, d, 0))
  }

  function ParseSimple(g: Geometry, d: Dim, pad: nat): Result<Parsed> {
    if 13 + |EwkbBody(g, [])| + pad > MAX_ALLOC then Err(AllocationLimit) else Ok(Parsed(g, d, pad))
  }

  /** A non-empty input with stored point count: its type is the root shape's. */
  function ParseCounted(b: bytes, h: Head): Result<Parsed>
    requires h.counted && h.npoints >= 1 && 10 + h.dim.Width(h.npoints) <= |b|
  {
    var n, d, o := h.npoints, h.dim, 10 + h.dim.Width(h.npoints);
    var pts := PointsIn(b, 10, n, d);
    var t :- ReadTables(b, o, n);
    var rest := |b| - o - t.Size();
    match t.shapes[0].kind
    case 1 => ParseSimple(Point(PointIn(b, 10, 1, 0, d)), d, 0)
    case 2 => if AllStrokes(t.figures) then ParseSimple(Line(pts), d, rest + t.Size() - 22) else Err(Conversion)
    case 3 => if RingsOk(t.figures, n) then ParseSimple(Polygon(RingsOf(t.figures, pts)), d, rest) else Err(Conversion)
    case 4 => if ChildrenOk(t, 1) then ParseMulti(MultiPoint(MultiPointsOf(t, pts)), d) else Err(Conversion)
    case 5 =>
      if ChildrenOk(t, 2) && LinesOrdered(t, n) then ParseMulti(MultiLine(LinesOf(t, pts)), d) else Err(Conversion)
    case _ => Err(UnsupportedShape)
  }

  function ParseEmpty(b: bytes): Result<Parsed>
    requires |b| >= 22
  {
    if |b| < 27 then Err(Conversion)
    else if b[5] == 4 && b[6..26] != EMPTY_COORD then Err(UnsupportedType)
    else if 1 <= b[26] <= 5 then Ok(Parsed(Empty(b[26]), Dim(false, false), 0))
    else Err(UnsupportedType)
  }

  function Parse(b: bytes): Result<Parsed> {
    if |b| < 22 then Err(TooShort) else
    var h :- ParseHead(b);
    var srid := Signed32(U32(b, 0));
    if srid < 0 || srid > 999999 || (!h.empty && !Finite(b, h.Base(), h.npoints)) then Err(OutOfRange)
    else if h.empty then ParseEmpty(b)
    else if h.counted then ParseCounted(b, h)
    else if h.kind == 1 then ParseSimple(Point(PointIn(b, 6, 1, 0, h.dim)), h.dim, 0)
    else ParseSimple(Line(PointsIn(b, 6, 2, h.dim)), h.dim, |b| - 6 - h.dim.Width(2))
  }

  /** The EWKB that stands for an accepted input. */
  function Meaning(p: Parsed, srid: bytes): bytes {
    if p.g.Empty? then
      EwkbHeader(p.g.kind, p.d, true) + srid + (if p.g.kind == 1 then NAN_COORD + NAN_COORD else Zeros(4))
    else Ewkb(p.g, p.d, srid, HeadFor(p.g, p.d)) + Zeros(p.pad)
  }

  function Rendered(p: Result<Parsed>, srid: bytes): Result<bytes> {
    match p
    case Ok(v) => Ok(Meaning(v, srid))
    case Err(e) => Err(e)
  }

  /** What decoding b yields. */
  function Decoded(b: bytes): Result<bytes> {
    Rendered(Parse(b), if |b| < 4 then [] else b[..4])
  }
}
