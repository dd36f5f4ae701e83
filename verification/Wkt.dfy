/** Well-known text: T-SQL lets every point have its own dimensions, PostGIS wants one kind for a whole
    geometry. Points are widened in place on the way in, and narrowed again when they are printed. */
module Wkt {
  datatype Coord = NaN | Num(v: int)

  /** z and m count only when their flag is set. */
  datatype Point = Point(x: Coord, y: Coord, z: Coord, m: Coord, hasZ: bool, hasM: bool)

  datatype Kind = XY | Z | M | ZM

  function KindOf(z: bool, m: bool): Kind { if z && m then ZM else if m then M else if z then Z else XY }

  predicate PresentNaN(p: Point) { (p.hasZ && p.z.NaN?) || (p.hasM && p.m.NaN?) }

  predicate SomeZ(ps: seq<Point>) { exists i :: 0 <= i < |ps| && ps[i].hasZ }
  predicate SomeM(ps: seq<Point>) { exists i :: 0 <= i < |ps| && ps[i].hasM }

  /** The scan meets a NaN before it has seen both kinds of coordinate. */
  predicate NaNMet(ps: seq<Point>) { exists i :: 0 <= i < |ps| && PresentNaN(ps[i]) && !(SomeZ(ps[..i]) && SomeM(ps[..i])) }

  /** A point as a geometry of the given kind holds it. */
  function Widen(p: Point, kind: Kind): Point {
    match kind
    case XY => p
    case ZM => Point(p.x, p.y, if p.hasZ then p.z else NaN, if p.hasM then p.m else NaN, true, true)
    case Z => Point(p.x, p.y, if p.hasZ then p.z else NaN, p.m, true, false)
    case M => Point(p.x, p.y, p.z, if p.hasM then p.m else NaN, false, true)
  }

  function WidenAll(ps: seq<Point>, kind: Kind): seq<Point> { seq(|ps|, i requires 0 <= i < |ps| => Widen(ps[i], kind)) }

  // ---- Growing arrays ----

  class PointArray {
    var points: array<Point>
    var count: nat

    constructor ()
      ensures Valid() && fresh(points) && Contents() == []
    {
      points := new Point[64](_ => Point(NaN, NaN, NaN, NaN, false, false));
      count := 0;
    }

    predicate Valid() reads this { count <= points.Length && points.Length > 0 }

    function Contents(): seq<Point>
      requires Valid()
      reads this, points
    {
      points[..count]
    }

    /** Appends, after doubling the capacity when the array is full. */
    method AddPoint(p: Point)
      requires Valid()
      modifies this, points
      ensures Valid() && Contents() == old(Contents()) + [p] && (points == old(points) || fresh(points))
    {
      if count >= points.Length {
        var full := points;
        var bigger := new Point[2 * full.Length]
          (i requires 0 <= i reads full => if i < full.Length then full[i] else Point(NaN, NaN, NaN, NaN, false, false));
        points := bigger;
        assert points[..count] == old(points[..count]);
      }
      points[count] := p;
      count := count + 1;
      assert points[..count] == old(points[..count]) + [p];
    }

    /** The kind that covers all points; a NaN in a present coordinate is an error, unless the scan has
        stopped before it. */
    method Determine() returns (ok: bool, kind: Kind)
      requires Valid()
      ensures ok <==> !NaNMet(Contents())
      ensures ok ==> kind == KindOf(SomeZ(Contents()), SomeM(Contents()))
    {
      ghost var ps := Contents();
      var z, m := false, false;
      var i := 0;
      while i < count
        invariant 0 <= i <= count && ps == Contents() && z == SomeZ(ps[..i]) && m == SomeM(ps[..i]) && !(z && m)
        invariant forall j :: 0 <= j < i ==> !PresentNaN(ps[j])
      {
        var p := points[i];
        assert p == ps[i];
        if (p.hasZ && p.z.NaN?) || (p.hasM && p.m.NaN?) {
          assert PresentNaN(ps[i]);
          return false, XY;
        }
        SomeNext(ps, i);
        if p.hasZ { z := true; }
        if p.hasM { m := true; }
        if z && m {
          Stopped(ps, i + 1);
          return true, ZM;
        }
        i := i + 1;
      }
      assert ps[..count] == ps;
      kind := KindOf(z, m);
      ok := true;
    }

    /** Widens every point in place. */
    method Transform(kind: Kind)
      requires Valid()
      modifies points
      ensures Valid() && Contents() == WidenAll(old(Contents()), kind)
    {
      ghost var ps := Contents();
      if kind == XY {
        assert Contents() == WidenAll(ps, kind);
        return;
      }
      var i := 0;
      while i < count
        invariant 0 <= i <= count && Valid() && |ps| == count
        invariant forall j :: 0 <= j < i ==> points[j] == Widen(ps[j], kind)
        invariant forall j :: i <= j < count ==> points[j] == ps[j]
      {
        var p := points[i];
        match kind {
          case ZM =>
            var z := if p.hasZ then p.z else NaN;
            var m := if p.hasM then p.m else NaN;
            points[i] := p.(z := z, m := m, hasZ := true, hasM := true);
          case Z =>
            var z := if p.hasZ then p.z else NaN;
            points[i] := p.(z := z, hasZ := true, hasM := false);
          case M =>
            var m := if p.hasM then p.m else NaN;
            points[i] := p.(m := m, hasZ := false, hasM := true);
          case XY =>
        }
        i := i + 1;
      }
    }
  }

  lemma {:induction false} SomeNext(ps: seq<Point>, i: nat)
    requires i < |ps|
    ensures SomeZ(ps[..i + 1]) == (SomeZ(ps[..i]) || ps[i].hasZ) && SomeM(ps[..i + 1]) == (SomeM(ps[..i]) || ps[i].hasM)
  {
    assert ps[..i + 1] == ps[..i] + [ps[i]];
    if SomeZ(ps[..i]) {
      var j :| 0 <= j < i && ps[..i][j].hasZ;
      assert ps[..i + 1][j].hasZ;
    }
    if SomeM(ps[..i]) {
      var j :| 0 <= j < i && ps[..i][j].hasM;
      assert ps[..i + 1][j].hasM;
    }
    assert ps[..i + 1][i] == ps[i];
  }

  lemma {:induction false} SomeGrows(ps: seq<Point>, i: nat, k: nat)
    requires i <= k <= |ps|
    ensures SomeZ(ps[..i]) ==> SomeZ(ps[..k])
    ensures SomeM(ps[..i]) ==> SomeM(ps[..k])
  {
    if SomeZ(ps[..i]) {
      var j :| 0 <= j < i && ps[..i][j].hasZ;
      assert ps[..k][j].hasZ;
    }
    if SomeM(ps[..i]) {
      var j :| 0 <= j < i && ps[..i][j].hasM;
      assert ps[..k][j].hasM;
    }
  }

  /** Once both kinds have been seen, what follows no longer matters. */
  lemma {:induction false} Stopped(ps: seq<Point>, i: nat)
    requires i <= |ps| && SomeZ(ps[..i]) && SomeM(ps[..i]) && forall j :: 0 <= j < i ==> !PresentNaN(ps[j])
    ensures !NaNMet(ps) && SomeZ(ps) && SomeM(ps)
  {
    assert ps[..|ps|] == ps;
    SomeGrows(ps, i, |ps|);
    forall k | 0 <= k < |ps| && PresentNaN(ps[k]) ensures SomeZ(ps[..k]) && SomeM(ps[..k]) { SomeGrows(ps, i, k); }
  }

  // ---- Rings ----

  ghost predicate Apart(rings: seq<PointArray>)
    reads rings
  {
    (forall i :: 0 <= i < |rings| ==> rings[i].Valid()) &&
    forall i, j :: 0 <= i < j < |rings| ==> rings[i] != rings[j] && rings[i].points != rings[j].points
  }

  ghost function Arrays(rings: seq<PointArray>): set<object>
    reads rings
  {
    set i | 0 <= i < |rings| :: rings[i].points
  }

  /** Some ring has a coordinate of the kind. */
  ghost predicate AnyZ(rings: seq<seq<Point>>) { exists i :: 0 <= i < |rings| && SomeZ(rings[i]) }
  ghost predicate AnyM(rings: seq<seq<Point>>) { exists i :: 0 <= i < |rings| && SomeM(rings[i]) }

  /** What the rings hold. */
  ghost predicate Hold(rings: seq<PointArray>, all: seq<seq<Point>>)
    requires Apart(rings)
    reads rings, Arrays(rings)
  {
    |all| == |rings| && forall i :: 0 <= i < |rings| ==> rings[i].Contents() == all[i]
  }

  /** Some ring's scan meets a NaN, and the rings before it do not have both kinds of coordinate. */
  ghost predicate NaNMetIn(rings: seq<seq<Point>>) {
    exists i :: 0 <= i < |rings| && NaNMet(rings[i]) && !(AnyZ(rings[..i]) && AnyM(rings[..i]))
  }

  lemma {:induction false} AnyNone(rings: seq<seq<Point>>)
    ensures !AnyZ(rings[..0]) && !AnyM(rings[..0])
  {
  }

  lemma {:induction false} AnyNext(rings: seq<seq<Point>>, i: nat)
    requires i < |rings|
    ensures AnyZ(rings[..i + 1]) == (AnyZ(rings[..i]) || SomeZ(rings[i])) && AnyM(rings[..i + 1]) == (AnyM(rings[..i]) || SomeM(rings[i]))
  {
    hide SomeZ, SomeM;
    assert rings[..i + 1] == rings[..i] + [rings[i]];
    if AnyZ(rings[..i]) {
      var j :| 0 <= j < i && SomeZ(rings[..i][j]);
      assert SomeZ(rings[..i + 1][j]);
    }
    if AnyM(rings[..i]) {
      var j :| 0 <= j < i && SomeM(rings[..i][j]);
      assert SomeM(rings[..i + 1][j]);
    }
    assert rings[..i + 1][i] == rings[i];
  }

  lemma {:induction false} AnyGrows(rings: seq<seq<Point>>, i: nat, k: nat)
    requires i <= k <= |rings|
    ensures AnyZ(rings[..i]) ==> AnyZ(rings[..k])
    ensures AnyM(rings[..i]) ==> AnyM(rings[..k])
  {
    hide SomeZ, SomeM;
    if AnyZ(rings[..i]) {
      var j :| 0 <= j < i && SomeZ(rings[..i][j]);
      assert SomeZ(rings[..k][j]);
    }
    if AnyM(rings[..i]) {
      var j :| 0 <= j < i && SomeM(rings[..i][j]);
      assert SomeM(rings[..k][j]);
    }
  }

  /** Once both kinds have been seen, the rings that follow no longer matter. */
  lemma {:induction false} RingsStopped(rings: seq<seq<Point>>, i: nat)
    requires i <= |rings| && AnyZ(rings[..i]) && AnyM(rings[..i]) && forall j :: 0 <= j < i ==> !NaNMet(rings[j])
    ensures !NaNMetIn(rings) && AnyZ(rings) && AnyM(rings)
  {
    hide AnyZ, AnyM, NaNMet;
    assert rings[..|rings|] == rings;
    AnyGrows(rings, i, |rings|);
    forall k | 0 <= k < |rings| && NaNMet(rings[k]) ensures AnyZ(rings[..k]) && AnyM(rings[..k]) { AnyGrows(rings, i, k); }
  }

  /** The kind that covers all rings; an error exactly when the scan meets a NaN before it stops. */
  method DetermineRings(rings: seq<PointArray>, ghost all: seq<seq<Point>>) returns (ok: bool, kind: Kind)
    requires Apart(rings) && Hold(rings, all)
    ensures ok <==> !NaNMetIn(all)
    ensures ok ==> kind == KindOf(AnyZ(all), AnyM(all))
  {
    hide NaNMet, SomeZ, SomeM, AnyZ, AnyM, Arrays;
    var z, m := false, false;
    var i := 0;
    AnyNone(all);
    while i < |rings|
      invariant 0 <= i <= |rings| && !(z && m) && z == AnyZ(all[..i]) && m == AnyM(all[..i])
      invariant forall j :: 0 <= j < i ==> !NaNMet(all[j])
    {
      var k;
      ok, k := rings[i].Determine();
      if !ok { return false, XY; }
      AnyNext(all, i);
      assert k == KindOf(SomeZ(all[i]), SomeM(all[i]));
      if k == Z { z := true; }
      if k == M { m := true; }
      if k == ZM || (z && m) {
        RingsStopped(all, i + 1);
        return true, ZM;
      }
      i := i + 1;
    }
    assert all[..|all|] == all;
    ok, kind := true, KindOf(z, m);
  }

  method TransformRings(rings: seq<PointArray>, kind: Kind)
    requires Apart(rings)
    modifies Arrays(rings)
    ensures Apart(rings) && forall i :: 0 <= i < |rings| ==> rings[i].Contents() == WidenAll(old(rings[i].Contents()), kind)
  {
    hide WidenAll;
    var i := 0;
    while i < |rings|
      invariant 0 <= i <= |rings| && Apart(rings)
      invariant forall j :: 0 <= j < i ==> rings[j].Contents() == WidenAll(old(rings[j].Contents()), kind)
      invariant forall j :: i <= j < |rings| ==> rings[j].Contents() == old(rings[j].Contents())
    {
      rings[i].Transform(kind);
      i := i + 1;
    }
  }

  // ---- What unification means ----

  predicate Covers(kind: Kind, p: Point) { (p.hasZ ==> kind.Z? || kind.ZM?) && (p.hasM ==> kind.M? || kind.ZM?) }

  /** Every point gets exactly the flags of the kind, and keeps every coordinate it had. */
  lemma {:induction false} WidenKeeps(p: Point, kind: Kind)
    requires Covers(kind, p)
    ensures var w := Widen(p, kind);
            w.hasZ == (kind.Z? || kind.ZM?) && w.hasM == (kind.M? || kind.ZM?) && w.x == p.x && w.y == p.y &&
            (p.hasZ ==> w.z == p.z) && (p.hasM ==> w.m == p.m) && (w.hasZ && !p.hasZ ==> w.z.NaN?) && (w.hasM && !p.hasM ==> w.m.NaN?)
  {
  }

  /** The kind of all rings covers each of their points. */
  lemma {:induction false} KindCovers(rings: seq<seq<Point>>, i: nat, j: nat)
    requires i < |rings| && j < |rings[i]|
    ensures Covers(KindOf(AnyZ(rings), AnyM(rings)), rings[i][j])
  {
    if rings[i][j].hasZ { assert SomeZ(rings[i]); }
    if rings[i][j].hasM { assert SomeM(rings[i]); }
  }

  // ---- Printing ----

  datatype Token = Text(c: Coord) | Null

  /** A point as T-SQL writes it: its own coordinates, NULL in place of a missing Z before M. */
  function TsqlText(p: Point): seq<Token> {
    [Text(p.x), Text(p.y)] +
    (if p.hasZ then [Text(p.z)] else if p.hasM then [Null] else []) + (if p.hasM then [Text(p.m)] else [])
  }

  /** X and Y come first, then Z or NULL in its place, then M. */
  lemma {:induction false} TokensAre(p: Point)
    ensures var t := TsqlText(p);
            |t| == (if p.hasM then 4 else if p.hasZ then 3 else 2) && t[0] == Text(p.x) && t[1] == Text(p.y) &&
            (p.hasZ ==> t[2] == Text(p.z)) && (p.hasM && !p.hasZ ==> t[2] == Null) && (p.hasM ==> t[3] == Text(p.m))
  {
  }

  /** A point that came back from PostGIS, printed for T-SQL. */
  method FormatForTsql(p: Point) returns (out: seq<Token>)
    ensures out == Narrowed(p)
  {
    out := [Text(p.x), Text(p.y)];
    if p.hasZ && p.hasM {
      if !p.z.NaN? && !p.m.NaN? {
        out := out + [Text(p.z), Text(p.m)];
      } else if !p.z.NaN? {
        out := out + [Text(p.z)];
      } else if !p.m.NaN? {
        out := out + [Null, Text(p.m)];
      }
    } else if p.hasZ && !p.z.NaN? {
      out := out + [Text(p.z)];
    } else if p.hasM && !p.m.NaN? {
      out := out + [Null, Text(p.m)];
    }
  }

  /** A NaN counts as missing. */
  function Narrowed(p: Point): seq<Token> { TsqlText(p.(hasZ := p.hasZ && !p.z.NaN?, hasM := p.hasM && !p.m.NaN?)) }

  /** Widening and printing gives what the original point says, whatever the kind of the geometry, exactly
      when the point has no NaN of its own. */
  lemma {:induction false} PrintedAsWritten(p: Point, kind: Kind)
    requires Covers(kind, p)
    ensures Narrowed(Widen(p, kind)) == TsqlText(p) <==> !PresentNaN(p)
  {
    var text, printed := TsqlText(p), Narrowed(Widen(p, kind));
    if p.hasZ && p.z.NaN? {
      assert text[2] == Text(NaN);
      assert |printed| > 2 ==> printed[2] == Null;
    } else if p.hasM && p.m.NaN? {
      assert |text| == 4 && |printed| < 4;
    }
  }

  /** All rings of a geometry. Unless a NaN is met, every point has the same flags afterwards, and prints
      as it was written exactly when it has no NaN of its own. */
  method Unify(rings: seq<PointArray>, ghost all: seq<seq<Point>>) returns (ok: bool, kind: Kind)
    requires Apart(rings) && Hold(rings, all)
    modifies Arrays(rings)
    ensures ok <==> !NaNMetIn(all)
    ensures Apart(rings) && forall i :: 0 <= i < |rings| ==> |rings[i].Contents()| == |all[i]|
    ensures !ok ==> forall i :: 0 <= i < |rings| ==> rings[i].Contents() == all[i]
    ensures ok ==> forall i, j :: 0 <= i < |rings| && 0 <= j < |all[i]| ==>
      var p := rings[i].Contents()[j];
      p.hasZ == AnyZ(all) && p.hasM == AnyM(all) && (Narrowed(p) == TsqlText(all[i][j]) <==> !PresentNaN(all[i][j]))
  {
    ok, kind := DetermineRings(rings, all);
    if !ok { return; }
    TransformRings(rings, kind);
    forall i, j | 0 <= i < |rings| && 0 <= j < |all[i]|
      ensures var p := rings[i].Contents()[j];
              p.hasZ == AnyZ(all) && p.hasM == AnyM(all) && (Narrowed(p) == TsqlText(all[i][j]) <==> !PresentNaN(all[i][j]))
    {
      KindCovers(all, i, j);
      hide AnyZ, AnyM, Narrowed, TsqlText, PresentNaN;
      WidenKeeps(all[i][j], kind);
      PrintedAsWritten(all[i][j], kind);
    }
  }

  const FULL := Point(Num(0), Num(0), Num(1), Num(2), true, true)
  const BAD := Point(Num(0), Num(0), NaN, Num(2), true, true)

  /** A NaN behind the point where the scan stops goes unnoticed, and is printed as missing. */
  lemma NaNUnnoticed()
    ensures PresentNaN(BAD) && !NaNMet([FULL, BAD]) && Narrowed(Widen(BAD, ZM)) != TsqlText(BAD)
  {
    assert [FULL, BAD][..1] == [FULL];
    assert [FULL][0].hasZ && [FULL][0].hasM;
    PrintedAsWritten(BAD, ZM);
  }

  /** The same across rings: a ring that is an error by itself is accepted behind one that has both kinds. */
  lemma RingUnnoticed()
    ensures NaNMet([BAD]) && NaNMetIn([[BAD]]) && !NaNMetIn([[FULL], [BAD]])
  {
    assert PresentNaN([BAD][0]) && [BAD][..0] == [];
    assert NaNMet([[BAD]][0]) && [[BAD]][..0] == [];
    assert [[FULL], [BAD]][..1] == [[FULL]];
    assert [FULL][0].hasZ && [FULL][0].hasM;
    assert SomeZ([[FULL]][0]) && SomeM([[FULL]][0]);
    assert !NaNMet([FULL]);
  }
}
