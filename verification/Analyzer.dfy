/** The static check of control flow: one walk that records scopes and labels, and a pass over the
    collected GOTO statements. */
module Analyzer {
  import opened Control
  import opened Layout

  datatype Reason =
    | LabelNotUnique(name: string)
    | OutsideLoop(isBreak: bool)
    | NoSuchLabel(name: string)
    | IntoTryCatch(name: string)
    | IntoLoop(name: string)

  datatype Verdict = Accept | Reject(reason: Reason)

  function Elements(gotos: seq<Jump>): set<Jump> { set g | g in gotos }

  /** dst is a prefix of src. */
  method CheckTryCatch(src: seq<Arm>, dst: seq<Arm>) returns (ok: bool)
    ensures ok <==> dst <= src
  {
    if |src| < |dst| { return false; }
    var i := 0;
    while i < |src| && i < |dst|
      invariant 0 <= i <= |dst|
      invariant forall j :: 0 <= j < i ==> src[j] == dst[j]
    {
      if src[i].id != dst[i].id || src[i].inTry != dst[i].inTry { return false; }
      i := i + 1;
    }
    return true;
  }

  method CheckLoop(src: seq<int>, dst: seq<int>) returns (ok: bool)
    ensures ok <==> dst <= src
  {
    if |src| < |dst| { return false; }
    var i := 0;
    while i < |src| && i < |dst|
      invariant 0 <= i <= |dst|
      invariant forall j :: 0 <= j < i ==> src[j] == dst[j]
    {
      if src[i] != dst[i] { return false; }
      i := i + 1;
    }
    return true;
  }

  /** The walk has no objection to s, given the labels already seen. */
  predicate Fine(s: Stmt, inLoop: bool, seen: set<string>) {
    ExitsOk(s, inLoop) && DistinctNames(s) && Names(s) !! seen
  }

  /** What the walk blames is there. */
  predicate Justified(v: Verdict, s: Stmt, inLoop: bool, seen: set<string>) {
    match v
    case Accept => true
    case Reject(OutsideLoop(_)) => !ExitsOk(s, inLoop)
    case Reject(LabelNotUnique(name)) => name in Names(s) && (name in seen || !DistinctNames(s))
    case _ => false
  }

  /** From one table and set of jumps to another: what walking s contributes. */
  ghost predicate Gained(tab: Table, gotos: set<Jump>, s: Stmt, sc: Scope, tab': Table, gotos': set<Jump>) {
    Scoped(s, sc, tab') && tab'.Extends(tab) && gotos' == gotos + Gotos(s) &&
    tab'.labels.Keys == tab.labels.Keys + Names(s) && tab'.scopes.Keys <= tab.scopes.Keys + Ids(s)
  }

  predicate LeadsIntoTry(g: Jump, tab: Table) {
    g.target in tab.labels && g.id in tab.scopes && tab.labels[g.target] in tab.scopes &&
    !(tab.scopes[tab.labels[g.target]].arms <= tab.scopes[g.id].arms)
  }

  predicate LeadsIntoLoop(g: Jump, tab: Table) {
    g.target in tab.labels && g.id in tab.scopes && tab.labels[g.target] in tab.scopes &&
    !(tab.scopes[tab.labels[g.target]].loops <= tab.scopes[g.id].loops)
  }

  lemma {:induction false} FineTwo(s: Stmt, a: Stmt, b: Stmt, inLoop: bool, seen: set<string>)
    requires s == Then(a, b) || (s.IfElse? && s.thn == a && s.els == b) || (s.TryCatch? && s.body == a && s.handler == b)
    ensures Fine(s, inLoop, seen) <==> Fine(a, inLoop, seen) && Fine(b, inLoop, seen + Names(a))
    ensures forall v :: Justified(v, a, inLoop, seen) || Justified(v, b, inLoop, seen + Names(a)) ==> Justified(v, s, inLoop, seen)
  {
  }

  lemma {:induction false} FreshTwo(s: Stmt, a: Stmt, b: Stmt, keys: set<int>, keys': set<int>)
    requires s == Then(a, b) || (s.IfElse? && s.thn == a && s.els == b) || (s.TryCatch? && s.body == a && s.handler == b)
    requires DistinctIds(s) && Ids(s) !! keys
    ensures DistinctIds(a) && DistinctIds(b) && Ids(a) !! keys
    ensures keys' <= keys + Ids(a) ==> Ids(b) !! keys'
  {
  }

  /** s in scope sc consists of a and b in theirs. */
  predicate TwoIn(s: Stmt, sc: Scope, a: Stmt, scA: Scope, b: Stmt, scB: Scope) {
    ((s == Then(a, b) || (s.IfElse? && s.thn == a && s.els == b)) && scA == scB == sc) ||
    (s.TryCatch? && s.body == a && s.handler == b && scA == sc.Within(Arm(s.id, true)) && scB == sc.Within(Arm(s.id, false)))
  }

  lemma {:induction false} AreTwo(s: Stmt, sc: Scope, a: Stmt, b: Stmt)
    ensures s == Then(a, b) || (s.IfElse? && s.thn == a && s.els == b) ==> TwoIn(s, sc, a, sc, b, sc)
    ensures s.TryCatch? ==> TwoIn(s, sc, s.body, sc.Within(Arm(s.id, true)), s.handler, sc.Within(Arm(s.id, false)))
  {
  }

  lemma {:induction false} TwoOf(s: Stmt, sc: Scope, a: Stmt, scA: Scope, b: Stmt, scB: Scope)
    requires TwoIn(s, sc, a, scA, b, scB)
    ensures s == Then(a, b) || (s.IfElse? && s.thn == a && s.els == b) || (s.TryCatch? && s.body == a && s.handler == b)
  {
  }

  lemma {:induction false} TwoContain(s: Stmt, a: Stmt, b: Stmt)
    requires s == Then(a, b) || (s.IfElse? && s.thn == a && s.els == b) || (s.TryCatch? && s.body == a && s.handler == b)
    ensures Gotos(s) == Gotos(a) + Gotos(b) && Names(s) == Names(a) + Names(b) && Ids(a) + Ids(b) <= Ids(s)
  {
    match s
    case Then(_, _) =>
    case IfElse(_, _, _, _) =>
    case TryCatch(_, _, _) =>
  }

  lemma {:induction false} TwoScoped(s: Stmt, sc: Scope, a: Stmt, scA: Scope, b: Stmt, scB: Scope, tab: Table)
    requires TwoIn(s, sc, a, scA, b, scB)
    ensures Scoped(s, sc, tab) == (Scoped(a, scA, tab) && Scoped(b, scB, tab))
  {
    hide Scoped;
    if s.Then? { ScopedThen(a, b, sc, tab); } else if s.IfElse? { ScopedBranches(s, sc, tab); } else { ScopedTry(s, sc, tab); }
  }

  lemma {:induction false} GainedTwo(tab: Table, gotos: set<Jump>, s: Stmt, sc: Scope, a: Stmt, scA: Scope, b: Stmt, scB: Scope,
                                     tab1: Table, gotos1: set<Jump>, tab2: Table, gotos2: set<Jump>)
    requires TwoIn(s, sc, a, scA, b, scB)
    requires Gained(tab, gotos, a, scA, tab1, gotos1) && Gained(tab1, gotos1, b, scB, tab2, gotos2)
    ensures Gained(tab, gotos, s, sc, tab2, gotos2)
  {
    hide *;
    GainedIs(tab, gotos, a, scA, tab1, gotos1);
    GainedIs(tab1, gotos1, b, scB, tab2, gotos2);
    GainedIs(tab, gotos, s, sc, tab2, gotos2);
    TwoOf(s, sc, a, scA, b, scB);
    TwoContain(s, a, b);
    ScopedExtends(a, scA, tab1, tab2);
    TwoScoped(s, sc, a, scA, b, scB, tab2);
    ExtendsTwo(tab, tab1, tab2);
    UnionTwo(gotos, gotos1, gotos2, Gotos(a), Gotos(b));
    UnionTwo(tab.labels.Keys, tab1.labels.Keys, tab2.labels.Keys, Names(a), Names(b));
    WithinTwo(tab.scopes.Keys, tab1.scopes.Keys, tab2.scopes.Keys, Ids(a), Ids(b), Ids(s));
  }

  lemma {:induction false} GainedIs(tab: Table, gotos: set<Jump>, s: Stmt, sc: Scope, tab': Table, gotos': set<Jump>)
    ensures Gained(tab, gotos, s, sc, tab', gotos') ==
            (Scoped(s, sc, tab') && tab'.Extends(tab) && gotos' == gotos + Gotos(s) &&
             tab'.labels.Keys == tab.labels.Keys + Names(s) && tab'.scopes.Keys <= tab.scopes.Keys + Ids(s))
  {
  }

  lemma {:induction false} UnionTwo<T>(x: set<T>, x1: set<T>, x2: set<T>, a: set<T>, b: set<T>)
    requires x1 == x + a && x2 == x1 + b
    ensures x2 == x + (a + b)
  {
  }

  lemma {:induction false} WithinTwo<T>(x: set<T>, x1: set<T>, x2: set<T>, a: set<T>, b: set<T>, s: set<T>)
    requires x1 <= x + a && x2 <= x1 + b && a + b <= s
    ensures x2 <= x + s
  {
  }

  lemma {:induction false} ExtendsTwo(tab: Table, tab1: Table, tab2: Table)
    requires tab1.Extends(tab) && tab2.Extends(tab1)
    ensures tab2.Extends(tab)
  {
  }

  lemma {:induction false} GainedKeys(tab: Table, gotos: set<Jump>, s: Stmt, sc: Scope, tab': Table, gotos': set<Jump>)
    requires Gained(tab, gotos, s, sc, tab', gotos')
    ensures tab'.labels.Keys == tab.labels.Keys + Names(s) && tab'.scopes.Keys <= tab.scopes.Keys + Ids(s)
  {
  }

  lemma {:induction false} WithinIs(sc: Scope, inTry: Scope, inCatch: Scope, id: int)
    requires inTry.loops == sc.loops && inCatch.loops == sc.loops
    requires inTry.arms == sc.arms + [Arm(id, true)] && inCatch.arms == inTry.arms[|sc.arms| := Arm(id, false)]
    ensures inTry == sc.Within(Arm(id, true)) && inCatch == sc.Within(Arm(id, false))
  {
    assert inCatch.arms == sc.arms + [Arm(id, false)];
  }

  class Analyzer {
    var arms: seq<Arm>
    var loops: seq<int>
    var gotos: seq<Jump>
    var scopes: map<int, Scope>
    var labels: map<string, int>

    constructor ()
      ensures arms == [] && loops == [] && gotos == [] && scopes == map[] && labels == map[]
    {
      arms, loops, gotos, scopes, labels := [], [], [], map[], map[];
    }

    function Here(): Scope reads this { Scope(arms, loops) }

    function Tab(): Table reads this { Table(scopes, labels) }

    method SaveScope(id: int)
      modifies this`scopes
      ensures scopes == old(scopes)[id := Here()]
    {
      scopes := scopes[id := Scope(arms, loops)];
    }

    method Walk(s: Stmt) returns (v: Verdict)
      requires DistinctIds(s) && Ids(s) !! scopes.Keys
      modifies this
      ensures v.Accept? <==> Fine(s, |old(loops)| > 0, old(labels.Keys))
      ensures Justified(v, s, |old(loops)| > 0, old(labels.Keys))
      ensures v.Accept? ==> arms == old(arms) && loops == old(loops)
      ensures v.Accept? ==> Gained(old(Tab()), old(Elements(gotos)), s, Here(), Tab(), Elements(gotos))
      decreases s, 1
    {
      match s {
        case Then(a, b) => v := WalkTwo(s, a, b);
        case If(_, _, thn) => v := Walk(thn);
        case IfElse(_, _, thn, els) => v := WalkTwo(s, thn, els);
        case While(id, _, body) => v := WalkWhile(s);
        case TryCatch(id, body, handler) => v := WalkTry(s);
        case _ => v := WalkLeaf(s);
      }
    }

    method WalkLeaf(s: Stmt) returns (v: Verdict)
      requires s.Skip? || s.Basic? || s.Exit? || s.Return? || s.Goto? || s.Label?
      requires Ids(s) !! scopes.Keys
      modifies this
      ensures v.Accept? <==> Fine(s, |old(loops)| > 0, old(labels.Keys))
      ensures Justified(v, s, |old(loops)| > 0, old(labels.Keys))
      ensures v.Accept? ==> arms == old(arms) && loops == old(loops)
      ensures v.Accept? ==> Gained(old(Tab()), old(Elements(gotos)), s, Here(), Tab(), Elements(gotos))
    {
      match s {
        case Exit(id, isBreak) =>
          if |loops| == 0 { return Reject(OutsideLoop(isBreak)); }
          SaveScope(id);
        case Return(id, _) => SaveScope(id);
        case Goto(id, target) =>
          SaveScope(id);
          gotos := gotos + [Jump(id, target)];
          assert Elements(gotos) == old(Elements(gotos)) + {Jump(id, target)};
        case Label(id, name) =>
          if name in labels { return Reject(LabelNotUnique(name)); }
          labels := labels[name := id];
          SaveScope(id);
        case _ =>
      }
      return Accept;
    }

    method WalkTwo(s: Stmt, a: Stmt, b: Stmt) returns (v: Verdict)
      requires s == Then(a, b) || (s.IfElse? && s.thn == a && s.els == b)
      requires DistinctIds(s) && Ids(s) !! scopes.Keys
      modifies this
      ensures v.Accept? <==> Fine(s, |old(loops)| > 0, old(labels.Keys))
      ensures Justified(v, s, |old(loops)| > 0, old(labels.Keys))
      ensures v.Accept? ==> arms == old(arms) && loops == old(loops)
      ensures v.Accept? ==> Gained(old(Tab()), old(Elements(gotos)), s, Here(), Tab(), Elements(gotos))
      decreases s, 0
    {
      hide *;
      ghost var tab, jumps := Table(scopes, labels), Elements(gotos);
      ghost var sc := Scope(arms, loops);
      TabIs();
      FineTwo(s, a, b, |loops| > 0, labels.Keys);
      FreshTwo(s, a, b, scopes.Keys, {});
      v := Walk(a);
      if v.Accept? {
        ghost var tab1, jumps1 := Table(scopes, labels), Elements(gotos);
        TabIs();
        GainedKeys(tab, jumps, a, sc, tab1, jumps1);
        FreshTwo(s, a, b, tab.scopes.Keys, scopes.Keys);
        v := Walk(b);
        if v.Accept? {
          TabIs();
          AreTwo(s, sc, a, b);
          GainedTwo(tab, jumps, s, sc, a, sc, b, sc, tab1, jumps1, Table(scopes, labels), Elements(gotos));
        }
      }
    }

    lemma TabIs()
      ensures Tab() == Table(scopes, labels) && Here() == Scope(arms, loops)
    {
    }

    method WalkWhile(s: Stmt) returns (v: Verdict)
      requires s.While? && DistinctIds(s) && Ids(s) !! scopes.Keys
      modifies this
      ensures v.Accept? <==> Fine(s, |old(loops)| > 0, old(labels.Keys))
      ensures Justified(v, s, |old(loops)| > 0, old(labels.Keys))
      ensures v.Accept? ==> arms == old(arms) && loops == old(loops)
      ensures v.Accept? ==> Gained(old(Tab()), old(Elements(gotos)), s, Here(), Tab(), Elements(gotos))
      decreases s, 0
    {
      loops := loops + [s.id];
      SaveScope(s.id);
      v := Walk(s.body);
      loops := if |loops| > 0 then loops[..|loops| - 1] else [];
    }

    method WalkTry(s: Stmt) returns (v: Verdict)
      requires s.TryCatch? && DistinctIds(s) && Ids(s) !! scopes.Keys
      modifies this
      ensures v.Accept? <==> Fine(s, |old(loops)| > 0, old(labels.Keys))
      ensures Justified(v, s, |old(loops)| > 0, old(labels.Keys))
      ensures v.Accept? ==> arms == old(arms) && loops == old(loops)
      ensures v.Accept? ==> Gained(old(Tab()), old(Elements(gotos)), s, Here(), Tab(), Elements(gotos))
      decreases s, 0
    {
      hide *;
      ghost var tab, jumps := Table(scopes, labels), Elements(gotos);
      ghost var sc := Scope(arms, loops);
      TabIs();
      FineTwo(s, s.body, s.handler, |loops| > 0, labels.Keys);
      FreshTwo(s, s.body, s.handler, scopes.Keys, {});
      arms := arms + [Arm(s.id, true)];
      ghost var inTry := Scope(arms, loops);
      TabIs();
      v := Walk(s.body);
      if v.Accept? {
        ghost var tab1, jumps1 := Table(scopes, labels), Elements(gotos);
        TabIs();
        GainedKeys(tab, jumps, s.body, inTry, tab1, jumps1);
        FreshTwo(s, s.body, s.handler, tab.scopes.Keys, scopes.Keys);
        arms := arms[|arms| - 1 := Arm(s.id, false)];
        ghost var inCatch := Scope(arms, loops);
        TabIs();
        v := Walk(s.handler);
        if v.Accept? {
          TabIs();
          WithinIs(sc, inTry, inCatch, s.id);
          AreTwo(s, sc, s.body, s.handler);
          GainedTwo(tab, jumps, s, sc, s.body, inTry, s.handler, inCatch, tab1, jumps1, Table(scopes, labels), Elements(gotos));
          arms := arms[..|arms| - 1];
          assert arms == sc.arms;
          TabIs();
        }
      }
    }

    /** Every collected GOTO has a label, and stands inside everything its label stands inside. */
    method CheckGotos() returns (v: Verdict)
      requires forall g :: g in gotos ==> g.id in scopes
      requires forall name :: name in labels ==> labels[name] in scopes
      ensures v.Accept? <==> forall g :: g in gotos ==> JumpOk(g, Tab())
      ensures v.Reject? ==> v.reason.NoSuchLabel? || v.reason.IntoTryCatch? || v.reason.IntoLoop?
      ensures v.Reject? && v.reason.NoSuchLabel? ==> exists g :: g in gotos && g.target == v.reason.name && g.target !in labels
      ensures v.Reject? && v.reason.IntoTryCatch? ==> exists g :: g in gotos && g.target == v.reason.name && LeadsIntoTry(g, Tab())
      ensures v.Reject? && v.reason.IntoLoop? ==> exists g :: g in gotos && g.target == v.reason.name && LeadsIntoLoop(g, Tab())
    {
      for i := 0 to |gotos|
        invariant forall j :: 0 <= j < i ==> JumpOk(gotos[j], Tab())
      {
        var g := gotos[i];
        if g.target !in labels {
          assert !JumpOk(g, Tab());
          return Reject(NoSuchLabel(g.target));
        }
        var src, dst := scopes[g.id], scopes[labels[g.target]];
        var ok := CheckTryCatch(src.arms, dst.arms);
        if !ok {
          assert LeadsIntoTry(g, Tab());
          return Reject(IntoTryCatch(g.target));
        }
        ok := CheckLoop(src.loops, dst.loops);
        if !ok {
          assert LeadsIntoLoop(g, Tab());
          return Reject(IntoLoop(g.target));
        }
      }
      return Accept;
    }

    /** The whole check accepts exactly the programs whose labels are unique, whose BREAK and CONTINUE
        stand in loops, and whose jumps only lead outwards; and it leaves a right table behind. */
    method Analyze(program: Stmt) returns (v: Verdict)
      requires DistinctIds(program)
      requires arms == [] && loops == [] && gotos == [] && scopes == map[] && labels == map[]
      modifies this
      ensures v.Accept? <==> Accepted(program)
      ensures v.Accept? ==> TableOf(program, Tab()) && JumpsOk(program, Tab())
    {
      v := Walk(program);
      if v.Accept? {
        assert TableOf(program, Tab());
        TablesAgree(program, ROOT, Tab(), Tab());
        VerdictUnique(program, Tab());
        assert forall g :: g in gotos <==> g in Elements(gotos);
        assert Elements(gotos) == Gotos(program);
        assert forall name :: name in labels ==> name in labels.Keys;
        v := CheckGotos();
      }
    }
  }
}