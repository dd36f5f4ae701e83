/** Programs without GOTO as a reader of T-SQL understands them: each statement ends in one of five ways, and
    the way its parts end decides how it does. The continuation semantics says the same of every such program. */
module Structured {
  import opened Control
  import L = Layout

  datatype Way = Ends | Breaks | Continues | Returns(ok: bool) | Throws(err: int, severity: Severity)

  datatype Final = Final(way: Way, trace: Trace) | TooLong

  /** What a statement can see: the error of the nearest CATCH block around it, how many arms are around it,
      and whether the outermost of them is a TRY block. */
  datatype Around = Around(err: int, arms: nat, tryFirst: bool) {
    function InTry(): Around { Around(err, arms + 1, if arms == 0 then true else tryFirst) }
    function InCatch(e: int): Around { Around(e, arms + 1, if arms == 0 then false else tryFirst) }

    /** Such an error is passed over. */
    predicate Passes(severity: Severity, outerTry: bool) {
      severity == Ignorable && !outerTry && (arms == 0 || (arms == 1 && !tryFirst))
    }
  }

  predicate NoGoto(s: Stmt) {
    match s
    case Then(a, b) => NoGoto(a) && NoGoto(b)
    case If(_, _, t) => NoGoto(t)
    case IfElse(_, _, t, e) => NoGoto(t) && NoGoto(e)
    case While(_, _, body) => NoGoto(body)
    case TryCatch(_, body, handler) => NoGoto(body) && NoGoto(handler)
    case Goto(_, _) => false
    case _ => true
  }

  /** How a statement ends, if no loop in it goes round more often than the fuel allows. */
  function Eval(st: Setting, s: Stmt, x: Around, trace: Trace, fuel: nat): Final
    decreases fuel, s, 0
  {
    match s
    case Skip => Final(Ends, trace)
    case Label(_, _) => Final(Ends, trace)
    case Goto(_, _) => Final(Ends, trace)
    case Then(a, b) =>
      var r := Eval(st, a, x, trace, fuel);
      if r.Final? && r.way == Ends then Eval(st, b, x, r.trace, fuel) else r
    case Basic(op) => (
      var ev := Ran(op, x.err);
      var t := trace + [ev];
      match st.oracle(trace, ev)
      case Raised(e, severity) => Final(if x.Passes(severity, st.outerTry) then Ends else Throws(e, severity), t)
      case _ => Final(Ends, t))
    case Return(_, op) => (
      var ev := Ran(op, x.err);
      var t := trace + [ev];
      match st.oracle(trace, ev)
      case Raised(e, severity) => Final(if x.Passes(severity, st.outerTry) then Returns(false) else Throws(e, severity), t)
      case _ => Final(Returns(true), t))
    case If(_, cond, thn) => (
      var ev := Tested(cond, x.err);
      var t := trace + [ev];
      match st.oracle(trace, ev)
      case Success => Eval(st, thn, x, t, fuel)
      case False => Final(Ends, t)
      case Raised(e, severity) => if x.Passes(severity, st.outerTry) then Eval(st, thn, x, t, fuel) else Final(Throws(e, severity), t))
    case IfElse(_, cond, thn, els) => (
      var ev := Tested(cond, x.err);
      var t := trace + [ev];
      match st.oracle(trace, ev)
      case Success => Eval(st, thn, x, t, fuel)
      case False => Eval(st, els, x, t, fuel)
      case Raised(e, severity) => if x.Passes(severity, st.outerTry) then Eval(st, thn, x, t, fuel) else Final(Throws(e, severity), t))
    case While(_, cond, body) => (
      if fuel == 0 then TooLong else
      var ev := Tested(cond, x.err);
      var t := trace + [ev];
      match st.oracle(trace, ev)
      case Success => Again(st, s, x, Eval(st, body, x, t, fuel), fuel)
      case False => Final(Ends, t)
      case Raised(e, severity) =>
        if x.Passes(severity, st.outerTry) then Again(st, s, x, Eval(st, body, x, t, fuel), fuel) else Final(Throws(e, severity), t))
    case Exit(_, isBreak) => Final(if isBreak then Breaks else Continues, trace)
    case TryCatch(_, body, handler) =>
      var r := Eval(st, body, x.InTry(), trace, fuel);
      if r.Final? && r.way.Throws? && r.way.severity != Terminating then Eval(st, handler, x.InCatch(r.way.err), r.trace, fuel) else r
  }

  /** What a loop does when its body has ended. */
  function Again(st: Setting, loop: Stmt, x: Around, r: Final, fuel: nat): Final
    requires fuel > 0
    decreases fuel - 1, loop, 1
  {
    if r.TooLong? then r
    else match r.way
         case Ends => Eval(st, loop, x, r.trace, fuel - 1)
         case Continues => Eval(st, loop, x, r.trace, fuel - 1)
         case Breaks => Final(Ends, r.trace)
         case _ => r
  }

  // ---- Continuations ----

  /** What the arms in a continuation amount to. */
  function AroundOf(st: Setting, k: Cont): Around {
    var frames := Frames(k);
    Around(CurrentError(frames, st.initial), |frames|, |frames| > 0 && frames[0].arm.inTry)
  }

  /** Where the continuation semantics goes on from, when a statement before k has ended. */
  function Landing(way: Way, k: Cont, t: Trace): Config {
    match way
    case Ends => Running(Skip, k, t)
    case Breaks => (match InnerLoop(k) case LoopK(_, k') => Running(Skip, k', t) case _ => Running(Skip, k, t))
    case Continues => (match InnerLoop(k) case LoopK(loop, k') => Running(loop, k', t) case _ => Running(Skip, k, t))
    case Returns(ok) => Halted(ok, t)
    case Throws(e, severity) =>
      if severity.Terminating? then Aborted(e, t) else
      match InnerTry(k)
      case TryK(tc, k') => if tc.TryCatch? then Running(tc.handler, CatchK(tc, e, k'), t) else Aborted(e, t)
      case _ => Aborted(e, t)
  }

  lemma {:induction false} StepsJoin(st: Setting, c: Config, a: nat, b: nat)
    ensures Steps(st, c, a + b) == Steps(st, Steps(st, c, a), b)
    decreases a
  {
    hide Step;
    if a > 0 { StepsJoin(st, Step(st, c), a - 1, b); }
  }

  lemma {:induction false} OneStep(st: Setting, c: Config)
    ensures Steps(st, c, 1) == Step(st, c) && Steps(st, c, 0) == c
  {
    hide Step;
  }

  lemma {:induction false} ArmsInside(st: Setting, s: Stmt, k: Cont, e: int)
    requires s.TryCatch?
    ensures AroundOf(st, TryK(s, k)) == AroundOf(st, k).InTry() && AroundOf(st, CatchK(s, e, k)) == AroundOf(st, k).InCatch(e)
  {
    var frames := Frames(k);
    assert (frames + [Frame(Arm(s.id, true), 0)])[..|frames|] == frames;
  }

  lemma {:induction false} SameArms(st: Setting, s: Stmt, k: Cont)
    ensures AroundOf(st, Seq(s, k)) == AroundOf(st, k) && AroundOf(st, LoopK(s, k)) == AroundOf(st, k) && AroundOf(st, ThenK(s, k)) == AroundOf(st, k)
  {
  }

  /** The executor's test is the one above. */
  lemma {:induction false} RaiseLands(st: Setting, e: int, severity: Severity, k: Cont, t: Trace, resume: Config)
    ensures Raise(st, e, severity, k, t, resume) ==
            if AroundOf(st, k).Passes(severity, st.outerTry) then resume else Landing(Throws(e, severity), k, t)
  {
    hide Frames, CurrentError;
  }

  lemma {:induction false} TestStep(st: Setting, s: Stmt, k: Cont, trace: Trace)
    requires s.If? || s.IfElse? || s.While?
    ensures var x := AroundOf(st, k); var ev := Tested(s.cond, x.err); var t := trace + [ev]; var c := Step(st, Running(s, k, trace));
            match st.oracle(trace, ev)
            case Success => c == Resumed(s, k, t)
            case False => c == Running(if s.IfElse? then s.els else Skip, k, t)
            case Raised(e, severity) => c == if x.Passes(severity, st.outerTry) then Resumed(s, k, t) else Landing(Throws(e, severity), k, t)
  {
    hide Frames, CurrentError, Raise, Landing;
    var ev := Tested(s.cond, AroundOf(st, k).err);
    var t := trace + [ev];
    match st.oracle(trace, ev)
    case Raised(e, severity) => RaiseLands(st, e, severity, k, t, Resumed(s, k, t));
    case _ =>
  }

  lemma {:induction false} RunStep(st: Setting, s: Stmt, k: Cont, trace: Trace)
    requires s.Basic? || s.Return?
    ensures var r := Eval(st, s, AroundOf(st, k), trace, 0); r.Final? && Step(st, Running(s, k, trace)) == Landing(r.way, k, r.trace)
  {
    hide Frames, CurrentError, Raise;
    var ev := Ran(s.op, AroundOf(st, k).err);
    var t := trace + [ev];
    match st.oracle(trace, ev)
    case Raised(e, severity) => RaiseLands(st, e, severity, k, t, Resumed(s, k, t));
    case _ =>
  }

  /** Passing through the continuations of a statement's parts. */
  lemma {:induction false} LandingPasses(way: Way, s: Stmt, k: Cont, t: Trace, e: int)
    requires way != Ends && (way == Breaks || way == Continues ==> InnerLoop(k).LoopK?)
    ensures Landing(way, Seq(s, k), t) == Landing(way, k, t) && Landing(way, ThenK(s, k), t) == Landing(way, k, t)
    ensures Landing(way, CatchK(s, e, k), t) == Landing(way, k, t)
    ensures !(way.Throws? && way.severity != Terminating) ==> Landing(way, TryK(s, k), t) == Landing(way, k, t)
    ensures way != Breaks && way != Continues ==> Landing(way, LoopK(s, k), t) == Landing(way, k, t)
  {
  }

  /** BREAK and CONTINUE do not get out of a statement that has them in loops only. */
  lemma {:induction false} LoopsKeep(st: Setting, s: Stmt, x: Around, trace: Trace, fuel: nat)
    requires L.ExitsOk(s, false)
    ensures var r := Eval(st, s, x, trace, fuel); r.Final? ==> r.way != Breaks && r.way != Continues
    decreases fuel, s
  {
    match s
    case Then(a, b) =>
      LoopsKeep(st, a, x, trace, fuel);
      var r := Eval(st, a, x, trace, fuel);
      if r.Final? && r.way == Ends { LoopsKeep(st, b, x, r.trace, fuel); }
    case If(_, cond, thn) => LoopsKeep(st, thn, x, trace + [Tested(cond, x.err)], fuel);
    case IfElse(_, cond, thn, els) =>
      LoopsKeep(st, thn, x, trace + [Tested(cond, x.err)], fuel);
      LoopsKeep(st, els, x, trace + [Tested(cond, x.err)], fuel);
    case While(_, cond, body) =>
      if fuel > 0 {
        var r := Eval(st, body, x, trace + [Tested(cond, x.err)], fuel);
        if r.Final? { LoopsKeep(st, s, x, r.trace, fuel - 1); }
      }
    case TryCatch(_, body, handler) =>
      LoopsKeep(st, body, x.InTry(), trace, fuel);
      var r := Eval(st, body, x.InTry(), trace, fuel);
      if r.Final? && r.way.Throws? { LoopsKeep(st, handler, x.InCatch(r.way.err), r.trace, fuel); }
    case _ =>
  }

  /** The statement may stand before k: it does not jump, and BREAK and CONTINUE have their loop. */
  predicate Fine(s: Stmt, k: Cont) { NoGoto(s) && L.ExitsOk(s, InnerLoop(k).LoopK?) }

  lemma {:induction false} PartsFine(s: Stmt, k: Cont)
    requires Fine(s, k)
    ensures s.Then? ==> Fine(s.first, Seq(s.rest, k)) && Fine(s.rest, k)
    ensures s.If? ==> Fine(s.thn, k)
    ensures s.IfElse? ==> Fine(s.thn, ThenK(s, k)) && Fine(s.els, k)
    ensures s.While? ==> Fine(s.body, LoopK(s, k))
    ensures s.TryCatch? ==> Fine(s.body, TryK(s, k)) && forall e :: Fine(s.handler, CatchK(s, e, k))
  {
  }

  lemma {:induction false} WayFine(st: Setting, s: Stmt, k: Cont, x: Around, trace: Trace, fuel: nat)
    requires Fine(s, k)
    ensures var r := Eval(st, s, x, trace, fuel); r.Final? && (r.way == Breaks || r.way == Continues) ==> InnerLoop(k).LoopK?
  {
    hide Eval;
    if !InnerLoop(k).LoopK? { LoopsKeep(st, s, x, trace, fuel); }
  }

  /** From c the run reaches c' in some number of steps, n at least. */
  ghost predicate Reaches(st: Setting, c: Config, c': Config, least: nat) { exists n: nat :: n >= least && Steps(st, c, n) == c' }

  lemma {:induction false} Here(st: Setting, c: Config)
    ensures Reaches(st, c, c, 0)
  {
    assert Steps(st, c, 0) == c;
  }

  lemma {:induction false} Go(st: Setting, c: Config, c1: Config, c': Config, least: nat)
    requires Step(st, c) == c1 && Reaches(st, c1, c', least)
    ensures Reaches(st, c, c', least + 1) && Reaches(st, c, c', least)
  {
    hide Step;
    var n: nat :| n >= least && Steps(st, c1, n) == c';
    assert Steps(st, c, n + 1) == c';
  }

  lemma {:induction false} Join(st: Setting, c: Config, c1: Config, c': Config, a: nat, b: nat)
    requires Reaches(st, c, c1, a) && Reaches(st, c1, c', b)
    ensures Reaches(st, c, c', a + b) && Reaches(st, c, c', b)
  {
    hide Step;
    var n: nat :| n >= a && Steps(st, c, n) == c1;
    var m: nat :| m >= b && Steps(st, c1, m) == c';
    StepsJoin(st, c, n, m);
    assert Steps(st, c, n + m) == c';
  }

  // ---- What is evaluated is what runs ----

  lemma {:induction false} LandsThen(st: Setting, s: Stmt, k: Cont, trace: Trace, fuel: nat)
    requires s.Then? && Fine(s, k) && Eval(st, s, AroundOf(st, k), trace, fuel).Final?
    ensures var r := Eval(st, s, AroundOf(st, k), trace, fuel); Reaches(st, Running(s, k, trace), Landing(r.way, k, r.trace), 0)
    decreases fuel, s, 0
  {
    hide Reaches, Fine, AroundOf, Landing, Step, Frames;
    var x, k' := AroundOf(st, k), Seq(s.rest, k);
    var r := Eval(st, s.first, x, trace, fuel);
    StepIn(st, s, k, trace);
    PartsFine(s, k);
    SameArms(st, s.rest, k);
    Lands(st, s.first, k', trace, fuel);
    var mid := Landing(r.way, k', r.trace);
    Go(st, Running(s, k, trace), Running(s.first, k', trace), mid, 0);
    if r.way == Ends {
      Lands(st, s.rest, k, r.trace, fuel);
      var q := Eval(st, s.rest, x, r.trace, fuel);
      SkipOn(st, k', r.trace);
      Go(st, mid, Running(s.rest, k, r.trace), Landing(q.way, k, q.trace), 0);
      Join(st, Running(s, k, trace), mid, Landing(q.way, k, q.trace), 0, 0);
    } else {
      WayFine(st, s.first, k', x, trace, fuel);
      LandingPasses(r.way, s.rest, k, r.trace, 0);
    }
  }

  /** Steps into a statement's first part, and out of a continuation. */
  lemma {:induction false} StepIn(st: Setting, s: Stmt, k: Cont, trace: Trace)
    ensures s.Then? ==> Step(st, Running(s, k, trace)) == Running(s.first, Seq(s.rest, k), trace)
    ensures s.TryCatch? ==> Step(st, Running(s, k, trace)) == Running(s.body, TryK(s, k), trace)
    ensures s.Label? ==> Step(st, Running(s, k, trace)) == Running(Skip, k, trace)
    ensures s.Exit? ==> Step(st, Running(s, k, trace)) == Landing(if s.isBreak then Breaks else Continues, k, trace)
  {
  }

  lemma {:induction false} SkipOn(st: Setting, k: Cont, t: Trace)
    ensures Landing(Ends, k, t) == Running(Skip, k, t)
    ensures k.Seq? ==> Step(st, Running(Skip, k, t)) == Running(k.next, k.k, t)
    ensures k.LoopK? ==> Step(st, Running(Skip, k, t)) == Running(k.loop, k.k, t)
    ensures k.ThenK? || k.TryK? || k.CatchK? ==> Step(st, Running(Skip, k, t)) == Running(Skip, k.k, t)
    ensures k.Stop? ==> Step(st, Running(Skip, k, t)) == Halted(false, t)
  {
  }

  /** A part that lands in its own continuation lands in the one around it. */
  lemma {:induction false} LandsOut(st: Setting, c: Config, way: Way, k': Cont, k: Cont, t: Trace)
    requires Reaches(st, c, Landing(way, k', t), 0) && (k'.ThenK? || k'.CatchK? || k'.TryK?) && k'.k == k
    requires k'.TryK? ==> !(way.Throws? && way.severity != Terminating)
    requires way == Breaks || way == Continues ==> InnerLoop(k).LoopK?
    ensures Reaches(st, c, Landing(way, k, t), 0)
  {
    hide Reaches, Landing, Step;
    if way == Ends {
      SkipOn(st, k', t);
      SkipOn(st, k, t);
      Here(st, Running(Skip, k, t));
      Go(st, Running(Skip, k', t), Running(Skip, k, t), Running(Skip, k, t), 0);
      Join(st, c, Running(Skip, k', t), Running(Skip, k, t), 0, 0);
    } else {
      var s := if k'.ThenK? then k'.branch else k'.tc;
      LandingPasses(way, s, k, t, if k'.CatchK? then k'.err else 0);
    }
  }

  lemma {:induction false} LandsBranch(st: Setting, s: Stmt, k: Cont, trace: Trace, fuel: nat)
    requires (s.If? || s.IfElse?) && Fine(s, k) && Eval(st, s, AroundOf(st, k), trace, fuel).Final?
    ensures var r := Eval(st, s, AroundOf(st, k), trace, fuel); Reaches(st, Running(s, k, trace), Landing(r.way, k, r.trace), 0)
    decreases fuel, s, 0
  {
    hide Reaches, Fine, AroundOf, Landing, Step, Frames;
    var x := AroundOf(st, k);
    var r, ev := Eval(st, s, x, trace, fuel), Tested(s.cond, x.err);
    var t, c := trace + [ev], Running(s, k, trace);
    var out, goal := st.oracle(trace, ev), Landing(r.way, k, r.trace);
    TestStep(st, s, k, trace);
    PartsFine(s, k);
    SameArms(st, s, k);
    if out.Success? || (out.Raised? && x.Passes(out.severity, st.outerTry)) {
      var k' := if s.If? then k else ThenK(s, k);
      Lands(st, s.thn, k', t, fuel);
      if s.IfElse? {
        WayFine(st, s.thn, k', x, t, fuel);
        LandsOut(st, Running(s.thn, k', t), r.way, k', k, r.trace);
      }
      Go(st, c, Running(s.thn, k', t), goal, 0);
    } else if out.False? && s.IfElse? {
      Lands(st, s.els, k, t, fuel);
      Go(st, c, Running(s.els, k, t), goal, 0);
    } else {
      SkipOn(st, k, t);
      Here(st, goal);
      Go(st, c, goal, goal, 0);
    }
  }

  lemma {:induction false} LandsWhile(st: Setting, s: Stmt, k: Cont, trace: Trace, fuel: nat)
    requires s.While? && Fine(s, k) && Eval(st, s, AroundOf(st, k), trace, fuel).Final?
    ensures var r := Eval(st, s, AroundOf(st, k), trace, fuel); Reaches(st, Running(s, k, trace), Landing(r.way, k, r.trace), 0)
    decreases fuel, s, 0
  {
    hide Reaches, Fine, AroundOf, Landing, Step, Frames;
    var x := AroundOf(st, k);
    var r, ev := Eval(st, s, x, trace, fuel), Tested(s.cond, x.err);
    var t, c := trace + [ev], Running(s, k, trace);
    var out, goal := st.oracle(trace, ev), Landing(r.way, k, r.trace);
    TestStep(st, s, k, trace);
    if out.Success? || (out.Raised? && x.Passes(out.severity, st.outerTry)) {
      LandsRound(st, s, k, t, fuel);
      Go(st, c, Running(s.body, LoopK(s, k), t), goal, 0);
    } else {
      SkipOn(st, k, t);
      Here(st, goal);
      Go(st, c, goal, goal, 0);
    }
  }

  /** One round of a loop, and the rounds after it. */
  lemma {:induction false} LandsRound(st: Setting, s: Stmt, k: Cont, t: Trace, fuel: nat)
    requires s.While? && Fine(s, k) && fuel > 0
    requires Again(st, s, AroundOf(st, k), Eval(st, s.body, AroundOf(st, k), t, fuel), fuel).Final?
    ensures var r := Again(st, s, AroundOf(st, k), Eval(st, s.body, AroundOf(st, k), t, fuel), fuel);
            Reaches(st, Running(s.body, LoopK(s, k), t), Landing(r.way, k, r.trace), 0)
    decreases fuel, s.body, 2
  {
    hide Reaches, Fine, AroundOf, Step, Frames, Eval;
    var x, k' := AroundOf(st, k), LoopK(s, k);
    var b := Eval(st, s.body, x, t, fuel);
    PartsFine(s, k);
    SameArms(st, s, k);
    Lands(st, s.body, k', t, fuel);
    var c, mid := Running(s.body, k', t), Landing(b.way, k', b.trace);
    if b.way == Ends || b.way == Continues {
      Lands(st, s, k, b.trace, fuel - 1);
      var q := Eval(st, s, x, b.trace, fuel - 1);
      if b.way == Ends {
        SkipOn(st, k', b.trace);
        Go(st, mid, Running(s, k, b.trace), Landing(q.way, k, q.trace), 0);
      }
      Join(st, c, mid, Landing(q.way, k, q.trace), 0, 0);
    } else if b.way != Breaks {
      LandingPasses(b.way, s, k, b.trace, 0);
    }
  }

  lemma {:induction false} LandsTry(st: Setting, s: Stmt, k: Cont, trace: Trace, fuel: nat)
    requires s.TryCatch? && Fine(s, k) && Eval(st, s, AroundOf(st, k), trace, fuel).Final?
    ensures var r := Eval(st, s, AroundOf(st, k), trace, fuel); Reaches(st, Running(s, k, trace), Landing(r.way, k, r.trace), 0)
    decreases fuel, s, 0
  {
    hide Reaches, Fine, AroundOf, Step, Frames;
    var x, k' := AroundOf(st, k), TryK(s, k);
    var r, b := Eval(st, s, x, trace, fuel), Eval(st, s.body, x.InTry(), trace, fuel);
    var c, c1, mid, goal := Running(s, k, trace), Running(s.body, k', trace), Landing(b.way, k', b.trace), Landing(r.way, k, r.trace);
    StepIn(st, s, k, trace);
    PartsFine(s, k);
    ArmsInside(st, s, k, 0);
    Lands(st, s.body, k', trace, fuel);
    WayFine(st, s.body, k', x.InTry(), trace, fuel);
    if b.way.Throws? && b.way.severity != Terminating {
      var e := b.way.err;
      var h := CatchK(s, e, k);
      ArmsInside(st, s, k, e);
      Lands(st, s.handler, h, b.trace, fuel);
      WayFine(st, s.handler, h, x.InCatch(e), b.trace, fuel);
      LandsOut(st, Running(s.handler, h, b.trace), r.way, h, k, r.trace);
      Join(st, c1, mid, goal, 0, 0);
    } else {
      LandsOut(st, c1, b.way, k', k, b.trace);
    }
    Go(st, c, c1, goal, 0);
  }

  /** However a statement is evaluated to end, the run gets there. */
  lemma {:induction false} Lands(st: Setting, s: Stmt, k: Cont, trace: Trace, fuel: nat)
    requires Fine(s, k) && Eval(st, s, AroundOf(st, k), trace, fuel).Final?
    ensures var r := Eval(st, s, AroundOf(st, k), trace, fuel); Reaches(st, Running(s, k, trace), Landing(r.way, k, r.trace), 0)
    decreases fuel, s, 1
  {
    hide Reaches, AroundOf, Landing, Step, Frames, L.ExitsOk;
    var c := Running(s, k, trace);
    match s {
      case Skip => SkipOn(st, k, trace); Here(st, c);
      case Then(_, _) => LandsThen(st, s, k, trace, fuel);
      case If(_, _, _) => LandsBranch(st, s, k, trace, fuel);
      case IfElse(_, _, _, _) => LandsBranch(st, s, k, trace, fuel);
      case While(_, _, _) => LandsWhile(st, s, k, trace, fuel);
      case TryCatch(_, _, _) => LandsTry(st, s, k, trace, fuel);
      case Goto(_, _) => assert false;
      case _ =>
        StepIn(st, s, k, trace);
        if s.Basic? || s.Return? { RunStep(st, s, k, trace); }
        SkipOn(st, k, trace);
        var r := Eval(st, s, AroundOf(st, k), trace, fuel);
        Here(st, Landing(r.way, k, r.trace));
        Go(st, c, Landing(r.way, k, r.trace), Landing(r.way, k, r.trace), 0);
    }
  }

  // ---- What is not evaluated goes on ----

  /** From c the run is still going after some number of steps, least at least. */
  ghost predicate GoesOn(st: Setting, c: Config, least: nat) { exists n: nat :: n >= least && Steps(st, c, n).Running? }

  lemma {:induction false} GoesOnFrom(st: Setting, c: Config, c': Config, a: nat, b: nat)
    requires Reaches(st, c, c', a) && GoesOn(st, c', b)
    ensures GoesOn(st, c, a + b) && GoesOn(st, c, b)
  {
    hide Step;
    var n: nat :| n >= a && Steps(st, c, n) == c';
    var m: nat :| m >= b && Steps(st, c', m).Running?;
    StepsJoin(st, c, n, m);
    assert Steps(st, c, n + m).Running?;
  }

  lemma {:induction false} GoesOnNow(st: Setting, c: Config)
    requires c.Running?
    ensures GoesOn(st, c, 0)
  {
    assert Steps(st, c, 0).Running?;
  }

  lemma {:induction false} StepReaches(st: Setting, c: Config, c': Config)
    requires Step(st, c) == c'
    ensures Reaches(st, c, c', 1)
  {
    hide Step;
    assert Steps(st, c, 1) == c';
  }

  lemma {:induction false} LastsThen(st: Setting, s: Stmt, k: Cont, trace: Trace, fuel: nat)
    requires s.Then? && Fine(s, k) && Eval(st, s, AroundOf(st, k), trace, fuel).TooLong?
    ensures GoesOn(st, Running(s, k, trace), fuel)
    decreases fuel, s, 0
  {
    hide Reaches, GoesOn, Fine, AroundOf, Landing, Step, Frames;
    var x, k' := AroundOf(st, k), Seq(s.rest, k);
    var r, c, c1 := Eval(st, s.first, x, trace, fuel), Running(s, k, trace), Running(s.first, k', trace);
    StepIn(st, s, k, trace);
    PartsFine(s, k);
    SameArms(st, s.rest, k);
    StepReaches(st, c, c1);
    if r.TooLong? {
      Lasts(st, s.first, k', trace, fuel);
    } else {
      Lands(st, s.first, k', trace, fuel);
      var mid, c2 := Landing(r.way, k', r.trace), Running(s.rest, k, r.trace);
      SkipOn(st, k', r.trace);
      StepReaches(st, mid, c2);
      Lasts(st, s.rest, k, r.trace, fuel);
      GoesOnFrom(st, mid, c2, 1, fuel);
      GoesOnFrom(st, c1, mid, 0, fuel);
    }
    GoesOnFrom(st, c, c1, 1, fuel);
  }

  lemma {:induction false} LastsBranch(st: Setting, s: Stmt, k: Cont, trace: Trace, fuel: nat)
    requires (s.If? || s.IfElse?) && Fine(s, k) && Eval(st, s, AroundOf(st, k), trace, fuel).TooLong?
    ensures GoesOn(st, Running(s, k, trace), fuel)
    decreases fuel, s, 0
  {
    hide Reaches, GoesOn, Fine, AroundOf, Landing, Step, Frames;
    var x := AroundOf(st, k);
    var ev := Tested(s.cond, x.err);
    var t, c, out := trace + [ev], Running(s, k, trace), st.oracle(trace, ev);
    TestStep(st, s, k, trace);
    PartsFine(s, k);
    SameArms(st, s, k);
    var part := if out.False? then s.els else s.thn;
    var k' := if s.If? || out.False? then k else ThenK(s, k);
    Lasts(st, part, k', t, fuel);
    StepReaches(st, c, Running(part, k', t));
    GoesOnFrom(st, c, Running(part, k', t), 1, fuel);
  }

  lemma {:induction false} LastsWhile(st: Setting, s: Stmt, k: Cont, trace: Trace, fuel: nat)
    requires s.While? && Fine(s, k) && Eval(st, s, AroundOf(st, k), trace, fuel).TooLong?
    ensures GoesOn(st, Running(s, k, trace), fuel)
    decreases fuel, s, 0
  {
    hide Reaches, GoesOn, Fine, AroundOf, Landing, Step, Frames;
    var x, k' := AroundOf(st, k), LoopK(s, k);
    var ev, c := Tested(s.cond, x.err), Running(s, k, trace);
    var t := trace + [ev];
    if fuel == 0 {
      GoesOnNow(st, c);
    } else {
      TestStep(st, s, k, trace);
      PartsFine(s, k);
      SameArms(st, s, k);
      var b, c1 := Eval(st, s.body, x, t, fuel), Running(s.body, k', t);
      StepReaches(st, c, c1);
      if b.TooLong? {
        Lasts(st, s.body, k', t, fuel);
        GoesOnFrom(st, c, c1, 1, fuel);
      } else {
        Lands(st, s.body, k', t, fuel);
        Lasts(st, s, k, b.trace, fuel - 1);
        RoundAgain(st, s, k, b);
        var mid, c2 := Landing(b.way, k', b.trace), Running(s, k, b.trace);
        GoesOnFrom(st, mid, c2, 0, fuel - 1);
        GoesOnFrom(st, c1, mid, 0, fuel - 1);
        GoesOnFrom(st, c, c1, 1, fuel - 1);
      }
    }
  }

  /** From the end of a round to the loop itself. */
  lemma {:induction false} RoundAgain(st: Setting, s: Stmt, k: Cont, b: Final)
    requires s.While? && b.Final? && (b.way == Ends || b.way == Continues)
    ensures Reaches(st, Landing(b.way, LoopK(s, k), b.trace), Running(s, k, b.trace), 0)
  {
    hide Reaches, Step;
    var c := Running(s, k, b.trace);
    Here(st, c);
    if b.way == Ends {
      SkipOn(st, LoopK(s, k), b.trace);
      Go(st, Running(Skip, LoopK(s, k), b.trace), c, c, 0);
    }
  }

  lemma {:induction false} LastsTry(st: Setting, s: Stmt, k: Cont, trace: Trace, fuel: nat)
    requires s.TryCatch? && Fine(s, k) && Eval(st, s, AroundOf(st, k), trace, fuel).TooLong?
    ensures GoesOn(st, Running(s, k, trace), fuel)
    decreases fuel, s, 0
  {
    hide Reaches, GoesOn, Fine, AroundOf, Step, Frames;
    var x, k' := AroundOf(st, k), TryK(s, k);
    var b, c, c1 := Eval(st, s.body, x.InTry(), trace, fuel), Running(s, k, trace), Running(s.body, k', trace);
    StepIn(st, s, k, trace);
    PartsFine(s, k);
    ArmsInside(st, s, k, 0);
    StepReaches(st, c, c1);
    if b.TooLong? {
      Lasts(st, s.body, k', trace, fuel);
    } else {
      var e := b.way.err;
      ArmsInside(st, s, k, e);
      Lands(st, s.body, k', trace, fuel);
      Lasts(st, s.handler, CatchK(s, e, k), b.trace, fuel);
      GoesOnFrom(st, c1, Running(s.handler, CatchK(s, e, k), b.trace), 0, fuel);
    }
    GoesOnFrom(st, c, c1, 1, fuel);
  }

  /** A statement that takes more rounds than the fuel allows runs for at least as many steps. */
  lemma {:induction false} Lasts(st: Setting, s: Stmt, k: Cont, trace: Trace, fuel: nat)
    requires Fine(s, k) && Eval(st, s, AroundOf(st, k), trace, fuel).TooLong?
    ensures GoesOn(st, Running(s, k, trace), fuel)
    decreases fuel, s, 1
  {
    hide GoesOn, AroundOf, Landing, Step, Frames, Fine;
    match s
    case Then(_, _) => LastsThen(st, s, k, trace, fuel);
    case If(_, _, _) => LastsBranch(st, s, k, trace, fuel);
    case IfElse(_, _, _, _) => LastsBranch(st, s, k, trace, fuel);
    case While(_, _, _) => LastsWhile(st, s, k, trace, fuel);
    case TryCatch(_, _, _) => LastsTry(st, s, k, trace, fuel);
    case _ =>
  }

  // ---- Whole programs ----

  /** How a program that is not inside anything ends. */
  function Outcome(way: Way, t: Trace): Config {
    match way
    case Returns(ok) => Halted(ok, t)
    case Throws(e, _) => Aborted(e, t)
    case _ => Halted(false, t)
  }

  /** The program is evaluated to end so. */
  ghost predicate Means(st: Setting, c: Config) {
    exists fuel: nat :: MeansWith(st, c, fuel)
  }

  predicate MeansWith(st: Setting, c: Config, fuel: nat) {
    var r := Eval(st, st.program, Around(st.initial, 0, false), [], fuel); r.Final? && c == Outcome(r.way, r.trace)
  }

  lemma {:induction false} EndsSo(st: Setting, fuel: nat)
    requires NoGoto(st.program) && L.ExitsOk(st.program, false) && Eval(st, st.program, Around(st.initial, 0, false), [], fuel).Final?
    ensures var r := Eval(st, st.program, Around(st.initial, 0, false), [], fuel); Reaches(st, Start(st), Outcome(r.way, r.trace), 0)
  {
    hide Eval, Step, Reaches;
    var x := Around(st.initial, 0, false);
    var r := Eval(st, st.program, x, [], fuel);
    assert AroundOf(st, Stop) == x;
    Lands(st, st.program, Stop, [], fuel);
    LoopsKeep(st, st.program, x, [], fuel);
    if r.way == Ends {
      SkipOn(st, Stop, r.trace);
      Here(st, Halted(false, r.trace));
      Go(st, Running(Skip, Stop, r.trace), Halted(false, r.trace), Halted(false, r.trace), 0);
      Join(st, Start(st), Running(Skip, Stop, r.trace), Halted(false, r.trace), 0, 0);
    }
  }

  lemma {:induction false} OneEnd(st: Setting, c: Config, a: nat, b: nat)
    requires !Steps(st, c, a).Running? && a <= b
    ensures Steps(st, c, b) == Steps(st, c, a)
  {
    hide Step;
    StepsJoin(st, c, a, b - a);
    StepStays(st, Steps(st, c, a), b - a);
  }

  /** A program without GOTO halts, or is ended by an error, in the continuation semantics exactly as it is
      evaluated to: with the same result and the same history. */
  lemma {:induction false} Adequate(st: Setting, c: Config)
    requires NoGoto(st.program) && L.ExitsOk(st.program, false) && !c.Running?
    ensures Reaches(st, Start(st), c, 0) <==> Means(st, c)
  {
    hide Eval, Step, Steps, Start, NoGoto, L.ExitsOk, Outcome;
    if Means(st, c) {
      var fuel: nat :| MeansWith(st, c, fuel);
      EndsSo(st, fuel);
    }
    if Reaches(st, Start(st), c, 0) {
      var n: nat :| Steps(st, Start(st), n) == c;
      Evaluated(st, n);
      EndsSo(st, n);
      var r := Eval(st, st.program, Around(st.initial, 0, false), [], n);
      var m: nat :| Steps(st, Start(st), m) == Outcome(r.way, r.trace);
      NotRunning(r.way, r.trace);
      if n <= m { OneEnd(st, Start(st), n, m); } else { OneEnd(st, Start(st), m, n); }
      assert MeansWith(st, c, n);
    }
  }

  lemma {:induction false} ReachesIs(st: Setting, c: Config, c': Config)
    ensures Reaches(st, c, c', 0) <==> exists n: nat :: Steps(st, c, n) == c'
  {
    hide Step;
    if n: nat :| Steps(st, c, n) == c' { assert n >= 0 && Steps(st, c, n) == c'; }
  }

  lemma {:induction false} NotRunning(way: Way, t: Trace)
    ensures !Outcome(way, t).Running?
  {
  }

  /** A run that has ended was short enough to evaluate. */
  lemma {:induction false} Evaluated(st: Setting, n: nat)
    requires NoGoto(st.program) && L.ExitsOk(st.program, false) && !Steps(st, Start(st), n).Running?
    ensures Eval(st, st.program, Around(st.initial, 0, false), [], n).Final?
  {
    hide Eval, Step;
    assert AroundOf(st, Stop) == Around(st.initial, 0, false);
    if Eval(st, st.program, Around(st.initial, 0, false), [], n).TooLong? {
      Lasts(st, st.program, Stop, [], n);
      var m: nat :| m >= n && Steps(st, Start(st), m).Running?;
      OneEnd(st, Start(st), n, m);
    }
  }
}
