/** The executor takes two nested CATCH arms for being inside TRY. Against a step that looks for a TRY arm,
    this module says when single steps and whole runs come out the same. */
module NestedCatch {
  import opened Control
  import L = Layout

  /** The statement raises an ignorable error, and neither an arm around it nor a caller is inside TRY. */
  predicate Ignores(st: Setting, c: Config) {
    c.Running? && EventOf(st, c.s, c.k).Some? && !SomeTryArm(Frames(c.k)) && !st.outerTry &&
    var out := st.oracle(c.trace, EventOf(st, c.s, c.k).value); out.Raised? && out.severity.Ignorable?
  }

  /** The step that ignores such errors, and is the executor's otherwise. */
  function PlainStep(st: Setting, c: Config): Config {
    if Ignores(st, c) then Resumed(c.s, c.k, c.trace + [EventOf(st, c.s, c.k).value]) else Step(st, c)
  }

  function PlainSteps(st: Setting, c: Config, n: nat): Config
    decreases n
  {
    if n == 0 then c else PlainSteps(st, PlainStep(st, c), n - 1)
  }

  // ---- Single steps ----

  /** The executor's test is right for some caller exactly outside two or more nested CATCH arms alone. */
  lemma {:induction false} CountsAsTryExact(frames: seq<Frame>, outerTry: bool)
    ensures CountsAsTry(frames, outerTry) == (SomeTryArm(frames) || outerTry) <==>
            outerTry || SomeTryArm(frames) || |frames| < 2
  {
    if SomeTryArm(frames) && |frames| == 1 { assert frames[0].arm.inTry; }
  }

  /** Some procedure on the call stack counts as being inside TRY. */
  predicate StackCounts(stack: seq<seq<Frame>>) { exists i :: 0 <= i < |stack| && CountsAsTry(stack[i], false) }

  predicate StackHasTry(stack: seq<seq<Frame>>) { exists i :: 0 <= i < |stack| && SomeTryArm(stack[i]) }

  /** The walk over the call stack, from the running procedure to its callers. */
  method PartOfTryCatch(stack: seq<seq<Frame>>) returns (found: bool)
    ensures found <==> StackCounts(stack)
    ensures stack != [] ==> (found <==> CountsAsTry(stack[0], StackCounts(stack[1..])))
  {
    if stack != [] { CallersCount(stack); }
    var cur := 0;
    while cur < |stack|
      invariant 0 <= cur <= |stack| && forall i :: 0 <= i < cur ==> !CountsAsTry(stack[i], false)
    {
      if |stack[cur]| > 1 { return true; }
      if |stack[cur]| == 1 {
        if stack[cur][0].arm.inTry { return true; }
      }
      cur := cur + 1;
    }
    return false;
  }

  lemma {:induction false} CallersCount(stack: seq<seq<Frame>>)
    requires stack != []
    ensures StackCounts(stack) == CountsAsTry(stack[0], StackCounts(stack[1..]))
  {
    if i :| 0 < i < |stack| && CountsAsTry(stack[i], false) { assert CountsAsTry(stack[1..][i - 1], false); }
    if i :| 0 <= i < |stack[1..]| && CountsAsTry(stack[1..][i], false) { assert CountsAsTry(stack[i + 1], false); }
  }

  /** The walk is right exactly when there is a TRY arm, or no procedure is inside two CATCH arms. */
  lemma {:induction false} StackTestExact(stack: seq<seq<Frame>>)
    ensures StackCounts(stack) == StackHasTry(stack) <==> StackHasTry(stack) || forall i :: 0 <= i < |stack| ==> |stack[i]| < 2
  {
    hide SomeTryArm, CountsAsTry;
    forall i | 0 <= i < |stack| ensures CountsAsTry(stack[i], false) <==> SomeTryArm(stack[i]) || |stack[i]| >= 2 {
      CountsIs(stack[i]);
    }
  }

  lemma {:induction false} CountsIs(frames: seq<Frame>)
    ensures CountsAsTry(frames, false) <==> SomeTryArm(frames) || |frames| >= 2
  {
    if SomeTryArm(frames) && |frames| == 1 { assert frames[0].arm.inTry; }
  }

  /** The two steps differ exactly when such an error is raised inside two or more CATCH arms. */
  lemma {:induction false} StepsDiffer(st: Setting, c: Config)
    ensures PlainStep(st, c) != Step(st, c) <==> Ignores(st, c) && |Frames(c.k)| >= 2
    ensures Ignores(st, c) && |Frames(c.k)| >= 2 ==> Step(st, c).Aborted? && !PlainStep(st, c).Aborted?
  {
    if Ignores(st, c) {
      var ev := EventOf(st, c.s, c.k).value;
      var out := st.oracle(c.trace, ev);
      CountsAsTryExact(Frames(c.k), false);
      StepRaises(st, c, ev, out.err);
      if InnerTry(c.k).TryK? && InnerTry(c.k).tc.TryCatch? { TryArmFound(c.k); }
    }
  }

  lemma {:induction false} StepRaises(st: Setting, c: Config, ev: Event, e: int)
    requires Ignores(st, c) && ev == EventOf(st, c.s, c.k).value && e == st.oracle(c.trace, ev).err
    ensures var trace := c.trace + [ev]; Step(st, c) == Raise(st, e, Ignorable, c.k, trace, Resumed(c.s, c.k, trace))
  {
    hide SomeTryArm, Frames, CurrentError, Raise;
  }

  lemma {:induction false} TryArmFound(k: Cont)
    requires InnerTry(k).TryK? && InnerTry(k).tc.TryCatch?
    ensures SomeTryArm(Frames(k))
    decreases k
  {
    match k
    case Seq(_, k') => TryArmFound(k');
    case LoopK(_, k') => TryArmFound(k');
    case ThenK(_, k') => TryArmFound(k');
    case TryK(_, k') => assert Frames(k)[|Frames(k')|].arm.inTry;
    case CatchK(tc, e, k') =>
      TryArmFound(k');
      if tc.TryCatch? { MoreFrames(Frames(k'), Frame(Arm(tc.id, false), e)); }
  }

  lemma {:induction false} MoreFrames(frames: seq<Frame>, f: Frame)
    requires SomeTryArm(frames)
    ensures SomeTryArm(frames + [f])
  {
    var i :| 0 <= i < |frames| && frames[i].arm.inTry;
    assert (frames + [f])[i].arm.inTry;
  }

  // ---- Whole runs ----

  /** A step at which the executor goes astray. */
  predicate Strays(st: Setting, c: Config) { Ignores(st, c) && |Frames(c.k)| >= 2 }

  lemma {:induction false} PlainSnoc(st: Setting, c: Config, n: nat)
    ensures PlainSteps(st, c, n + 1) == PlainStep(st, PlainSteps(st, c, n))
    decreases n
  {
    hide PlainStep;
    if n > 0 { PlainSnoc(st, PlainStep(st, c), n - 1); }
  }

  /** As long as no step strays, the runs are the same. */
  lemma {:induction false} AgreeUpTo(st: Setting, c: Config, n: nat)
    requires forall i: nat :: i < n ==> !Strays(st, Steps(st, c, i))
    ensures PlainSteps(st, c, n) == Steps(st, c, n)
    decreases n
  {
    if n > 0 {
      AgreeUpTo(st, c, n - 1);
      StepsSnoc(st, c, n - 1);
      PlainSnoc(st, c, n - 1);
      StepsDiffer(st, Steps(st, c, n - 1));
      hide Step, PlainStep, Steps, PlainSteps, Ignores;
      assert !Strays(st, Steps(st, c, n - 1));
    }
  }

  ghost predicate RunsAgree(st: Setting, c: Config) { forall n: nat :: PlainSteps(st, c, n) == Steps(st, c, n) }

  ghost predicate EverStrays(st: Setting, c: Config) { exists n: nat :: Strays(st, Steps(st, c, n)) }

  /** Two runs agree for ever exactly when the executor's own run never strays; when it does, it ends in
      an error there and the other run goes on. */
  lemma {:induction false} RunsAgreeWhen(st: Setting, c: Config)
    ensures RunsAgree(st, c) <==> !EverStrays(st, c)
  {
    hide Step, PlainStep, Strays;
    if !EverStrays(st, c) {
      forall n: nat ensures PlainSteps(st, c, n) == Steps(st, c, n) { AgreeUpTo(st, c, n); }
    } else {
      var n: nat :| Strays(st, Steps(st, c, n));
      StepsSnoc(st, c, n);
      PlainSnoc(st, c, n);
      StrayingShows(st, Steps(st, c, n));
      assert PlainSteps(st, c, n) == Steps(st, c, n) ==> PlainSteps(st, c, n + 1) != Steps(st, c, n + 1);
    }
  }

  lemma {:induction false} StrayingShows(st: Setting, c: Config)
    requires Strays(st, c)
    ensures Step(st, c).Aborted? && PlainStep(st, c) != Step(st, c)
  {
    StepsDiffer(st, c);
  }

  // ---- Programs without TRY..CATCH in a CATCH arm ----

  predicate NoTry(s: Stmt) {
    match s
    case Then(a, b) => NoTry(a) && NoTry(b)
    case If(_, _, t) => NoTry(t)
    case IfElse(_, _, t, e) => NoTry(t) && NoTry(e)
    case While(_, _, body) => NoTry(body)
    case TryCatch(_, _, _) => false
    case _ => true
  }

  /** No CATCH arm contains a TRY..CATCH statement. */
  predicate Flat(s: Stmt) {
    match s
    case Then(a, b) => Flat(a) && Flat(b)
    case If(_, _, t) => Flat(t)
    case IfElse(_, _, t, e) => Flat(t) && Flat(e)
    case While(_, _, body) => Flat(body)
    case TryCatch(_, body, handler) => Flat(body) && NoTry(handler)
    case _ => true
  }

  lemma {:induction false} NoTryIsFlat(s: Stmt)
    requires NoTry(s)
    ensures Flat(s)
    decreases s
  {
    match s
    case Then(a, b) => NoTryIsFlat(a); NoTryIsFlat(b);
    case If(_, _, t) => NoTryIsFlat(t);
    case IfElse(_, _, t, e) => NoTryIsFlat(t); NoTryIsFlat(e);
    case While(_, _, body) => NoTryIsFlat(body);
    case _ =>
  }

  predicate InCatch(k: Cont) {
    match k
    case Stop => false
    case Seq(_, k') => InCatch(k')
    case LoopK(_, k') => InCatch(k')
    case ThenK(_, k') => InCatch(k')
    case TryK(_, k') => InCatch(k')
    case CatchK(_, _, _) => true
  }

  /** The statement may stand before this continuation. */
  predicate Before(s: Stmt, k: Cont) { Flat(s) && (InCatch(k) ==> NoTry(s)) }

  /** A CATCH arm is the innermost arm. */
  predicate Settled(k: Cont) {
    match k
    case Stop => true
    case Seq(s, k') => Settled(k') && Before(s, k')
    case LoopK(s, k') => Settled(k') && Before(s, k')
    case ThenK(_, k') => Settled(k')
    case TryK(tc, k') => Settled(k') && !InCatch(k') && Flat(tc)
    case CatchK(_, _, k') => Settled(k') && !InCatch(k')
  }

  predicate SettledConfig(c: Config) { c.Running? ==> Settled(c.k) && Before(c.s, c.k) }

  lemma {:induction false} OnlyTryArms(k: Cont)
    requires !InCatch(k)
    ensures forall i :: 0 <= i < |Frames(k)| ==> Frames(k)[i].arm.inTry
    decreases k
  {
    match k
    case Stop =>
    case Seq(_, k') => OnlyTryArms(k');
    case LoopK(_, k') => OnlyTryArms(k');
    case ThenK(_, k') => OnlyTryArms(k');
    case TryK(_, k') => OnlyTryArms(k');
  }

  /** Of two arms, the outer one is a TRY arm. */
  lemma {:induction false} TwoArms(k: Cont)
    requires Settled(k) && |Frames(k)| >= 2
    ensures SomeTryArm(Frames(k))
    decreases k
  {
    match k
    case Seq(_, k') => TwoArms(k');
    case LoopK(_, k') => TwoArms(k');
    case ThenK(_, k') => TwoArms(k');
    case TryK(_, k') =>
      OnlyTryArms(k);
      assert Frames(k)[0].arm.inTry;
    case CatchK(_, _, k') =>
      OnlyTryArms(k');
      assert Frames(k)[0] == Frames(k')[0];
  }

  lemma {:induction false} LoopSettled(k: Cont)
    requires Settled(k) && InnerLoop(k).LoopK?
    ensures Settled(InnerLoop(k).k) && Before(InnerLoop(k).loop, InnerLoop(k).k)
    decreases k
  {
    match k
    case Seq(_, k') => LoopSettled(k');
    case LoopK(_, _) =>
    case ThenK(_, k') => LoopSettled(k');
    case TryK(_, k') => LoopSettled(k');
    case CatchK(_, _, k') => LoopSettled(k');
  }

  lemma {:induction false} TrySettled(k: Cont)
    requires Settled(k) && InnerTry(k).TryK?
    ensures Settled(InnerTry(k).k) && !InCatch(InnerTry(k).k) && Flat(InnerTry(k).tc)
    decreases k
  {
    match k
    case Seq(_, k') => TrySettled(k');
    case LoopK(_, k') => TrySettled(k');
    case ThenK(_, k') => TrySettled(k');
    case TryK(_, _) =>
    case CatchK(_, _, k') => TrySettled(k');
  }

  /** The parts of a statement stand before their own continuations. */
  lemma {:induction false} Around(s: Stmt, k: Cont)
    requires Settled(k) && Before(s, k)
    ensures s.Then? ==> Settled(Seq(s.rest, k)) && Before(s.first, Seq(s.rest, k)) && Before(s.rest, k)
    ensures s.If? ==> Before(s.thn, k)
    ensures s.IfElse? ==> Settled(ThenK(s, k)) && Before(s.thn, ThenK(s, k)) && Before(s.els, k)
    ensures s.While? ==> Settled(LoopK(s, k)) && Before(s.body, LoopK(s, k))
    ensures s.TryCatch? ==> Settled(TryK(s, k)) && Before(s.body, TryK(s, k))
    ensures s.TryCatch? ==> forall e :: Settled(CatchK(s, e, k)) && Before(s.handler, CatchK(s, e, k))
  {
    if s.TryCatch? { NoTryIsFlat(s.handler); }
  }

  lemma {:induction false} LabelSettled(s: Stmt, name: string, k: Cont)
    requires Settled(k) && Before(s, k)
    ensures FindLabel(s, name, k).Some? ==> Settled(FindLabel(s, name, k).value)
    decreases s
  {
    hide Settled, Before;
    Around(s, k);
    match s
    case Then(a, b) => LabelSettled(a, name, Seq(b, k)); LabelSettled(b, name, k);
    case If(_, _, t) => LabelSettled(t, name, k);
    case IfElse(_, _, t, e) => LabelSettled(t, name, ThenK(s, k)); LabelSettled(e, name, k);
    case While(_, _, body) => LabelSettled(body, name, LoopK(s, k));
    case TryCatch(_, body, handler) => LabelSettled(body, name, TryK(s, k)); LabelSettled(handler, name, CatchK(s, 0, k));
    case _ =>
  }

  lemma {:induction false} RefillSettled(k: Cont, frames: seq<Frame>)
    requires Settled(k)
    ensures Settled(Refill(k, frames)) && (InCatch(Refill(k, frames)) <==> InCatch(k))
    decreases k
  {
    match k
    case Stop =>
    case Seq(_, k') => RefillSettled(k', frames);
    case LoopK(_, k') => RefillSettled(k', frames);
    case ThenK(_, k') => RefillSettled(k', frames);
    case TryK(_, k') => RefillSettled(k', frames);
    case CatchK(_, _, k') => RefillSettled(k', frames);
  }

  lemma {:induction false} RaiseSettled(st: Setting, e: int, severity: Severity, k: Cont, trace: Trace, resume: Config)
    requires Settled(k) && SettledConfig(resume)
    ensures SettledConfig(Raise(st, e, severity, k, trace, resume))
  {
    hide Frames, CountsAsTry;
    if InnerTry(k).TryK? {
      TrySettled(k);
      if InnerTry(k).tc.TryCatch? { NoTryIsFlat(InnerTry(k).tc.handler); }
    }
  }

  /** One step keeps CATCH arms innermost. */
  lemma {:induction false} StepSettled(st: Setting, c: Config)
    requires Flat(st.program) && SettledConfig(c)
    ensures SettledConfig(Step(st, c))
  {
    hide Raise, Frames, CurrentError, FindLabel, Refill, InnerLoop;
    if c.Running? {
      var s, k := c.s, c.k;
      var ev := EventOf(st, s, k);
      if ev.Some? {
        var out := st.oracle(c.trace, ev.value);
        var trace := c.trace + [ev.value];
        if out.Raised? { RaiseSettled(st, out.err, out.severity, k, trace, Resumed(s, k, trace)); }
      } else if s.Exit? {
        if InnerLoop(k).LoopK? { LoopSettled(k); }
      } else if s.Goto? {
        LabelSettled(st.program, s.target, Stop);
        if FindLabel(st.program, s.target, Stop).Some? { RefillSettled(FindLabel(st.program, s.target, Stop).value, Frames(k)); }
      }
    }
  }

  lemma {:induction false} RunSettled(st: Setting, n: nat)
    requires Flat(st.program)
    ensures SettledConfig(Steps(st, Start(st), n))
    decreases n
  {
    if n > 0 {
      RunSettled(st, n - 1);
      StepsSnoc(st, Start(st), n - 1);
      hide Step, SettledConfig, Start, Steps;
      StepSettled(st, Steps(st, Start(st), n - 1));
    }
  }

  /** Programs that have no TRY..CATCH in a CATCH arm run as if the executor looked for a TRY arm, whatever
      their data statements do and wherever they jump. */
  lemma {:induction false} FlatProgramsAgree(st: Setting, n: nat)
    requires Flat(st.program)
    ensures PlainSteps(st, Start(st), n) == Steps(st, Start(st), n)
  {
    forall i: nat | i < n ensures !Strays(st, Steps(st, Start(st), i)) {
      RunSettled(st, i);
      NeverStrays(st, Steps(st, Start(st), i));
    }
    AgreeUpTo(st, Start(st), n);
  }

  lemma {:induction false} NeverStrays(st: Setting, c: Config)
    requires SettledConfig(c)
    ensures !Strays(st, c)
  {
    if Strays(st, c) { TwoArms(c.k); }
  }

  // ---- A program that is not ----

  const INNER := TryCatch(2, Basic(1), Basic(2))
  const NESTED := TryCatch(1, Basic(0), INNER)

  const FAILING: Oracle := (trace, _) => Raised(10 + |trace|, Ignorable)

  /** Three statements that each raise an ignorable error: the last stands in two CATCH arms and in no TRY
      arm, and ends the run with its error instead of being passed over. */
  lemma NestedCatchAborts()
    ensures var st := Setting(NESTED, FAILING, 0, false);
            var ran := [Ran(0, 0), Ran(1, 10), Ran(2, 11)];
            Steps(st, Start(st), 5) == Aborted(12, ran) && PlainSteps(st, Start(st), 8) == Halted(false, ran)
  {
    hide *;
    var st := Setting(NESTED, FAILING, 0, false);
    var outerCatch := CatchK(NESTED, 10, Stop);
    var both := CatchK(INNER, 11, outerCatch);
    var c1 := Running(Basic(0), TryK(NESTED, Stop), []);
    var c2 := Running(INNER, outerCatch, [Ran(0, 0)]);
    var c3 := Running(Basic(1), TryK(INNER, outerCatch), [Ran(0, 0)]);
    var c4 := Running(Basic(2), both, [Ran(0, 0), Ran(1, 10)]);
    var ran := [Ran(0, 0), Ran(1, 10), Ran(2, 11)];
    FirstSteps(st);
    ThirdStep(st);
    LastStep(st);
    LeavingSteps(st, ran);
    Unroll(st, Start(st), 5);
    Unroll(st, c1, 4);
    Unroll(st, c2, 3);
    Unroll(st, c3, 2);
    Unroll(st, c4, 1);
    Unroll(st, Start(st), 8);
    Unroll(st, c1, 7);
    Unroll(st, c2, 6);
    Unroll(st, c3, 5);
    Unroll(st, c4, 4);
    Unroll(st, Running(Skip, both, ran), 3);
    Unroll(st, Running(Skip, outerCatch, ran), 2);
    Unroll(st, Running(Skip, Stop, ran), 1);
  }

  /** It is a program that the analyzer accepts. */
  lemma NestedIsAccepted()
    ensures L.DistinctIds(NESTED) && L.Accepted(NESTED) && !Flat(NESTED)
  {
    hide L.Ids, L.Names, L.Gotos, L.Scoped, L.ExitsOk, L.DistinctIds, L.DistinctNames;
    var tab := L.Table(map[], map[]);
    var inCatch := L.ROOT.Within(Arm(1, false));
    TrySays(INNER, inCatch, tab, {});
    TrySays(NESTED, L.ROOT, tab, {2});
    assert L.TableOf(NESTED, tab) && L.JumpsOk(NESTED, tab);
  }

  /** What the analyzer finds in a TRY..CATCH of one data statement and a handler of which it is known. */
  lemma TrySays(s: Stmt, sc: L.Scope, tab: L.Table, ids: set<int>)
    requires s.TryCatch? && s.body.Basic? && s.id !in ids
    requires var h := s.handler;
             (h.Basic? && ids == {}) ||
             (L.Ids(h) == ids && L.Names(h) == {} && L.Gotos(h) == {} && L.DistinctIds(h) && L.DistinctNames(h) &&
              L.ExitsOk(h, false) && L.Scoped(h, sc.Within(Arm(s.id, false)), tab))
    ensures L.Ids(s) == ids + {s.id} && L.Names(s) == {} && L.Gotos(s) == {} && L.DistinctIds(s) && L.DistinctNames(s)
    ensures L.ExitsOk(s, false) && L.Scoped(s, sc, tab)
  {
  }

  lemma {:induction false} Unroll(st: Setting, c: Config, n: nat)
    requires n > 0
    ensures Steps(st, c, n) == Steps(st, Step(st, c), n - 1) && PlainSteps(st, c, n) == PlainSteps(st, PlainStep(st, c), n - 1)
    ensures n == 1 ==> Steps(st, c, n) == Step(st, c) && PlainSteps(st, c, n) == PlainStep(st, c)
  {
    hide Step, PlainStep;
  }

  lemma FirstSteps(st: Setting)
    requires st == Setting(NESTED, FAILING, 0, false)
    ensures var c1 := Running(Basic(0), TryK(NESTED, Stop), []);
            var c2 := Running(INNER, CatchK(NESTED, 10, Stop), [Ran(0, 0)]);
            Step(st, Start(st)) == PlainStep(st, Start(st)) == c1 && Step(st, c1) == PlainStep(st, c1) == c2
  {
    assert Frames(TryK(NESTED, Stop))[0].arm.inTry;
  }

  lemma ArmsAre()
    ensures var outerCatch := CatchK(NESTED, 10, Stop);
            Frames(outerCatch) == [Frame(Arm(1, false), 10)] &&
            Frames(TryK(INNER, outerCatch)) == [Frame(Arm(1, false), 10), Frame(Arm(2, true), 0)] &&
            Frames(CatchK(INNER, 11, outerCatch)) == [Frame(Arm(1, false), 10), Frame(Arm(2, false), 11)]
  {
  }

  lemma ThirdStep(st: Setting)
    requires st == Setting(NESTED, FAILING, 0, false)
    ensures var outerCatch := CatchK(NESTED, 10, Stop);
            var c2 := Running(INNER, outerCatch, [Ran(0, 0)]);
            var c3 := Running(Basic(1), TryK(INNER, outerCatch), [Ran(0, 0)]);
            var c4 := Running(Basic(2), CatchK(INNER, 11, outerCatch), [Ran(0, 0), Ran(1, 10)]);
            Step(st, c2) == PlainStep(st, c2) == c3 && Step(st, c3) == PlainStep(st, c3) == c4
  {
    hide Frames;
    ArmsAre();
    var third := Frames(TryK(INNER, CatchK(NESTED, 10, Stop)));
    assert third[1].arm.inTry && third[..1] == [Frame(Arm(1, false), 10)];
    assert CurrentError(third, 0) == 10;
  }

  lemma LastStep(st: Setting)
    requires st == Setting(NESTED, FAILING, 0, false)
    ensures var both := CatchK(INNER, 11, CatchK(NESTED, 10, Stop));
            var c4 := Running(Basic(2), both, [Ran(0, 0), Ran(1, 10)]);
            var ran := [Ran(0, 0), Ran(1, 10), Ran(2, 11)];
            Step(st, c4) == Aborted(12, ran) && PlainStep(st, c4) == Running(Skip, both, ran)
  {
    hide Frames;
    ArmsAre();
    var both := CatchK(INNER, 11, CatchK(NESTED, 10, Stop));
    assert CurrentError(Frames(both), 0) == 11;
  }

  lemma LeavingSteps(st: Setting, ran: Trace)
    ensures var outerCatch := CatchK(NESTED, 10, Stop);
            PlainStep(st, Running(Skip, CatchK(INNER, 11, outerCatch), ran)) == Running(Skip, outerCatch, ran) &&
            PlainStep(st, Running(Skip, outerCatch, ran)) == Running(Skip, Stop, ran) &&
            PlainStep(st, Running(Skip, Stop, ran)) == Halted(false, ran)
  {
    hide Frames;
  }
}
