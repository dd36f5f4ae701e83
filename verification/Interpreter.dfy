/** The executor's loop over its mutable state, and the whole chain from source text to result: check,
    generate, execute. */
module Interpreter {
  import opened Control
  import opened Layout
  import opened Executor
  import opened Simulation
  import A = Analyzer
  import C = Codegen
  import D = Depth
  import T = Structured

  datatype Status = Going | Finished | Threw(err: int)

  class Interpreter {
    var pc: int
    var errors: seq<ErrCtx>
    var active: int
    var handler: Handler
    var current: int
    var serial: nat
    var returned: bool
    var trace: Trace
    const code: seq<Instr>
    const st: Setting

    constructor (code: seq<Instr>, st: Setting)
      ensures this.code == code && this.st == st && Live(View()) == MStart(st)
    {
      this.code, this.st := code, st;
      pc, errors, active, handler, current, serial, returned, trace := 0, [], 0, Caller, st.initial, 0, false, [];
    }

    function View(): Regs reads this { Regs(pc, errors, active, handler, current, serial, returned, trace) }

    /** Makes the next context below the active one that is not running its CATCH arm the active one;
        without one, the index stays as it is. */
    method FindActive()
      requires 0 <= active <= |errors|
      modifies this`active
      ensures active == NextActive(errors, old(active), old(active))
    {
      var i := active - 1;
      while i >= 0
        invariant -1 <= i < active
        invariant active == old(active) && NextActive(errors, active, active) == NextActive(errors, i + 1, active)
      {
        if !errors[i].partial {
          active := i;
          return;
        }
        i := i - 1;
      }
    }

    method RestoreCtxFull()
      requires 0 <= active < |errors| && errors[active].saveError == current
      modifies this
      ensures Live(View()) == RestoreFull(old(View()))
    {
      handler := errors[active].saveHandler;
      errors := errors[..|errors| - 1];
      FindActive();
      pc := pc + 1;
    }

    /** Leaves the topmost context; the error visible before it was entered is visible again. */
    method PopContext()
      requires errors != []
      modifies this`errors, this`current
      ensures errors == old(errors)[..|old(errors)| - 1] && current == old(errors)[|old(errors)| - 1].saveError
    {
      current := errors[|errors| - 1].saveError;
      errors := errors[..|errors| - 1];
    }

    /** Control has come back to a SAVE instruction because of error e. */
    method Land(e: int)
      requires 0 <= active < |errors|
      modifies this
      ensures View() == Caught(old(View()), e)
    {
      ghost var was := errors;
      var target := errors[active].target;
      var i := |errors| - 1;
      while i > active
        invariant unchanged(`pc, `active, `handler, `serial, `returned, `trace)
        invariant 0 <= active <= i < |was|
        invariant errors == was[..i + 1]
      {
        PopContext();
        i := i - 1;
      }
      handler := errors[active].saveHandler;
      errors := errors[active := errors[active].(partial := true)];
      current := e;
      pc := target;
      NextActivePrefix(was, errors, active, active);
      FindActive();
      assert errors == was[..old(active)] + [was[old(active)].(partial := true)];
    }

    static lemma {:induction false} NextActivePrefix(a: seq<ErrCtx>, b: seq<ErrCtx>, i: nat, otherwise: int)
      requires i <= |a| && i <= |b| && forall j :: 0 <= j < i ==> a[j] == b[j]
      ensures NextActive(a, i, otherwise) == NextActive(b, i, otherwise)
    {
      if i > 0 { NextActivePrefix(a, b, i - 1, otherwise); }
    }

    /** An error is on its way out: it lands at the active context; a terminating one goes on from there. */
    method Throw(e: int, severity: Severity) returns (s: Status)
      requires !Arrive(View(), e, severity).Stuck?
      modifies this
      ensures s == Going ==> Arrive(old(View()), e, severity) == Live(View())
      ensures s != Going ==> s == Threw(e) && Arrive(old(View()), e, severity) == Failed(e, trace)
    {
      while handler.Context?
        invariant trace == old(trace) && Arrive(View(), e, severity) == Arrive(old(View()), e, severity)
        decreases if 0 <= active < |errors| && !errors[active].partial && handler.Context? then active + 1 else 0
      {
        ghost var m := View();
        NextActiveBelow(errors, active, active);
        Land(e);
        if !severity.Terminating? { return Going; }
      }
      return Threw(e);
    }

    /** A statement has failed: inside TRY, or when the error is not to be ignored, it is thrown. */
    method HandleError(e: int, severity: Severity) returns (s: Status)
      requires !RaiseError(View(), st, e, severity).Stuck?
      modifies this
      ensures s == Going ==> RaiseError(old(View()), st, e, severity) == Live(View())
      ensures s != Going ==> s == Threw(e) && RaiseError(old(View()), st, e, severity) == Failed(e, trace)
    {
      if severity.Ignorable? && !InTryBlock(errors, st.outerTry) {
        pc := pc + 1;
        return Going;
      }
      s := Throw(e, severity);
    }

    /** One round of the loop. */
    method Round() returns (s: Status)
      requires !MStep(code, st, Live(View())).Stuck?
      modifies this
      ensures s == Going ==> MStep(code, st, Live(old(View()))) == Live(View())
      ensures s == Finished ==> MStep(code, st, Live(old(View()))) == Done(returned, errors, trace)
      ensures s.Threw? ==> MStep(code, st, Live(old(View()))) == Failed(s.err, trace)
    {
      if pc >= |code| { return Finished; }
      match code[pc] {
        case IExec(op) => s := Dispatch(op, false);
        case IReturn(op) => s := Dispatch(op, true);
        case IGoto(_, target) =>
          pc := target;
          s := Going;
        case ICond(cond, _, target) => s := Conditional(cond, target);
        case ISave(_, target) =>
          errors := errors + [ErrCtx(serial, target, handler, current, false)];
          handler := Context(serial);
          active := |errors| - 1;
          serial := serial + 1;
          pc := pc + 1;
          s := Going;
        case IFull =>
          RestoreCtxFull();
          s := Going;
        case IPartial =>
          PopContext();
          pc := pc + 1;
          s := Going;
      }
    }

    method Dispatch(op: int, isReturn: bool) returns (s: Status)
      requires !Exec(View(), st, op, isReturn).Stuck?
      modifies this
      ensures s == Going ==> Exec(old(View()), st, op, isReturn) == Live(View())
      ensures s != Going ==> s.Threw? && Exec(old(View()), st, op, isReturn) == Failed(s.err, trace)
    {
      var ev := Ran(op, current);
      var outcome := st.oracle(trace, ev);
      trace := trace + [ev];
      if outcome.Raised? {
        s := HandleError(outcome.err, outcome.severity);
      } else {
        pc := pc + 1;
        returned := returned || isReturn;
        s := Going;
      }
    }

    method Conditional(cond: int, target: int) returns (s: Status)
      requires !Branch(View(), st, cond, target).Stuck?
      modifies this
      ensures s == Going ==> Branch(old(View()), st, cond, target) == Live(View())
      ensures s != Going ==> s.Threw? && Branch(old(View()), st, cond, target) == Failed(s.err, trace)
    {
      var ev := Tested(cond, current);
      var outcome := st.oracle(trace, ev);
      trace := trace + [ev];
      match outcome {
        case Success =>
          pc := pc + 1;
          s := Going;
        case False =>
          pc := target;
          s := Going;
        case Raised(e, severity) => s := HandleError(e, severity);
      }
    }

    /** At most n rounds. The state it ends in is the one the machine has after n steps. */
    method Run(n: nat, ghost w: World) returns (s: Status)
      requires Valid(w) && code == w.im.code && st == w.st && Live(View()) == MStart(st)
      modifies this
      ensures s == Going ==> MSteps(code, st, MStart(st), n) == Live(View())
      ensures s == Finished ==> MSteps(code, st, MStart(st), n) == Done(returned, [], trace)
      ensures s.Threw? ==> MSteps(code, st, MStart(st), n) == Failed(s.err, trace)
    {
      hide *;
      StepsZero(code, st);
      ViewIs();
      var i := 0;
      while i < n
        invariant i <= n && MSteps(code, st, MStart(st), i) == Live(View())
      {
        StepsSucc(code, st, MStart(st), i);
        NeverStuck(w, i + 1);
        s := Round();
        NeverStuck(w, i + 1);
        if s != Going {
          StepsAdd(code, st, MStart(st), i + 1, n - i - 1);
          StepsFixed(code, st, MSteps(code, st, MStart(st), i + 1), n - i - 1);
          return;
        }
        i := i + 1;
      }
      s := Going;
    }

    lemma ViewIs()
      ensures View() == Regs(pc, errors, active, handler, current, serial, returned, trace)
    {
    }

    static lemma StepsZero(code: seq<Instr>, st: Setting)
      ensures MSteps(code, st, MStart(st), 0) == MStart(st)
    {
    }

    static lemma StepsSucc(code: seq<Instr>, st: Setting, m: State, n: nat)
      ensures MSteps(code, st, m, n + 1) == MStep(code, st, MSteps(code, st, m, n))
    {
      StepsAdd(code, st, m, n, 1);
      TwoSteps(code, st, MSteps(code, st, m, n));
    }
  }

  /** The history is that of the running program after k steps, or after one more. */
  predicate Between(st: Setting, trace: Trace, k: nat) {
    var c := Steps(st, Start(st), k);
    c.Running? && c.trace <= trace <= Steps(st, Start(st), k + 1).trace
  }

  /** The most rounds that one step of the program takes. */
  function Pace(program: Stmt): nat { D.Nested(program) + 3 }

  /** The result of a run of n rounds. Rejected programs do not run. An accepted one that finishes or is
      ended by an error has done what the program means; while it is going, it has done what the program
      does by some step or the next one, and n rounds have taken it at least n / Pace steps. So it finishes
      if the program ends within that many. */
  method CompileAndRun(st: Setting, n: nat) returns (v: A.Verdict, s: Status, byReturn: bool, trace: Trace)
    requires DistinctIds(st.program)
    ensures v.Accept? <==> Accepted(st.program)
    ensures v.Accept? && s == Finished ==> exists k: nat :: Steps(st, Start(st), k) == Halted(byReturn, trace)
    ensures v.Accept? && s.Threw? ==> exists k: nat :: Steps(st, Start(st), k) == Aborted(s.err, trace)
    ensures v.Accept? && s == Going ==> exists k: nat :: Between(st, trace, k) && n <= Pace(st.program) * (k + 1)
    ensures v.Accept? ==> forall k: nat :: !Steps(st, Start(st), k).Running? && n > Pace(st.program) * k ==> s != Going
    ensures v.Reject? ==> s == Going && trace == []
  {
    hide Pace;
    s, byReturn, trace := Going, false, [];
    var analyzer := new A.Analyzer();
    v := analyzer.Analyze(st.program);
    if v.Reject? { return; }
    var generator := new C.Codegen(analyzer.Tab());
    var missing := generator.Generate(st.program);
    var im := Image(generator.codes, generator.labelIndex, true);
    ghost var w := World(st, analyzer.Tab(), im);
    var interpreter := new Interpreter(im.code, st);
    s := interpreter.Run(n, w);
    byReturn, trace := interpreter.returned, interpreter.trace;
    HaltsAlike(w, byReturn, trace);
    if s.Threw? { FailsAlike(w, s.err, trace); }
    if s == Going { StillGoing(w, n, trace); }
  }

  /** Rounds that leave the machine going. */
  lemma StillGoing(w: World, n: nat, trace: Trace)
    requires Valid(w)
    requires var m := MSteps(w.im.code, w.st, MStart(w.st), n); m.Live? && m.r.trace == trace
    ensures exists k: nat :: Between(w.st, trace, k) && n <= Pace(w.st.program) * (k + 1)
    ensures forall k: nat :: !Steps(w.st, Start(w.st), k).Running? ==> n <= Pace(w.st.program) * k
  {
    hide Valid, Start, MStart, Steps, MSteps, D.Nested;
    var st, b := w.st, D.Nested(w.st.program);
    StartMatches(w);
    forall i: nat ensures ArmsAround(Steps(st, Start(st), i)) <= b { D.RunWithin(st, i); }
    var k := GoingMatches(w, Start(st), MStart(st), n, b);
    assert Between(st, trace, k) && n <= Pace(st.program) * (k + 1);
    forall k': nat | !Steps(st, Start(st), k').Running? ensures n <= Pace(st.program) * k' {
      if k' <= k { StaysStopped(st, Start(st), k', k); }
      Rounds(b + 3, k + 1, k');
    }
  }

  /** The compiled code of a program without GOTO finishes or fails exactly as the program is evaluated to. */
  lemma {:induction false} StructuredRun(w: World, byReturn: bool, e: int, trace: Trace)
    requires Valid(w) && T.NoGoto(w.st.program)
    ensures (exists n: nat :: MSteps(w.im.code, w.st, MStart(w.st), n) == Done(byReturn, [], trace)) <==> T.Means(w.st, Halted(byReturn, trace))
    ensures (exists n: nat :: MSteps(w.im.code, w.st, MStart(w.st), n) == Failed(e, trace)) <==> T.Means(w.st, Aborted(e, trace))
  {
    hide MSteps, Steps, Start, MStart, T.Means, T.NoGoto, T.Reaches, TableOf, Compiled, JumpsOk;
    HaltsAlike(w, byReturn, trace);
    FailsAlike(w, e, trace);
    T.Adequate(w.st, Halted(byReturn, trace));
    T.Adequate(w.st, Aborted(e, trace));
    T.ReachesIs(w.st, Start(w.st), Halted(byReturn, trace));
    T.ReachesIs(w.st, Start(w.st), Aborted(e, trace));
  }

  lemma {:induction false} Rounds(pace: nat, i: nat, j: nat)
    requires i <= j
    ensures pace * i <= pace * j
  {
  }

  lemma {:induction false} StaysStopped(st: Setting, c: Config, i: nat, j: nat)
    requires !Steps(st, c, i).Running? && i <= j
    ensures !Steps(st, c, j).Running?
    decreases i
  {
    hide Step;
    if i == 0 { StepStays(st, c, j); } else { StaysStopped(st, Step(st, c), i - 1, j - 1); }
  }
}
