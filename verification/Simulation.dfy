/** Compiled code does what the program means: every step of the program is matched by machine steps,
    the error stack mirrors the arms around the running statement, and nothing gets stuck. */
module Simulation {
  import opened Control
  import opened Layout
  import opened Executor

  datatype World = World(st: Setting, tab: Table, im: Image)

  /** An accepted program and its image. */
  ghost predicate Valid(w: World) {
    TableOf(w.st.program, w.tab) && Compiled(w.st.program, w.tab, w.im) &&
    ExitsOk(w.st.program, false) && JumpsOk(w.st.program, w.tab)
  }

  // ---- Where things are ----

  function ArmsOf(frames: seq<Frame>): seq<Arm> {
    seq(|frames|, i requires 0 <= i < |frames| => frames[i].arm)
  }

  function LoopsOf(k: Cont): seq<int> {
    match k
    case Stop => []
    case Seq(_, k') => LoopsOf(k')
    case LoopK(loop, k') => if loop.While? then LoopsOf(k') + [loop.id] else LoopsOf(k')
    case ThenK(_, k') => LoopsOf(k')
    case TryK(_, k') => LoopsOf(k')
    case CatchK(_, _, k') => LoopsOf(k')
  }

  function ScopeOf(k: Cont): Scope { Scope(ArmsOf(Frames(k)), LoopsOf(k)) }

  /** A legal statement whose code stands at pc. */
  ghost predicate In(w: World, s: Stmt, pc: int, sc: Scope) {
    Placed(w.im, s, pc, sc, w.tab) && Scoped(s, sc, w.tab) && JumpsOk(s, w.tab) && ExitsOk(s, sc.loops != [])
  }

  /** What is left to do is done by the code from pc on. */
  ghost predicate ContAt(w: World, k: Cont, pc: int)
    decreases k
  {
    match k
    case Stop => pc == |w.im.code|
    case Seq(next, k') => In(w, next, pc, ScopeOf(k')) && ContAt(w, k', pc + Size(next, ScopeOf(k'), w.tab))
    case LoopK(loop, k') =>
      loop.While? && w.im.At(pc, IGoto(LoopBegin(loop.id), -1)) &&
      var begin := pc - 1 - Size(loop.body, ScopeOf(k').Inside(loop.id), w.tab);
      w.im.LabAt(LoopBegin(loop.id), begin) && In(w, loop, begin, ScopeOf(k')) && ContAt(w, k', pc + 1)
    case ThenK(branch, k') =>
      branch.IfElse? && w.im.At(pc, IGoto(ElseEnd(branch.id), -1)) &&
      var end := pc + 1 + Size(branch.els, ScopeOf(k'), w.tab);
      w.im.LabAt(ElseEnd(branch.id), end) && ContAt(w, k', end)
    case TryK(tc, k') =>
      tc.TryCatch? && w.im.At(pc, IFull) && w.im.At(pc + 1, IGoto(CatchEnd(tc.id), -1)) &&
      var sc := ScopeOf(k').Within(Arm(tc.id, false));
      var end := pc + 2 + Size(tc.handler, sc, w.tab);
      w.im.LabAt(CatchBegin(tc.id), pc + 2) && In(w, tc.handler, pc + 2, sc) &&
      w.im.At(end, IPartial) && w.im.LabAt(CatchEnd(tc.id), end + 1) && ContAt(w, k', end + 1)
    case CatchK(tc, _, k') => tc.TryCatch? && w.im.At(pc, IPartial) && ContAt(w, k', pc + 1)
  }

  lemma {:induction false} ScopeOfFrames(k: Cont)
    ensures k.Seq? ==> ScopeOf(k) == ScopeOf(k.k)
    ensures k.ThenK? ==> ScopeOf(k) == ScopeOf(k.k)
    ensures k.LoopK? && k.loop.While? ==> ScopeOf(k) == ScopeOf(k.k).Inside(k.loop.id)
    ensures k.TryK? && k.tc.TryCatch? ==> ScopeOf(k) == ScopeOf(k.k).Within(Arm(k.tc.id, true))
    ensures k.CatchK? && k.tc.TryCatch? ==> ScopeOf(k) == ScopeOf(k.k).Within(Arm(k.tc.id, false))
  {
  }

  // ---- The error stack ----

  /** The index of the innermost context whose TRY arm is running, or -1. */
  function Top(errors: seq<ErrCtx>): int { NextActive(errors, |errors|, -1) }

  lemma {:induction false} TopRange(errors: seq<ErrCtx>)
    ensures -1 <= Top(errors) < |errors|
  {
    NextActiveBelow(errors, |errors|, -1);
  }

  function TopHandler(errors: seq<ErrCtx>): Handler {
    TopRange(errors);
    if Top(errors) < 0 then Caller else Context(errors[Top(errors)].serial)
  }

  /** One context per arm: it runs its CATCH arm exactly when the arm is one, it leads to that arm's
      code, and it remembers the error and the handler of the arms around it. */
  ghost predicate Mirrors(w: World, frames: seq<Frame>, errors: seq<ErrCtx>)
    decreases |frames|
  {
    |frames| == |errors| &&
    (frames == [] ||
     var n := |frames| - 1;
     Mirrors(w, frames[..n], errors[..n]) && errors[n].partial == !frames[n].arm.inTry &&
     w.im.LabAt(CatchBegin(frames[n].arm.id), errors[n].target) &&
     errors[n].saveError == CurrentError(frames[..n], w.st.initial) && errors[n].saveHandler == TopHandler(errors[..n]))
  }

  ghost predicate StackOk(w: World, frames: seq<Frame>, m: Regs) {
    Mirrors(w, frames, m.errors) && m.current == CurrentError(frames, w.st.initial) &&
    m.handler == TopHandler(m.errors) && (Top(m.errors) >= 0 ==> m.active == Top(m.errors))
  }

  ghost predicate Match(w: World, c: Config, m: State) {
    match c
    case Running(s, k, trace) =>
      m.Live? && !m.r.returned && m.r.trace == trace && In(w, s, m.r.pc, ScopeOf(k)) &&
      ContAt(w, k, m.r.pc + Size(s, ScopeOf(k), w.tab)) && StackOk(w, Frames(k), m.r)
    case Halted(byReturn, trace) => m == Done(byReturn, [], trace)
    case Aborted(e, trace) => m == Failed(e, trace)
  }

  lemma {:induction false} MirrorsPrefix(w: World, frames: seq<Frame>, errors: seq<ErrCtx>, n: nat)
    requires Mirrors(w, frames, errors) && n <= |frames|
    ensures Mirrors(w, frames[..n], errors[..n])
    decreases |frames|
  {
    if n == |frames| {
      assert frames[..n] == frames && errors[..n] == errors;
    } else {
      var last := |frames| - 1;
      MirrorsPrefix(w, frames[..last], errors[..last], n);
      assert frames[..last][..n] == frames[..n] && errors[..last][..n] == errors[..n];
    }
  }

  lemma {:induction false} MirrorsAt(w: World, frames: seq<Frame>, errors: seq<ErrCtx>, i: nat)
    requires Mirrors(w, frames, errors) && i < |frames|
    ensures errors[i].partial == !frames[i].arm.inTry && w.im.LabAt(CatchBegin(frames[i].arm.id), errors[i].target)
    ensures errors[i].saveError == CurrentError(frames[..i], w.st.initial) && errors[i].saveHandler == TopHandler(errors[..i])
  {
    MirrorsPrefix(w, frames, errors, i + 1);
    assert frames[..i + 1][..i] == frames[..i] && errors[..i + 1][..i] == errors[..i];
  }

  lemma {:induction false} NextActiveTop(errors: seq<ErrCtx>, i: nat, otherwise: int)
    requires i <= |errors|
    ensures NextActive(errors, i, otherwise) == if Top(errors[..i]) >= 0 then Top(errors[..i]) else otherwise
    decreases i
  {
    if i > 0 {
      NextActiveTop(errors, i - 1, otherwise);
      var e := errors[..i];
      NextActiveTop(e, i - 1, -1);
      assert e[..i - 1] == errors[..i - 1];
      TopRange(errors[..i - 1]);
    }
  }

  lemma {:induction false} TopSnoc(errors: seq<ErrCtx>, ctx: ErrCtx)
    ensures Top(errors + [ctx]) == if ctx.partial then Top(errors) else |errors|
    ensures TopHandler(errors + [ctx]) == if ctx.partial then TopHandler(errors) else Context(ctx.serial)
  {
    var e := errors + [ctx];
    NextActiveTop(e, |errors|, -1);
    assert e[..|errors|] == errors;
    TopRange(errors);
  }

  lemma {:induction false} TopIs(errors: seq<ErrCtx>, n: nat)
    requires n < |errors| && !errors[n].partial && forall i :: n < i < |errors| ==> errors[i].partial
    ensures Top(errors) == n
  {
    TopAbove(errors, |errors|, n);
  }

  lemma {:induction false} TopAbove(errors: seq<ErrCtx>, i: nat, n: nat)
    requires n < i <= |errors| && !errors[n].partial && forall j :: n < j < i ==> errors[j].partial
    ensures NextActive(errors, i, -1) == n
    decreases i
  {
    if i > n + 1 { TopAbove(errors, i - 1, n); }
  }

  lemma {:induction false} TopNone(errors: seq<ErrCtx>, i: nat)
    requires i <= |errors| && forall j :: 0 <= j < i ==> errors[j].partial
    ensures NextActive(errors, i, -1) == -1
    decreases i
  {
    if i > 0 { TopNone(errors, i - 1); }
  }

  // ---- Entering and leaving arms ----

  lemma {:induction false} MirrorsSnoc(w: World, frames: seq<Frame>, errors: seq<ErrCtx>, f: Frame, ctx: ErrCtx)
    requires Mirrors(w, frames, errors) && ctx.partial == !f.arm.inTry && w.im.LabAt(CatchBegin(f.arm.id), ctx.target)
    requires ctx.saveError == CurrentError(frames, w.st.initial) && ctx.saveHandler == TopHandler(errors)
    ensures Mirrors(w, frames + [f], errors + [ctx])
  {
    assert (frames + [f])[..|frames|] == frames && (errors + [ctx])[..|errors|] == errors;
  }

  lemma {:induction false} CurrentSnoc(frames: seq<Frame>, f: Frame, initial: int)
    ensures CurrentError(frames + [f], initial) == if f.arm.inTry then CurrentError(frames, initial) else f.err
  {
    assert (frames + [f])[..|frames|] == frames;
  }

  lemma {:induction false} SaveOk(w: World, frames: seq<Frame>, m: Regs, id: int, target: int)
    requires StackOk(w, frames, m) && w.im.LabAt(CatchBegin(id), target)
    ensures StackOk(w, frames + [Frame(Arm(id, true), 0)], Save(m, target).r)
  {
    var ctx := ErrCtx(m.serial, target, m.handler, m.current, false);
    MirrorsSnoc(w, frames, m.errors, Frame(Arm(id, true), 0), ctx);
    CurrentSnoc(frames, Frame(Arm(id, true), 0), w.st.initial);
    TopSnoc(m.errors, ctx);
  }

  lemma {:induction false} MirrorsLength(w: World, frames: seq<Frame>, errors: seq<ErrCtx>)
    requires Mirrors(w, frames, errors)
    ensures |frames| == |errors|
  {
  }

  /** What the stack says about its innermost context. */
  lemma {:induction false} InnermostOk(w: World, frames: seq<Frame>, m: Regs)
    requires StackOk(w, frames, m) && frames != []
    ensures var n := |frames| - 1;
            |m.errors| == n + 1 && Mirrors(w, frames[..n], m.errors[..n]) && m.errors[n].partial == !frames[n].arm.inTry &&
            m.errors[n].saveError == CurrentError(frames[..n], w.st.initial) && m.errors[n].saveHandler == TopHandler(m.errors[..n]) &&
            if frames[n].arm.inTry then m.active == n && m.current == CurrentError(frames[..n], w.st.initial)
            else m.handler == TopHandler(m.errors[..n]) && (Top(m.errors[..n]) >= 0 ==> m.active == Top(m.errors[..n]))
  {
    hide Mirrors, Top, TopHandler, CurrentError, NextActive;
    var n := |frames| - 1;
    MirrorsLength(w, frames, m.errors);
    MirrorsAt(w, frames, m.errors, n);
    MirrorsPrefix(w, frames, m.errors, n);
    assert m.errors == m.errors[..n] + [m.errors[n]] && frames == frames[..n] + [frames[n]];
    TopSnoc(m.errors[..n], m.errors[n]);
    CurrentSnoc(frames[..n], frames[n], w.st.initial);
  }

  /** Leaving the innermost arm by its restore instruction. */
  lemma {:induction false} RestoreOk(w: World, frames: seq<Frame>, m: Regs)
    requires StackOk(w, frames, m) && frames != []
    ensures var n := |frames| - 1;
            var m' := Perform(w.st, m, Restore(frames[n].arm));
            m'.Live? && StackOk(w, frames[..n], m'.r) &&
            m'.r.pc == m.pc + 1 && m'.r.trace == m.trace && m'.r.returned == m.returned
  {
    hide Mirrors, Top, TopHandler, CurrentError, NextActive;
    var n := |frames| - 1;
    InnermostOk(w, frames, m);
    if frames[n].arm.inTry {
      NextActiveTop(m.errors[..n], n, n);
      assert m.errors[..n][..n] == m.errors[..n];
    }
  }

  /** An error reaches the innermost TRY arm: its CATCH arm starts with that error visible. */
  lemma {:induction false} CaughtOk(w: World, frames: seq<Frame>, m: Regs, e: int)
    requires StackOk(w, frames, m) && Top(m.errors) >= 0
    ensures var j := Top(m.errors);
            j < |frames| && frames[j].arm.inTry && m.active == j && !m.errors[j].partial && m.handler == Context(m.errors[j].serial) &&
            StackOk(w, frames[..j] + [Frame(Arm(frames[j].arm.id, false), e)], Caught(m, e))
  {
    var j := Top(m.errors);
    TopRange(m.errors);
    TopActive(m.errors);
    MirrorsAt(w, frames, m.errors, j);
    MirrorsPrefix(w, frames, m.errors, j);
    var ctx := m.errors[j].(partial := true);
    var f := Frame(Arm(frames[j].arm.id, false), e);
    MirrorsSnoc(w, frames[..j], m.errors[..j], f, ctx);
    CurrentSnoc(frames[..j], f, w.st.initial);
    TopSnoc(m.errors[..j], ctx);
    NextActiveTop(m.errors, j, j);
  }

  lemma {:induction false} TopActive(errors: seq<ErrCtx>)
    ensures Top(errors) >= 0 ==> Top(errors) < |errors| && !errors[Top(errors)].partial
  {
    ActiveBelow(errors, |errors|);
  }

  lemma {:induction false} ActiveBelow(errors: seq<ErrCtx>, i: nat)
    requires i <= |errors|
    ensures var t := NextActive(errors, i, -1); t >= 0 ==> t < i && !errors[t].partial
    decreases i
  {
    if i > 0 && errors[i - 1].partial { ActiveBelow(errors, i - 1); }
  }

  /** A terminating error passes through every handler and leaves the executor. */
  lemma {:induction false} TerminatingFails(w: World, frames: seq<Frame>, m: Regs, e: int)
    requires StackOk(w, frames, m)
    ensures Arrive(m, e, Terminating) == Failed(e, m.trace) && Match(w, Aborted(e, m.trace), Failed(e, m.trace))
    decreases Top(m.errors) + 1
  {
    TopRange(m.errors);
    if Top(m.errors) >= 0 {
      var j := Top(m.errors);
      CaughtOk(w, frames, m, e);
      TopSnoc(m.errors[..j], m.errors[j].(partial := true));
      TopRange(m.errors[..j]);
      TerminatingFails(w, frames[..j] + [Frame(Arm(frames[j].arm.id, false), e)], Caught(m, e), e);
    }
  }

  // ---- Raising an error ----

  lemma {:induction false} FramesOfTry(w: World, k: Cont, pc: int)
    requires ContAt(w, k, pc)
    ensures InnerTry(k).Stop? || InnerTry(k).TryK?
    ensures InnerTry(k).Stop? ==> forall i :: 0 <= i < |Frames(k)| ==> !Frames(k)[i].arm.inTry
    ensures InnerTry(k).TryK? ==>
      var tc, n := InnerTry(k).tc, |Frames(InnerTry(k).k)|;
      tc.TryCatch? && n < |Frames(k)| && Frames(k)[..n] == Frames(InnerTry(k).k) && Frames(k)[n].arm == Arm(tc.id, true) &&
      forall i :: n < i < |Frames(k)| ==> !Frames(k)[i].arm.inTry
    ensures InnerTry(k).TryK? ==> exists pc' :: ContAt(w, InnerTry(k), pc')
    decreases k
  {
    hide In, Size, Image.At, Image.LabAt, ScopeOf;
    match k
    case Stop =>
    case TryK(_, _) =>
    case Seq(next, k') => FramesOfTry(w, k', pc + Size(next, ScopeOf(k'), w.tab));
    case LoopK(_, k') => FramesOfTry(w, k', pc + 1);
    case ThenK(branch, k') => FramesOfTry(w, k', pc + 1 + Size(branch.els, ScopeOf(k'), w.tab));
    case CatchK(_, _, k') => FramesOfTry(w, k', pc + 1);
  }

  lemma {:induction false} TryBlockAgrees(w: World, frames: seq<Frame>, m: Regs)
    requires StackOk(w, frames, m)
    ensures InTryBlock(m.errors, w.st.outerTry) == CountsAsTry(frames, w.st.outerTry)
  {
    if |frames| == 1 { MirrorsAt(w, frames, m.errors, 0); }
  }

  lemma {:induction false} MirrorsTop(w: World, frames: seq<Frame>, errors: seq<ErrCtx>, n: int)
    requires Mirrors(w, frames, errors) && -1 <= n < |frames| && (n >= 0 ==> frames[n].arm.inTry)
    requires forall i :: n < i < |frames| ==> !frames[i].arm.inTry
    ensures Top(errors) == n
  {
    forall i | 0 <= i < |frames| ensures errors[i].partial == !frames[i].arm.inTry { MirrorsAt(w, frames, errors, i); }
    if n >= 0 { TopIs(errors, n); } else { TopNone(errors, |errors|); }
  }

  /** The handler the machine jumps to is the innermost CATCH the program's meaning names. */
  lemma {:induction false} CatchSim(w: World, k: Cont, pc: int, m: Regs, e: int)
    requires ContAt(w, k, pc) && StackOk(w, Frames(k), m) && !m.returned && InnerTry(k).TryK?
    ensures var tc := InnerTry(k).tc;
            tc.TryCatch? && Match(w, Running(tc.handler, CatchK(tc, e, InnerTry(k).k), m.trace), Arrive(m, e, Catchable))
    ensures Arrive(m, e, Ignorable) == Arrive(m, e, Catchable)
  {
    hide In, Size, Image.At, Top, TopHandler, CurrentError, InnerTry;
    FramesOfTry(w, k, pc);
    var tc, k' := InnerTry(k).tc, InnerTry(k).k;
    var n := |Frames(k')|;
    MirrorsTop(w, Frames(k), m.errors, n);
    CaughtOk(w, Frames(k), m, e);
    var at :| ContAt(w, InnerTry(k), at);
    ScopeOfFrames(CatchK(tc, e, k'));
    MirrorsAt(w, Frames(k), m.errors, n);
    assert Caught(m, e).pc == at + 2;
    assert Frames(CatchK(tc, e, k')) == Frames(k)[..n] + [Frame(Arm(tc.id, false), e)];
  }

  /** An error that is not ignored goes to the handler the program's meaning names, or ends the run. */
  lemma {:induction false} RaiseTaken(w: World, k: Cont, pc: int, m: Regs, e: int, severity: Severity, resume: Config)
    requires ContAt(w, k, pc) && StackOk(w, Frames(k), m) && !m.returned
    requires !severity.Ignorable? || CountsAsTry(Frames(k), w.st.outerTry)
    ensures Match(w, Raise(w.st, e, severity, k, m.trace, resume), Arrive(m, e, severity))
  {
    hide Match, ContAt, Frames, StackOk, CountsAsTry, InnerTry;
    if severity.Terminating? {
      TerminatingFails(w, Frames(k), m, e);
    } else {
      FramesOfTry(w, k, pc);
      if InnerTry(k).TryK? {
        CatchSim(w, k, pc, m, e);
      } else {
        NoTryFails(w, k, m, e, severity);
      }
    }
  }

  lemma {:induction false} RaiseSim(w: World, k: Cont, pc: int, m: Regs, e: int, severity: Severity, resume: Config)
    requires ContAt(w, k, pc) && StackOk(w, Frames(k), m) && !m.returned
    requires Match(w, resume, Live(m.(pc := m.pc + 1)))
    ensures Match(w, Raise(w.st, e, severity, k, m.trace, resume), RaiseError(m, w.st, e, severity))
  {
    hide Match, ContAt, Frames, StackOk, InTryBlock, CountsAsTry, InnerTry, Arrive;
    TryBlockAgrees(w, Frames(k), m);
    if !severity.Ignorable? || CountsAsTry(Frames(k), w.st.outerTry) {
      RaiseTaken(w, k, pc, m, e, severity, resume);
    }
  }

  lemma {:induction false} NoTryFails(w: World, k: Cont, m: Regs, e: int, severity: Severity)
    requires StackOk(w, Frames(k), m) && forall i :: 0 <= i < |Frames(k)| ==> !Frames(k)[i].arm.inTry
    ensures Match(w, Aborted(e, m.trace), Arrive(m, e, severity))
  {
    MirrorsTop(w, Frames(k), m.errors, -1);
  }

  /** A condition: the machine's conditional jump takes the branch the program takes. */
  lemma {:induction false} TestSim(w: World, k: Cont, pc: int, m: Regs, cond: int, lab: Lab, target: int,
                                   yes: Trace -> Config, no: Trace -> Config)
    requires w.im.linked && w.im.At(m.pc, ICond(cond, lab, -1)) && w.im.LabAt(lab, target)
    requires ContAt(w, k, pc) && StackOk(w, Frames(k), m) && !m.returned
    requires var t := m.trace + [Tested(cond, m.current)];
             Match(w, yes(t), Live(m.(trace := t, pc := m.pc + 1))) && Match(w, no(t), Live(m.(trace := t, pc := target)))
    ensures Match(w, Test(w.st, cond, k, m.trace, yes, no), MStep(w.im.code, w.st, Live(m)))
  {
    hide Match, ContAt, Frames, RaiseError, Raise, CurrentError, Mirrors, Top, TopHandler;
    var ev := Tested(cond, m.current);
    var t := m.trace + [ev];
    match w.st.oracle(m.trace, ev)
    case Success =>
    case False =>
    case Raised(e, severity) =>
      assert m.(trace := t).(pc := m.pc + 1) == m.(trace := t, pc := m.pc + 1);
      RaiseSim(w, k, pc, m.(trace := t), e, severity, yes(t));
  }

  // ---- Entering the parts of a statement ----

  lemma {:induction false} InThen(w: World, a: Stmt, b: Stmt, pc: int, sc: Scope)
    requires In(w, Then(a, b), pc, sc)
    ensures In(w, a, pc, sc) && In(w, b, pc + Size(a, sc, w.tab), sc)
  {
    PlacedThen(w.im, a, b, pc, sc, w.tab);
    hide Placed;
    assert Gotos(Then(a, b)) == Gotos(a) + Gotos(b);
    assert Scoped(a, sc, w.tab) && Scoped(b, sc, w.tab);
  }

  lemma {:induction false} EnterSeq(w: World, a: Stmt, b: Stmt, pc: int, k: Cont)
    requires In(w, Then(a, b), pc, ScopeOf(k)) && ContAt(w, k, pc + Size(Then(a, b), ScopeOf(k), w.tab))
    ensures In(w, a, pc, ScopeOf(Seq(b, k))) && ContAt(w, Seq(b, k), pc + Size(a, ScopeOf(Seq(b, k)), w.tab))
    ensures In(w, b, pc + Size(a, ScopeOf(k), w.tab), ScopeOf(k))
  {
    hide In, Size;
    ScopeOfFrames(Seq(b, k));
    InThen(w, a, b, pc, ScopeOf(k));
    SizeThen(a, b, ScopeOf(k), w.tab);
  }

  lemma {:induction false} EnterIf(w: World, s: Stmt, pc: int, sc: Scope)
    requires s.If? && In(w, s, pc, sc)
    ensures In(w, s.thn, pc + 1, sc) && w.im.At(pc, ICond(s.cond, ElseEnd(s.id), -1)) && w.im.LabAt(ElseEnd(s.id), pc + Size(s, sc, w.tab))
  {
  }

  lemma {:induction false} InIs(w: World, s: Stmt, pc: int, sc: Scope)
    ensures In(w, s, pc, sc) == (Placed(w.im, s, pc, sc, w.tab) && Scoped(s, sc, w.tab) && JumpsOk(s, w.tab) && ExitsOk(s, sc.loops != []))
  {
    hide Placed, Scoped, JumpsOk, ExitsOk;
  }

  lemma {:induction false} JumpsOkTwo(s: Stmt, a: Stmt, b: Stmt, tab: Table)
    requires Gotos(s) == Gotos(a) + Gotos(b)
    ensures JumpsOk(s, tab) == (JumpsOk(a, tab) && JumpsOk(b, tab))
  {
    hide Gotos, JumpOk;
    if JumpsOk(s, tab) { assert forall g :: g in Gotos(a) || g in Gotos(b) ==> g in Gotos(s); }
  }

  lemma {:induction false} BranchParts(s: Stmt, inLoop: bool)
    requires s.IfElse?
    ensures ExitsOk(s, inLoop) == (ExitsOk(s.thn, inLoop) && ExitsOk(s.els, inLoop)) && Gotos(s) == Gotos(s.thn) + Gotos(s.els)
  {
  }

  lemma {:induction false} InBranches(w: World, s: Stmt, pc: int, sc: Scope)
    requires s.IfElse? && In(w, s, pc, sc)
    ensures In(w, s.thn, pc + 1, sc) && In(w, s.els, pc + 2 + Size(s.thn, sc, w.tab), sc)
  {
    hide *;
    InIs(w, s, pc, sc);
    PlacedIfElse(w.im, s, pc, sc, w.tab);
    ScopedBranches(s, sc, w.tab);
    BranchParts(s, sc.loops != []);
    JumpsOkTwo(s, s.thn, s.els, w.tab);
    InIs(w, s.thn, pc + 1, sc);
    InIs(w, s.els, pc + 2 + Size(s.thn, sc, w.tab), sc);
  }

  lemma {:induction false} BranchCode(w: World, s: Stmt, pc: int, sc: Scope)
    requires s.IfElse? && In(w, s, pc, sc)
    ensures var mid := pc + 1 + Size(s.thn, sc, w.tab);
            w.im.At(pc, ICond(s.cond, ElseBegin(s.id), -1)) && w.im.At(mid, IGoto(ElseEnd(s.id), -1)) &&
            w.im.LabAt(ElseBegin(s.id), mid + 1) && w.im.LabAt(ElseEnd(s.id), mid + 1 + Size(s.els, sc, w.tab)) &&
            pc + Size(s, sc, w.tab) == mid + 1 + Size(s.els, sc, w.tab)
  {
    hide Scoped, Gotos, ExitsOk, Image.At, Image.LabAt;
  }

  lemma {:induction false} EnterThen(w: World, s: Stmt, pc: int, k: Cont)
    requires s.IfElse? && In(w, s, pc, ScopeOf(k)) && ContAt(w, k, pc + Size(s, ScopeOf(k), w.tab))
    ensures In(w, s.thn, pc + 1, ScopeOf(ThenK(s, k))) && ContAt(w, ThenK(s, k), pc + 1 + Size(s.thn, ScopeOf(ThenK(s, k)), w.tab))
  {
    hide In, Size, Image.At, Image.LabAt;
    ScopeOfFrames(ThenK(s, k));
    InBranches(w, s, pc, ScopeOf(k));
    BranchCode(w, s, pc, ScopeOf(k));
  }

  lemma {:induction false} EnterElse(w: World, s: Stmt, pc: int, sc: Scope)
    requires s.IfElse? && In(w, s, pc, sc)
    ensures w.im.At(pc, ICond(s.cond, ElseBegin(s.id), -1)) && w.im.LabAt(ElseBegin(s.id), pc + 2 + Size(s.thn, sc, w.tab))
    ensures In(w, s.els, pc + 2 + Size(s.thn, sc, w.tab), sc)
  {
    hide *;
    InBranches(w, s, pc, sc);
    BranchCode(w, s, pc, sc);
  }

  lemma {:induction false} EnterLoop(w: World, s: Stmt, pc: int, k: Cont)
    requires s.While? && In(w, s, pc, ScopeOf(k)) && ContAt(w, k, pc + Size(s, ScopeOf(k), w.tab))
    ensures In(w, s.body, pc + 1, ScopeOf(LoopK(s, k))) && ContAt(w, LoopK(s, k), pc + 1 + Size(s.body, ScopeOf(LoopK(s, k)), w.tab))
    ensures w.im.At(pc, ICond(s.cond, LoopEnd(s.id), -1)) && w.im.LabAt(LoopEnd(s.id), pc + Size(s, ScopeOf(k), w.tab))
  {
    ScopeOfFrames(LoopK(s, k));
    assert forall g :: g in Gotos(s.body) ==> g in Gotos(s);
  }

  lemma {:induction false} TryParts(s: Stmt, sc: Scope, inLoop: bool)
    requires s.TryCatch?
    ensures ExitsOk(s, inLoop) == (ExitsOk(s.body, inLoop) && ExitsOk(s.handler, inLoop)) && Gotos(s) == Gotos(s.body) + Gotos(s.handler)
    ensures forall arm :: sc.Within(arm).loops == sc.loops
  {
  }

  lemma {:induction false} InTryCatch(w: World, s: Stmt, pc: int, sc: Scope)
    requires s.TryCatch? && In(w, s, pc, sc)
    ensures In(w, s.body, pc + 1, sc.Within(Arm(s.id, true)))
    ensures In(w, s.handler, pc + 3 + Size(s.body, sc.Within(Arm(s.id, true)), w.tab), sc.Within(Arm(s.id, false)))
  {
    hide *;
    InIs(w, s, pc, sc);
    PlacedTry(w.im, s, pc, sc, w.tab);
    ScopedTry(s, sc, w.tab);
    TryParts(s, sc, sc.loops != []);
    JumpsOkTwo(s, s.body, s.handler, w.tab);
    InIs(w, s.body, pc + 1, sc.Within(Arm(s.id, true)));
    InIs(w, s.handler, pc + 3 + Size(s.body, sc.Within(Arm(s.id, true)), w.tab), sc.Within(Arm(s.id, false)));
  }

  lemma {:induction false} TryCode(w: World, s: Stmt, pc: int, sc: Scope)
    requires s.TryCatch? && In(w, s, pc, sc)
    ensures var mid := pc + 1 + Size(s.body, sc.Within(Arm(s.id, true)), w.tab);
            var end := mid + 2 + Size(s.handler, sc.Within(Arm(s.id, false)), w.tab);
            w.im.At(pc, ISave(CatchBegin(s.id), -1)) && w.im.At(mid, IFull) && w.im.At(mid + 1, IGoto(CatchEnd(s.id), -1)) &&
            w.im.LabAt(CatchBegin(s.id), mid + 2) && w.im.At(end, IPartial) && w.im.LabAt(CatchEnd(s.id), end + 1) &&
            pc + Size(s, sc, w.tab) == end + 1
  {
    hide Scoped, Gotos, ExitsOk, Image.At, Image.LabAt;
  }

  lemma {:induction false} EnterTry(w: World, s: Stmt, pc: int, k: Cont)
    requires s.TryCatch? && In(w, s, pc, ScopeOf(k)) && ContAt(w, k, pc + Size(s, ScopeOf(k), w.tab))
    ensures In(w, s.body, pc + 1, ScopeOf(TryK(s, k))) && ContAt(w, TryK(s, k), pc + 1 + Size(s.body, ScopeOf(TryK(s, k)), w.tab))
    ensures w.im.At(pc, ISave(CatchBegin(s.id), -1)) && CatchBegin(s.id) in w.im.labels
  {
    hide In, Size, Image.At;
    ScopeOfFrames(TryK(s, k));
    TryCode(w, s, pc, ScopeOf(k));
    InTryCatch(w, s, pc, ScopeOf(k));
  }

  lemma {:induction false} EnterCatch(w: World, s: Stmt, e: int, pc: int, k: Cont)
    requires s.TryCatch? && ContAt(w, TryK(s, k), pc)
    ensures In(w, s.handler, pc + 2, ScopeOf(CatchK(s, e, k)))
    ensures ContAt(w, CatchK(s, e, k), pc + 2 + Size(s.handler, ScopeOf(CatchK(s, e, k)), w.tab))
  {
    hide In, Size, Image.At, Image.LabAt;
    ScopeOfFrames(CatchK(s, e, k));
  }

  // ---- Finding a label ----

  /** The label's continuation starts where the label's code position is, in the recorded scope. */
  ghost predicate Found(w: World, name: string, k: Cont) {
    User(name) in w.im.labels && ContAt(w, k, w.im.labels[User(name)]) &&
    name in w.tab.labels && w.tab.Knows(w.tab.labels[name], ScopeOf(k))
  }

  lemma {:induction false} FindLabelAt(w: World, s: Stmt, pc: int, name: string, k: Cont)
    requires In(w, s, pc, ScopeOf(k)) && ContAt(w, k, pc + Size(s, ScopeOf(k), w.tab))
    ensures FindLabel(s, name, k).Some? <==> name in Names(s)
    ensures FindLabel(s, name, k).Some? ==> Found(w, name, FindLabel(s, name, k).value)
    decreases s
  {
    hide In, ContAt, Found, Size, ScopeOf;
    match s
    case Label(_, _) => FoundHere(w, s, pc, k);
    case Then(a, b) =>
      EnterSeq(w, a, b, pc, k);
      SizeThen(a, b, ScopeOf(k), w.tab);
      FindLabelAt(w, a, pc, name, Seq(b, k));
      FindLabelAt(w, b, pc + Size(a, ScopeOf(k), w.tab), name, k);
    case If(_, _, thn) =>
      EnterIf(w, s, pc, ScopeOf(k));
      SizeIf(s, ScopeOf(k), w.tab);
      FindLabelAt(w, thn, pc + 1, name, k);
    case IfElse(_, _, thn, els) =>
      EnterThen(w, s, pc, k);
      EnterElse(w, s, pc, ScopeOf(k));
      SizeIf(s, ScopeOf(k), w.tab);
      FindLabelAt(w, thn, pc + 1, name, ThenK(s, k));
      FindLabelAt(w, els, pc + 2 + Size(thn, ScopeOf(k), w.tab), name, k);
    case While(_, _, body) =>
      EnterLoop(w, s, pc, k);
      FindLabelAt(w, body, pc + 1, name, LoopK(s, k));
    case TryCatch(_, body, handler) =>
      EnterTry(w, s, pc, k);
      FindLabelAt(w, body, pc + 1, name, TryK(s, k));
      var end := pc + 1 + Size(body, ScopeOf(TryK(s, k)), w.tab);
      EnterCatch(w, s, 0, end, k);
      FindLabelAt(w, handler, end + 2, name, CatchK(s, 0, k));
    case _ =>
  }

  lemma {:induction false} FoundHere(w: World, s: Stmt, pc: int, k: Cont)
    requires s.Label? && In(w, s, pc, ScopeOf(k)) && ContAt(w, k, pc + Size(s, ScopeOf(k), w.tab))
    ensures Found(w, s.name, k)
  {
  }

  lemma {:induction false} SizeThen(a: Stmt, b: Stmt, sc: Scope, tab: Table)
    ensures Size(Then(a, b), sc, tab) == Size(a, sc, tab) + Size(b, sc, tab)
  {
  }

  lemma {:induction false} SizeIf(s: Stmt, sc: Scope, tab: Table)
    ensures s.If? ==> Size(s, sc, tab) == 1 + Size(s.thn, sc, tab)
    ensures s.IfElse? ==> Size(s, sc, tab) == 2 + Size(s.thn, sc, tab) + Size(s.els, sc, tab)
  {
  }

  lemma {:induction false} RefillAt(w: World, k: Cont, frames: seq<Frame>, pc: int)
    requires ContAt(w, k, pc)
    ensures ContAt(w, Refill(k, frames), pc) && ScopeOf(Refill(k, frames)) == ScopeOf(k)
    decreases k
  {
    hide In, Size, Image.At, Image.LabAt;
    match k
    case Stop =>
    case Seq(next, k') => RefillAt(w, k', frames, pc + Size(next, ScopeOf(k'), w.tab));
    case LoopK(_, k') => RefillAt(w, k', frames, pc + 1);
    case ThenK(branch, k') => RefillAt(w, k', frames, pc + 1 + Size(branch.els, ScopeOf(k'), w.tab));
    case TryK(tc, k') =>
      RefillAt(w, k', frames, pc + 3 + Size(tc.handler, ScopeOf(k').Within(Arm(tc.id, false)), w.tab));
      ScopeOfFrames(k);
      ScopeOfFrames(Refill(k, frames));
    case CatchK(_, _, k') =>
      RefillAt(w, k', frames, pc + 1);
      ScopeOfFrames(k);
      ScopeOfFrames(Refill(k, frames));
  }

  // ---- Runs of the machine ----

  lemma {:induction false} StepsAdd(code: seq<Instr>, st: Setting, m: State, a: nat, b: nat)
    ensures MSteps(code, st, m, a + b) == MSteps(code, st, MSteps(code, st, m, a), b)
    decreases a
  {
    if a > 0 { StepsAdd(code, st, MStep(code, st, m), a - 1, b); }
  }

  lemma {:induction false} StepsFixed(code: seq<Instr>, st: Setting, m: State, n: nat)
    requires !m.Live?
    ensures MSteps(code, st, m, n) == m
    decreases n
  {
    if n > 0 { StepsFixed(code, st, m, n - 1); }
  }

  lemma {:induction false} TwoSteps(code: seq<Instr>, st: Setting, m: State)
    ensures MSteps(code, st, m, 1) == MStep(code, st, m)
    ensures MSteps(code, st, m, 2) == MStep(code, st, MStep(code, st, m))
  {
    assert MSteps(code, st, MStep(code, st, m), 1) == MStep(code, st, MStep(code, st, m));
  }

  /** The restore instructions in front of a jump leave exactly the arms the jump leaves. */
  lemma {:induction false} CleanupSim(w: World, frames: seq<Frame>, m: Regs, depth: nat) returns (m': Regs)
    requires w.im.linked && StackOk(w, frames, m) && depth <= |frames| && Cleans(w.im, m.pc, ArmsOf(frames), depth)
    ensures MSteps(w.im.code, w.st, Live(m), |frames| - depth) == Live(m') && StackOk(w, frames[..depth], m')
    ensures m'.pc == m.pc + |frames| - depth && m'.trace == m.trace && m'.returned == m.returned
    decreases |frames|
  {
    hide StackOk;
    if |frames| == depth {
      assert frames[..depth] == frames;
      m' := m;
    } else {
      var n := |frames| - 1;
      RestoreOk(w, frames, m);
      var m1 := MStep(w.im.code, w.st, Live(m)).r;
      assert ArmsOf(frames)[..n] == ArmsOf(frames[..n]);
      m' := CleanupSim(w, frames[..n], m1, depth);
      assert frames[..n][..depth] == frames[..depth];
    }
  }

  // ---- One step of the program ----

  function Weight(s: Stmt): nat {
    match s
    case Then(a, b) => Weight(a) + Weight(b) + 2
    case Label(_, _) => 2
    case _ => 1
  }

  /** Decreases when a program step needs no machine step. */
  function Pending(k: Cont): nat {
    match k
    case Seq(next, k') => Weight(next) + 1 + Pending(k')
    case _ => 0
  }

  function Measure(c: Config): nat { if c.Running? then Weight(c.s) + Pending(c.k) else 0 }

  lemma {:induction false} SkipIn(w: World, pc: int, sc: Scope)
    ensures In(w, Skip, pc, sc) && Size(Skip, sc, w.tab) == 0
  {
  }

  lemma {:induction false} StopSim(w: World, m: Regs, trace: Trace)
    requires m.pc == |w.im.code| && Mirrors(w, [], m.errors) && m.trace == trace
    ensures Match(w, Halted(m.returned, trace), MStep(w.im.code, w.st, Live(m)))
  {
  }

  /** A jump to where the rest of the program starts. */
  lemma {:induction false} JumpSim(w: World, k: Cont, lab: Lab, m: Regs)
    requires w.im.linked && w.im.At(m.pc, IGoto(lab, -1)) && lab in w.im.labels && ContAt(w, k, w.im.labels[lab])
    requires StackOk(w, Frames(k), m) && !m.returned
    ensures Match(w, Running(Skip, k, m.trace), MStep(w.im.code, w.st, Live(m)))
  {
    hide ContAt, Mirrors, Frames, In, Size, Top, TopHandler, CurrentError, NextActive;
    SkipIn(w, w.im.labels[lab], ScopeOf(k));
  }

  lemma {:induction false} LoopSim(w: World, k: Cont, pc: int, m: Regs)
    requires w.im.linked && k.LoopK? && ContAt(w, k, pc) && w.im.At(m.pc, IGoto(LoopBegin(k.loop.id), -1))
    requires StackOk(w, Frames(k.k), m) && !m.returned
    ensures Match(w, Running(k.loop, k.k, m.trace), MStep(w.im.code, w.st, Live(m)))
  {
    hide Mirrors, Frames, In, Top, TopHandler, CurrentError, NextActive;
  }

  lemma {:induction false} TryEndSim(w: World, k: Cont, m: Regs)
    requires w.im.linked && k.TryK? && ContAt(w, k, m.pc) && StackOk(w, Frames(k), m) && !m.returned
    ensures Match(w, Running(Skip, k.k, m.trace), MSteps(w.im.code, w.st, Live(m), 2))
  {
    hide Mirrors, In, Size, Top, TopHandler, CurrentError, NextActive, StackOk, Match;
    RestoreOk(w, Frames(k), m);
    var m1 := MStep(w.im.code, w.st, Live(m)).r;
    assert Frames(k)[..|Frames(k)| - 1] == Frames(k.k);
    JumpSim(w, k.k, CatchEnd(k.tc.id), m1);
    TwoSteps(w.im.code, w.st, Live(m));
  }

  lemma {:induction false} CatchEndSim(w: World, k: Cont, m: Regs)
    requires w.im.linked && k.CatchK? && ContAt(w, k, m.pc) && StackOk(w, Frames(k), m) && !m.returned
    ensures Match(w, Running(Skip, k.k, m.trace), MStep(w.im.code, w.st, Live(m)))
  {
    hide Mirrors, In, Size, Top, TopHandler, CurrentError, NextActive, StackOk;
    RestoreOk(w, Frames(k), m);
    assert Frames(k)[..|Frames(k)| - 1] == Frames(k.k);
    SkipIn(w, m.pc + 1, ScopeOf(k.k));
  }

  lemma {:induction false} SkipSim(w: World, k: Cont, m: Regs) returns (n: nat)
    requires Valid(w) && Match(w, Running(Skip, k, m.trace), Live(m))
    ensures Match(w, Step(w.st, Running(Skip, k, m.trace)), MSteps(w.im.code, w.st, Live(m), n))
    ensures (n > 0 || k.Seq?) && n <= 2
  {
    hide Mirrors, In, Top, TopHandler, CurrentError, NextActive, Placed, Scoped, ExitsOk, Gotos;
    SkipIn(w, m.pc, ScopeOf(k));
    ScopeOfFrames(k);
    match k
    case Stop => StopSim(w, m, m.trace); n := 1;
    case Seq(next, k') => n := 0;
    case LoopK(_, _) => LoopSim(w, k, m.pc, m); n := 1;
    case ThenK(branch, k') => JumpSim(w, k', ElseEnd(branch.id), m); n := 1;
    case TryK(_, _) => TryEndSim(w, k, m); n := 2;
    case CatchK(_, _, _) => CatchEndSim(w, k, m); n := 1;
  }

  /** A data statement: either an error takes over, or the machine stands behind the instruction. */
  lemma {:induction false} RunSim(w: World, k: Cont, pc: int, m: Regs, op: int, isReturn: bool, ok: bool, resume: Config)
    requires w.im.linked && w.im.At(m.pc, if isReturn then IReturn(op) else IExec(op))
    requires ContAt(w, k, pc) && StackOk(w, Frames(k), m) && !m.returned
    requires var ev := Ran(op, m.current);
             ok == !w.st.oracle(m.trace, ev).Raised? && (!ok ==> Match(w, resume, Live(m.(trace := m.trace + [ev], pc := m.pc + 1))))
    ensures var ev := Ran(op, m.current);
            var m' := MStep(w.im.code, w.st, Live(m));
            if ok then m' == Live(m.(trace := m.trace + [ev], pc := m.pc + 1, returned := isReturn))
            else var r := w.st.oracle(m.trace, ev);
                 Match(w, Raise(w.st, r.err, r.severity, k, m.trace + [ev], resume), m')
  {
    hide Match, ContAt, Frames, RaiseError, Raise, CurrentError, Mirrors, Top, TopHandler;
    var ev := Ran(op, m.current);
    if !ok {
      var m1 := m.(trace := m.trace + [ev]);
      assert m1.(pc := m.pc + 1) == m.(trace := m.trace + [ev], pc := m.pc + 1);
      RaiseSim(w, k, pc, m1, w.st.oracle(m.trace, ev).err, w.st.oracle(m.trace, ev).severity, resume);
    }
  }

  lemma {:induction false} BasicSim(w: World, k: Cont, op: int, m: Regs)
    requires Valid(w) && Match(w, Running(Basic(op), k, m.trace), Live(m))
    ensures Match(w, Step(w.st, Running(Basic(op), k, m.trace)), MStep(w.im.code, w.st, Live(m)))
  {
    hide Mirrors, Top, TopHandler, CurrentError, NextActive, Frames, ContAt, Raise;
    var ev := Ran(op, m.current);
    var t := m.trace + [ev];
    SkipIn(w, m.pc + 1, ScopeOf(k));
    assert Match(w, Running(Skip, k, t), Live(m.(trace := t, pc := m.pc + 1)));
    RunSim(w, k, m.pc + 1, m, op, false, !w.st.oracle(m.trace, ev).Raised?, Running(Skip, k, t));
  }

  /** The registers after a condition, at a position where the configuration's code stands. */
  lemma {:induction false} MovedOk(w: World, s: Stmt, k: Cont, m: Regs, t: Trace, pc: int)
    requires In(w, s, pc, ScopeOf(k)) && ContAt(w, k, pc + Size(s, ScopeOf(k), w.tab)) && StackOk(w, Frames(k), m) && !m.returned
    ensures Match(w, Running(s, k, t), Live(m.(trace := t, pc := pc)))
  {
    hide Mirrors, Top, TopHandler, CurrentError, NextActive, Frames, ContAt, In, Size;
  }

  lemma {:induction false} IfSim(w: World, s: Stmt, k: Cont, m: Regs)
    requires Valid(w) && s.If? && Match(w, Running(s, k, m.trace), Live(m))
    ensures Match(w, Step(w.st, Running(s, k, m.trace)), MStep(w.im.code, w.st, Live(m)))
  {
    hide Mirrors, Top, TopHandler, CurrentError, NextActive, Frames, ContAt, In, Test, Raise, ScopeOf, Size, MStep;
    var t := m.trace + [Tested(s.cond, m.current)];
    var end := m.pc + Size(s, ScopeOf(k), w.tab);
    EnterIf(w, s, m.pc, ScopeOf(k));
    SizeIf(s, ScopeOf(k), w.tab);
    MovedOk(w, s.thn, k, m, t, m.pc + 1);
    SkipIn(w, end, ScopeOf(k));
    MovedOk(w, Skip, k, m, t, end);
    hide Match;
    TestSim(w, k, end, m, s.cond, ElseEnd(s.id), end, t => Running(s.thn, k, t), t => Running(Skip, k, t));
  }

  lemma {:induction false} FramesSame(k: Cont)
    ensures k.Seq? ==> Frames(k) == Frames(k.k)
    ensures k.ThenK? ==> Frames(k) == Frames(k.k)
    ensures k.LoopK? ==> Frames(k) == Frames(k.k)
  {
  }

  lemma {:induction false} IfElseSim(w: World, s: Stmt, k: Cont, m: Regs)
    requires Valid(w) && s.IfElse? && Match(w, Running(s, k, m.trace), Live(m))
    ensures Match(w, Step(w.st, Running(s, k, m.trace)), MStep(w.im.code, w.st, Live(m)))
  {
    hide Mirrors, Top, TopHandler, CurrentError, NextActive, Frames, ContAt, In, Test, Raise, ScopeOf, Size, MStep;
    var t := m.trace + [Tested(s.cond, m.current)];
    var mid := m.pc + 2 + Size(s.thn, ScopeOf(k), w.tab);
    EnterThen(w, s, m.pc, k);
    EnterElse(w, s, m.pc, ScopeOf(k));
    SizeIf(s, ScopeOf(k), w.tab);
    FramesSame(ThenK(s, k));
    MovedOk(w, s.thn, ThenK(s, k), m, t, m.pc + 1);
    MovedOk(w, s.els, k, m, t, mid);
    hide Match;
    TestSim(w, k, m.pc + Size(s, ScopeOf(k), w.tab), m, s.cond, ElseBegin(s.id), mid, t => Running(s.thn, ThenK(s, k), t), t => Running(s.els, k, t));
  }

  lemma {:induction false} WhileSim(w: World, s: Stmt, k: Cont, m: Regs)
    requires Valid(w) && s.While? && Match(w, Running(s, k, m.trace), Live(m))
    ensures Match(w, Step(w.st, Running(s, k, m.trace)), MStep(w.im.code, w.st, Live(m)))
  {
    hide Mirrors, Top, TopHandler, CurrentError, NextActive, Frames, ContAt, In, Test, Raise, ScopeOf, Size, MStep;
    var t := m.trace + [Tested(s.cond, m.current)];
    var end := m.pc + Size(s, ScopeOf(k), w.tab);
    EnterLoop(w, s, m.pc, k);
    FramesSame(LoopK(s, k));
    MovedOk(w, s.body, LoopK(s, k), m, t, m.pc + 1);
    SkipIn(w, end, ScopeOf(k));
    MovedOk(w, Skip, k, m, t, end);
    hide Match;
    TestSim(w, k, end, m, s.cond, LoopEnd(s.id), end, t => Running(s.body, LoopK(s, k), t), t => Running(Skip, k, t));
  }

  lemma {:induction false} TrySim(w: World, s: Stmt, k: Cont, m: Regs)
    requires Valid(w) && s.TryCatch? && Match(w, Running(s, k, m.trace), Live(m))
    ensures Match(w, Step(w.st, Running(s, k, m.trace)), MStep(w.im.code, w.st, Live(m)))
  {
    hide Mirrors, Top, TopHandler, CurrentError, NextActive, ContAt, In, ScopeOf, Size, StackOk;
    EnterTry(w, s, m.pc, k);
    SaveOk(w, Frames(k), m, s.id, w.im.labels[CatchBegin(s.id)]);
    assert Frames(TryK(s, k)) == Frames(k) + [Frame(Arm(s.id, true), 0)];
  }

  // ---- Jumps ----

  lemma {:induction false} LoopAround(w: World, k: Cont, pc: int)
    requires ContAt(w, k, pc) && LoopsOf(k) != []
    ensures var l := InnerLoop(k);
            l.LoopK? && l.loop.While? && LoopsOf(k)[|LoopsOf(k)| - 1] == l.loop.id &&
            |Frames(l.k)| <= |Frames(k)| && Frames(k)[..|Frames(l.k)|] == Frames(l.k)
    ensures exists pc' :: ContAt(w, InnerLoop(k), pc')
    decreases k
  {
    hide In, Size, Image.At, Image.LabAt, ScopeOf;
    match k
    case LoopK(_, k') => assert Frames(k)[..|Frames(k')|] == Frames(k');
    case Seq(next, k') => LoopAround(w, k', pc + Size(next, ScopeOf(k'), w.tab));
    case ThenK(branch, k') => LoopAround(w, k', pc + 1 + Size(branch.els, ScopeOf(k'), w.tab));
    case TryK(tc, k') => LoopAround(w, k', pc + 3 + Size(tc.handler, ScopeOf(k').Within(Arm(tc.id, false)), w.tab));
    case CatchK(_, _, k') => LoopAround(w, k', pc + 1);
  }

  lemma {:induction false} LoopFacts(w: World, l: Cont, pc: int)
    requires l.LoopK? && ContAt(w, l, pc)
    ensures w.tab.Depth(l.loop.id) == |Frames(l.k)| && w.im.LabAt(LoopEnd(l.loop.id), pc + 1) && ContAt(w, l.k, pc + 1)
  {
  }

  lemma {:induction false} ExitCode(w: World, s: Stmt, pc: int, k: Cont)
    requires s.Exit? && In(w, s, pc, ScopeOf(k))
    ensures LoopsOf(k) != [] && Cleans(w.im, pc, ArmsOf(Frames(k)), w.tab.Depth(LoopsOf(k)[|LoopsOf(k)| - 1]))
    ensures var id := LoopsOf(k)[|LoopsOf(k)| - 1];
            w.im.At(pc + Excess(ArmsOf(Frames(k)), w.tab.Depth(id)), IGoto(if s.isBreak then LoopEnd(id) else LoopBegin(id), -1))
  {
  }

  lemma {:induction false} ExitSim(w: World, s: Stmt, k: Cont, m: Regs) returns (n: nat)
    requires Valid(w) && s.Exit? && Match(w, Running(s, k, m.trace), Live(m))
    ensures n > 0 && Match(w, Step(w.st, Running(s, k, m.trace)), MSteps(w.im.code, w.st, Live(m), n))
    ensures n <= |Frames(k)| + 1
  {
    hide Mirrors, Top, TopHandler, CurrentError, NextActive, In, Size, StackOk, Frames, ContAt, LoopsOf, InnerLoop, Cleans, MSteps, MStep;
    var here := m.pc + Size(s, ScopeOf(k), w.tab);
    ExitCode(w, s, m.pc, k);
    LoopAround(w, k, here);
    var l := InnerLoop(k);
    var pc :| ContAt(w, l, pc);
    LoopFacts(w, l, pc);
    var depth := |Frames(l.k)|;
    var m' := CleanupSim(w, Frames(k), m, depth);
    n := |Frames(k)| - depth + 1;
    StepsAdd(w.im.code, w.st, Live(m), n - 1, 1);
    TwoSteps(w.im.code, w.st, Live(m'));
    hide Match;
    if s.isBreak {
      JumpSim(w, l.k, LoopEnd(l.loop.id), m');
    } else {
      LoopSim(w, l, pc, m');
    }
  }

  lemma {:induction false} ErrorsOfTry(k: Cont)
    ensures forall i :: 0 <= i < |Frames(k)| && Frames(k)[i].arm.inTry ==> Frames(k)[i].err == 0
  {
    match k
    case Stop =>
    case _ => ErrorsOfTry(k.k);
  }

  /** A jump outwards keeps the errors of the CATCH arms it stays in. */
  lemma {:induction false} RefillFrames(w: World, k: Cont, frames: seq<Frame>, pc: int)
    requires ContAt(w, k, pc) && ArmsOf(Frames(k)) <= ArmsOf(frames)
    requires forall i :: 0 <= i < |frames| && frames[i].arm.inTry ==> frames[i].err == 0
    ensures Frames(Refill(k, frames)) == frames[..|Frames(k)|]
    decreases k
  {
    hide In, Size, Image.At, Image.LabAt, ScopeOf;
    match k
    case Stop =>
    case Seq(next, k') => RefillFrames(w, k', frames, pc + Size(next, ScopeOf(k'), w.tab));
    case LoopK(_, k') => RefillFrames(w, k', frames, pc + 1);
    case ThenK(branch, k') => RefillFrames(w, k', frames, pc + 1 + Size(branch.els, ScopeOf(k'), w.tab));
    case TryK(tc, k') =>
      PrefixArms(Frames(k'), Frame(Arm(tc.id, true), 0), frames);
      RefillFrames(w, k', frames, pc + 3 + Size(tc.handler, ScopeOf(k').Within(Arm(tc.id, false)), w.tab));
    case CatchK(tc, e, k') =>
      PrefixArms(Frames(k'), Frame(Arm(tc.id, false), e), frames);
      RefillFrames(w, k', frames, pc + 1);
  }

  lemma {:induction false} PrefixArms(xs: seq<Frame>, f: Frame, frames: seq<Frame>)
    requires ArmsOf(xs + [f]) <= ArmsOf(frames)
    ensures |xs| < |frames| && frames[|xs|].arm == f.arm && ArmsOf(xs) <= ArmsOf(frames)
    ensures frames[..|xs| + 1] == frames[..|xs|] + [frames[|xs|]]
  {
    assert ArmsOf(xs + [f])[|xs|] == ArmsOf(frames)[|xs|];
    assert forall i :: 0 <= i < |xs| ==> ArmsOf(xs)[i] == ArmsOf(xs + [f])[i];
  }

  lemma {:induction false} GotoFinds(w: World, s: Stmt, k: Cont, pc: int)
    requires Valid(w) && s.Goto? && In(w, s, pc, ScopeOf(k))
    ensures var r := FindLabel(w.st.program, s.target, Stop);
            r.Some? && Found(w, s.target, r.value) &&
            ArmsOf(Frames(r.value)) <= ArmsOf(Frames(k)) && w.tab.LabelDepth(s.target) == |Frames(r.value)|
  {
    hide FindLabel, Frames, LoopsOf, ContAt, Placed;
    assert Jump(s.id, s.target) in Gotos(s) && JumpOk(Jump(s.id, s.target), w.tab);
    StartIn(w);
    FindLabelAt(w, w.st.program, 0, s.target, Stop);
    assert s.target in w.tab.labels.Keys;
  }

  lemma {:induction false} StartIn(w: World)
    requires Valid(w)
    ensures In(w, w.st.program, 0, ScopeOf(Stop)) && ContAt(w, Stop, 0 + Size(w.st.program, ScopeOf(Stop), w.tab))
  {
    assert ScopeOf(Stop) == ROOT;
  }

  lemma {:induction false} GotoCode(w: World, s: Stmt, pc: int, k: Cont)
    requires s.Goto? && In(w, s, pc, ScopeOf(k))
    ensures Cleans(w.im, pc, ArmsOf(Frames(k)), w.tab.LabelDepth(s.target))
    ensures w.im.At(pc + Excess(ArmsOf(Frames(k)), w.tab.LabelDepth(s.target)), IGoto(User(s.target), -1))
  {
  }

  lemma {:induction false} GotoSim(w: World, s: Stmt, k: Cont, m: Regs) returns (n: nat)
    requires Valid(w) && s.Goto? && Match(w, Running(s, k, m.trace), Live(m))
    ensures n > 0 && Match(w, Step(w.st, Running(s, k, m.trace)), MSteps(w.im.code, w.st, Live(m), n))
    ensures n <= |Frames(k)| + 1
  {
    hide Mirrors, Top, TopHandler, CurrentError, NextActive, In, Size, StackOk, Frames, ContAt, FindLabel, Refill, Cleans, MSteps, MStep;
    GotoCode(w, s, m.pc, k);
    GotoFinds(w, s, k, m.pc);
    var k' := FindLabel(w.st.program, s.target, Stop).value;
    var at := w.im.labels[User(s.target)];
    ErrorsOfTry(k);
    RefillFrames(w, k', Frames(k), at);
    RefillAt(w, k', Frames(k), at);
    var depth := |Frames(k')|;
    assert depth == |ArmsOf(Frames(k'))| <= |ArmsOf(Frames(k))| == |Frames(k)|;
    var m' := CleanupSim(w, Frames(k), m, depth);
    n := |Frames(k)| - depth + 1;
    StepsAdd(w.im.code, w.st, Live(m), n - 1, 1);
    TwoSteps(w.im.code, w.st, Live(m'));
    hide Match;
    JumpSim(w, Refill(k', Frames(k)), User(s.target), m');
  }

  lemma {:induction false} ReturnCode(w: World, s: Stmt, pc: int, k: Cont)
    requires s.Return? && In(w, s, pc, ScopeOf(k))
    ensures w.im.At(pc, IReturn(s.op)) && Cleans(w.im, pc + 1, ArmsOf(Frames(k)), 0)
    ensures w.im.At(pc + 1 + |Frames(k)|, IGoto(EndOfProc, -1))
  {
  }

  /** After RETURN: every context is released and the executor finishes. */
  lemma {:induction false} LeaveSim(w: World, k: Cont, m: Regs)
    requires Valid(w) && StackOk(w, Frames(k), m) && Cleans(w.im, m.pc, ArmsOf(Frames(k)), 0)
    requires w.im.At(m.pc + |Frames(k)|, IGoto(EndOfProc, -1))
    ensures MSteps(w.im.code, w.st, Live(m), |Frames(k)| + 2) == Done(m.returned, [], m.trace)
  {
    hide Top, TopHandler, CurrentError, NextActive, Frames, Cleans, MSteps, Placed, Scoped, ExitsOk, Gotos, Size;
    var m' := CleanupSim(w, Frames(k), m, 0);
    StepsAdd(w.im.code, w.st, Live(m), |Frames(k)|, 2);
    TwoSteps(w.im.code, w.st, Live(m'));
    assert m'.errors == [];
  }

  lemma {:induction false} ReturnSim(w: World, s: Stmt, k: Cont, m: Regs) returns (n: nat)
    requires Valid(w) && s.Return? && Match(w, Running(s, k, m.trace), Live(m))
    ensures n > 0 && Match(w, Step(w.st, Running(s, k, m.trace)), MSteps(w.im.code, w.st, Live(m), n))
    ensures n <= |Frames(k)| + 3
  {
    hide Mirrors, Top, TopHandler, CurrentError, NextActive, In, Size, Frames, ContAt, Cleans, MSteps, MStep;
    var ev := Ran(s.op, m.current);
    var t := m.trace + [ev];
    var r := w.st.oracle(m.trace, ev);
    var here := m.pc + Size(s, ScopeOf(k), w.tab);
    ReturnCode(w, s, m.pc, k);
    if r.Raised? && (!r.severity.Ignorable? || CountsAsTry(Frames(k), w.st.outerTry)) {
      // The error takes over, whatever would follow the statement.
      ReturnRaises(w, s, k, m);
      n := 1;
      TwoSteps(w.im.code, w.st, Live(m));
    } else {
      var m1 := m.(trace := t, pc := m.pc + 1, returned := !r.Raised?);
      ReturnPasses(w, s, k, m);
      LeaveSim(w, k, m1);
      n := |Frames(k)| + 3;
      StepsAdd(w.im.code, w.st, Live(m), 1, n - 1);
      TwoSteps(w.im.code, w.st, Live(m));
    }
  }

  lemma {:induction false} ReturnRaises(w: World, s: Stmt, k: Cont, m: Regs)
    requires Valid(w) && s.Return? && Match(w, Running(s, k, m.trace), Live(m)) && w.im.At(m.pc, IReturn(s.op))
    requires var r := w.st.oracle(m.trace, Ran(s.op, m.current));
             r.Raised? && (!r.severity.Ignorable? || CountsAsTry(Frames(k), w.st.outerTry))
    ensures Match(w, Step(w.st, Running(s, k, m.trace)), MStep(w.im.code, w.st, Live(m)))
  {
    hide Mirrors, Top, TopHandler, CurrentError, NextActive, In, Size, Frames, ContAt, InnerTry, Arrive, CountsAsTry, InTryBlock;
    var ev := Ran(s.op, m.current);
    var m1 := m.(trace := m.trace + [ev]);
    var r := w.st.oracle(m.trace, ev);
    TryBlockAgrees(w, Frames(k), m1);
    RaiseTaken(w, k, m.pc + Size(s, ScopeOf(k), w.tab), m1, r.err, r.severity, Halted(false, m1.trace));
  }

  lemma {:induction false} ReturnPasses(w: World, s: Stmt, k: Cont, m: Regs)
    requires Valid(w) && s.Return? && Match(w, Running(s, k, m.trace), Live(m)) && w.im.At(m.pc, IReturn(s.op))
    requires var r := w.st.oracle(m.trace, Ran(s.op, m.current));
             r.Raised? ==> r.severity.Ignorable? && !CountsAsTry(Frames(k), w.st.outerTry)
    ensures var ev := Ran(s.op, m.current);
            var ok := !w.st.oracle(m.trace, ev).Raised?;
            MStep(w.im.code, w.st, Live(m)) == Live(m.(trace := m.trace + [ev], pc := m.pc + 1, returned := ok)) &&
            Step(w.st, Running(s, k, m.trace)) == Halted(ok, m.trace + [ev])
  {
    hide Mirrors, Top, TopHandler, CurrentError, NextActive, In, Size, Frames, ContAt, InnerTry, Arrive, CountsAsTry, InTryBlock;
    TryBlockAgrees(w, Frames(k), m);
  }

  lemma {:induction false} LabelSim(w: World, s: Stmt, k: Cont, m: Regs)
    requires s.Label? && Match(w, Running(s, k, m.trace), Live(m))
    ensures Match(w, Running(Skip, k, m.trace), Live(m))
  {
    hide Mirrors, Top, TopHandler, CurrentError, NextActive, Frames, ContAt;
    SkipIn(w, m.pc, ScopeOf(k));
  }

  lemma {:induction false} ThenSim(w: World, a: Stmt, b: Stmt, k: Cont, m: Regs)
    requires Match(w, Running(Then(a, b), k, m.trace), Live(m))
    ensures Match(w, Running(a, Seq(b, k), m.trace), Live(m))
  {
    hide Mirrors, Top, TopHandler, CurrentError, NextActive, Frames, ContAt, In, Size;
    EnterSeq(w, a, b, m.pc, k);
    FramesSame(Seq(b, k));
  }

  /** Every step of the program is matched by some number of machine steps, few more than there are arms
      around it; by none only while the measure decreases. */
  lemma {:induction false} StepSim(w: World, c: Config, m: State) returns (n: nat)
    requires Valid(w) && c.Running? && Match(w, c, m)
    ensures Match(w, Step(w.st, c), MSteps(w.im.code, w.st, m, n))
    ensures n == 0 ==> Measure(Step(w.st, c)) < Measure(c)
    ensures n <= |Frames(c.k)| + 3
  {
    hide Valid, MStep, In, ContAt, StackOk, ScopeOf, Frames, MSteps;
    var r := m.r;
    TwoSteps(w.im.code, w.st, m);
    NoSteps(w.im.code, w.st, m);
    match c.s
    case Skip => n := SkipSim(w, c.k, r);
    case Then(a, b) => ThenSim(w, a, b, c.k, r); n := 0;
    case Basic(op) => BasicSim(w, c.k, op, r); n := 1;
    case If(_, _, _) => IfSim(w, c.s, c.k, r); n := 1;
    case IfElse(_, _, _, _) => IfElseSim(w, c.s, c.k, r); n := 1;
    case While(_, _, _) => WhileSim(w, c.s, c.k, r); n := 1;
    case Exit(_, _) => n := ExitSim(w, c.s, c.k, r);
    case Return(_, _) => n := ReturnSim(w, c.s, c.k, r);
    case Goto(_, _) => n := GotoSim(w, c.s, c.k, r);
    case Label(_, _) => LabelSim(w, c.s, c.k, r); n := 0;
    case TryCatch(_, _, _) => TrySim(w, c.s, c.k, r); n := 1;
  }

  lemma {:induction false} NoSteps(code: seq<Instr>, st: Setting, m: State)
    ensures MSteps(code, st, m, 0) == m
  {
  }

  // ---- Whole runs ----

  lemma {:induction false} StartMatches(w: World)
    requires Valid(w)
    ensures Match(w, Start(w.st), MStart(w.st))
  {
    StartIn(w);
  }

  /** However far the program runs, the compiled code gets to a matching state. */
  lemma {:induction false} RunMatches(w: World, c: Config, m: State, n: nat) returns (n': nat)
    requires Valid(w) && Match(w, c, m)
    ensures Match(w, Steps(w.st, c, n), MSteps(w.im.code, w.st, m, n'))
    decreases n
  {
    hide Valid, Match, Step, MStep;
    if n == 0 {
      n' := 0;
    } else if c.Running? {
      var a := StepSim(w, c, m);
      var b := RunMatches(w, Step(w.st, c), MSteps(w.im.code, w.st, m, a), n - 1);
      StepsAdd(w.im.code, w.st, m, a, b);
      n' := a + b;
    } else {
      StepStays(w.st, c, n);
      n' := 0;
    }
  }

  /** When the machine stops, the program has stopped in the matching way. */
  lemma {:induction false} StopMatches(w: World, c: Config, m: State, n: nat) returns (n': nat)
    requires Valid(w) && Match(w, c, m) && !MSteps(w.im.code, w.st, m, n).Live?
    ensures Match(w, Steps(w.st, c, n'), MSteps(w.im.code, w.st, m, n)) && !Steps(w.st, c, n').Running?
    decreases n, Measure(c)
  {
    hide Valid, Step, MStep, In, ContAt, StackOk, Measure;
    if !c.Running? {
      StepsFixed(w.im.code, w.st, m, n);
      n' := 0;
    } else {
      var a := StepSim(w, c, m);
      var c', m1 := Step(w.st, c), MSteps(w.im.code, w.st, m, a);
      if a > n {
        StepsAdd(w.im.code, w.st, m, n, a - n);
        StepsFixed(w.im.code, w.st, MSteps(w.im.code, w.st, m, n), a - n);
        n' := 1;
      } else {
        StepsAdd(w.im.code, w.st, m, a, n - a);
        var b := StopMatches(w, c', m1, n - a);
        n' := b + 1;
      }
    }
  }

  /** The program halts with a result and history exactly when the compiled code finishes with that
      result and history, and then no error context is left on the stack. */
  lemma {:induction false} HaltsAlike(w: World, byReturn: bool, trace: Trace)
    requires Valid(w)
    ensures (exists n: nat :: Steps(w.st, Start(w.st), n) == Halted(byReturn, trace)) <==>
            (exists n: nat :: MSteps(w.im.code, w.st, MStart(w.st), n) == Done(byReturn, [], trace))
  {
    hide Valid, Step, MStep, In, ContAt, StackOk, Start, MStart, Steps, MSteps;
    StartMatches(w);
    if n: nat :| Steps(w.st, Start(w.st), n) == Halted(byReturn, trace) {
      var n' := RunMatches(w, Start(w.st), MStart(w.st), n);
    }
    if n: nat :| MSteps(w.im.code, w.st, MStart(w.st), n) == Done(byReturn, [], trace) {
      var n' := StopMatches(w, Start(w.st), MStart(w.st), n);
    }
  }

  /** The program is ended by an error exactly when the executor hands that error to its caller. */
  lemma {:induction false} FailsAlike(w: World, e: int, trace: Trace)
    requires Valid(w)
    ensures (exists n: nat :: Steps(w.st, Start(w.st), n) == Aborted(e, trace)) <==>
            (exists n: nat :: MSteps(w.im.code, w.st, MStart(w.st), n) == Failed(e, trace))
  {
    hide Valid, Step, MStep, In, ContAt, StackOk, Start, MStart, Steps, MSteps;
    StartMatches(w);
    if n: nat :| Steps(w.st, Start(w.st), n) == Aborted(e, trace) {
      var n' := RunMatches(w, Start(w.st), MStart(w.st), n);
    }
    if n: nat :| MSteps(w.im.code, w.st, MStart(w.st), n) == Failed(e, trace) {
      var n' := StopMatches(w, Start(w.st), MStart(w.st), n);
    }
  }

  /** In no run does the executor read outside its stack, transfer control to a context that is gone,
      or break its own assertion; and whenever it finishes, every context has been released. */
  lemma {:induction false} NeverStuck(w: World, n: nat)
    requires Valid(w)
    ensures var m := MSteps(w.im.code, w.st, MStart(w.st), n);
            !m.Stuck? && (m.Done? ==> m.left == [])
  {
    hide Valid, Step, MStep, In, ContAt, StackOk, Start, MStart, Steps, MSteps;
    StartMatches(w);
    if !MSteps(w.im.code, w.st, MStart(w.st), n).Live? {
      var n' := StopMatches(w, Start(w.st), MStart(w.st), n);
    }
  }

  // ---- Runs that are still going ----

  function History(m: State): Trace {
    match m
    case Live(r) => r.trace
    case Done(_, _, ran) => ran
    case Failed(_, upTo) => upTo
    case Stuck => []
  }

  lemma {:induction false} ArriveKeeps(m: Regs, e: int, severity: Severity)
    ensures !Arrive(m, e, severity).Stuck? ==> History(Arrive(m, e, severity)) == m.trace
    decreases if m.handler.Caller? then 0 else 1, if 0 <= m.active < |m.errors| && !m.errors[m.active].partial then m.active + 1 else 0
  {
    if m.handler.Context? && 0 <= m.active < |m.errors| && !m.errors[m.active].partial && severity.Terminating? {
      NextActiveBelow(m.errors, m.active, m.active);
      ArriveKeeps(Caught(m, e), e, severity);
    }
  }

  lemma {:induction false} PerformGrows(st: Setting, m: Regs, i: Instr)
    requires !Perform(st, m, i).Stuck?
    ensures m.trace <= History(Perform(st, m, i))
  {
    hide Arrive, NextActive;
    var current := m.current;
    match i
    case IExec(op) => RaiseGrows(st, m, Ran(op, current));
    case IReturn(op) => RaiseGrows(st, m, Ran(op, current));
    case ICond(cond, _, _) => RaiseGrows(st, m, Tested(cond, current));
    case _ =>
  }

  lemma {:induction false} RaiseGrows(st: Setting, m: Regs, ev: Event)
    ensures var m' := m.(trace := m.trace + [ev]);
            forall e, severity :: !RaiseError(m', st, e, severity).Stuck? ==> m.trace <= History(RaiseError(m', st, e, severity))
  {
    hide Arrive;
    var m' := m.(trace := m.trace + [ev]);
    forall e, severity ensures !RaiseError(m', st, e, severity).Stuck? ==> m.trace <= History(RaiseError(m', st, e, severity)) {
      ArriveKeeps(m', e, severity);
    }
  }

  /** Histories only grow. */
  lemma {:induction false} HistoryGrows(code: seq<Instr>, st: Setting, m: State, n: nat)
    requires !MSteps(code, st, m, n).Stuck?
    ensures History(m) <= History(MSteps(code, st, m, n))
    decreases n
  {
    hide Perform;
    if n > 0 {
      if MStep(code, st, m).Stuck? { StepsFixed(code, st, MStep(code, st, m), n - 1); }
      HistoryGrows(code, st, MStep(code, st, m), n - 1);
      if m.Live? && 0 <= m.r.pc < |code| { PerformGrows(st, m.r, code[m.r.pc]); }
    }
  }

  /** In no configuration of the run from c are there more than b arms. */
  ghost predicate Shallow(st: Setting, c: Config, b: nat) { forall i: nat :: ArmsAround(Steps(st, c, i)) <= b }

  lemma {:induction false} ShallowNext(st: Setting, c: Config, b: nat)
    requires Shallow(st, c, b)
    ensures ArmsAround(c) <= b && Shallow(st, Step(st, c), b)
  {
    hide Step, ArmsAround;
    assert Steps(st, c, 0) == c;
    forall i: nat ensures ArmsAround(Steps(st, Step(st, c), i)) <= b { assert Steps(st, c, i + 1) == Steps(st, Step(st, c), i); }
  }

  /** While the machine is still going, so is the program: what the machine has done lies between two
      consecutive steps of it, and no step has taken it more than b + 3 of its own. */
  lemma {:induction false} GoingMatches(w: World, c: Config, m: State, n: nat, b: nat) returns (k: nat)
    requires Valid(w) && Match(w, c, m) && MSteps(w.im.code, w.st, m, n).Live? && Shallow(w.st, c, b)
    ensures n <= (b + 3) * (k + 1)
    ensures Steps(w.st, c, k).Running? && Steps(w.st, c, k).trace <= History(MSteps(w.im.code, w.st, m, n)) <= Steps(w.st, c, k + 1).trace
    decreases n, Measure(c)
  {
    hide Valid, Step, MStep, In, ContAt, StackOk, Measure, Shallow;
    if !c.Running? {
      StepsFixed(w.im.code, w.st, m, n);
      assert false;
    } else {
      var a := StepSim(w, c, m);
      ShallowNext(w.st, c, b);
      var c', m1 := Step(w.st, c), MSteps(w.im.code, w.st, m, a);
      if a > n {
        StepsAdd(w.im.code, w.st, m, n, a - n);
        HistoryGrows(w.im.code, w.st, m, n);
        HistoryGrows(w.im.code, w.st, MSteps(w.im.code, w.st, m, n), a - n);
        k := 0;
      } else {
        StepsAdd(w.im.code, w.st, m, a, n - a);
        var k' := GoingMatches(w, c', m1, n - a, b);
        k := k' + 1;
      }
    }
  }
}
