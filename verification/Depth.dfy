/** How many arms can be around a statement while a program runs: never more than the program nests. */
module Depth {
  import opened Control

  function Max(a: nat, b: nat): nat { if a < b then b else a }

  /** The largest number of TRY..CATCH statements inside one another. */
  function Nested(s: Stmt): nat {
    match s
    case Then(a, b) => Max(Nested(a), Nested(b))
    case If(_, _, t) => Nested(t)
    case IfElse(_, _, t, e) => Max(Nested(t), Nested(e))
    case While(_, _, body) => Nested(body)
    case TryCatch(_, body, handler) => 1 + Max(Nested(body), Nested(handler))
    case _ => 0
  }

  /** Run before k, the statement stays within b arms. */
  predicate Within(s: Stmt, k: Cont, b: nat) { |Frames(k)| + Nested(s) <= b }

  predicate ContWithin(k: Cont, b: nat) {
    match k
    case Stop => true
    case Seq(s, k') => ContWithin(k', b) && Within(s, k', b)
    case LoopK(s, k') => ContWithin(k', b) && Within(s, k', b)
    case ThenK(_, k') => ContWithin(k', b)
    case TryK(tc, k') => ContWithin(k', b) && Within(tc, k', b)
    case CatchK(tc, _, k') => ContWithin(k', b) && Within(tc, k', b)
  }

  predicate ConfigWithin(c: Config, b: nat) { c.Running? ==> ContWithin(c.k, b) && Within(c.s, c.k, b) }

  /** The parts of a statement stay within what it stays within. */
  lemma {:induction false} Parts(s: Stmt, k: Cont, b: nat)
    requires ContWithin(k, b) && Within(s, k, b)
    ensures s.Then? ==> ContWithin(Seq(s.rest, k), b) && Within(s.first, Seq(s.rest, k), b) && Within(s.rest, k, b)
    ensures s.If? ==> Within(s.thn, k, b)
    ensures s.IfElse? ==> ContWithin(ThenK(s, k), b) && Within(s.thn, ThenK(s, k), b) && Within(s.els, k, b)
    ensures s.While? ==> ContWithin(LoopK(s, k), b) && Within(s.body, LoopK(s, k), b)
    ensures s.TryCatch? ==> ContWithin(TryK(s, k), b) && Within(s.body, TryK(s, k), b)
    ensures s.TryCatch? ==> forall e :: ContWithin(CatchK(s, e, k), b) && Within(s.handler, CatchK(s, e, k), b)
  {
  }

  lemma {:induction false} LoopWithin(k: Cont, b: nat)
    requires ContWithin(k, b) && InnerLoop(k).LoopK?
    ensures ContWithin(InnerLoop(k).k, b) && Within(InnerLoop(k).loop, InnerLoop(k).k, b)
    decreases k
  {
    hide Within;
    match k
    case LoopK(_, _) =>
    case Seq(_, k') => LoopWithin(k', b);
    case ThenK(_, k') => LoopWithin(k', b);
    case TryK(_, k') => LoopWithin(k', b);
    case CatchK(_, _, k') => LoopWithin(k', b);
  }

  lemma {:induction false} TryWithin(k: Cont, b: nat)
    requires ContWithin(k, b) && InnerTry(k).TryK?
    ensures ContWithin(InnerTry(k).k, b) && Within(InnerTry(k).tc, InnerTry(k).k, b)
    decreases k
  {
    hide Within;
    match k
    case TryK(_, _) =>
    case Seq(_, k') => TryWithin(k', b);
    case LoopK(_, k') => TryWithin(k', b);
    case ThenK(_, k') => TryWithin(k', b);
    case CatchK(_, _, k') => TryWithin(k', b);
  }

  lemma {:induction false} LabelWithin(s: Stmt, name: string, k: Cont, b: nat)
    requires ContWithin(k, b) && Within(s, k, b)
    ensures FindLabel(s, name, k).Some? ==> ContWithin(FindLabel(s, name, k).value, b) && |Frames(FindLabel(s, name, k).value)| <= b
    decreases s
  {
    hide ContWithin;
    Parts(s, k, b);
    match s
    case Then(x, y) => LabelWithin(x, name, Seq(y, k), b); LabelWithin(y, name, k, b);
    case If(_, _, t) => LabelWithin(t, name, k, b);
    case IfElse(_, _, t, e) => LabelWithin(t, name, ThenK(s, k), b); LabelWithin(e, name, k, b);
    case While(_, _, body) => LabelWithin(body, name, LoopK(s, k), b);
    case TryCatch(_, body, handler) => LabelWithin(body, name, TryK(s, k), b); LabelWithin(handler, name, CatchK(s, 0, k), b);
    case _ =>
  }

  lemma {:induction false} RefillWithin(k: Cont, frames: seq<Frame>, b: nat)
    requires ContWithin(k, b)
    ensures ContWithin(Refill(k, frames), b) && |Frames(Refill(k, frames))| == |Frames(k)|
    decreases k
  {
    match k
    case Stop =>
    case Seq(_, k') => RefillWithin(k', frames, b);
    case LoopK(_, k') => RefillWithin(k', frames, b);
    case ThenK(_, k') => RefillWithin(k', frames, b);
    case TryK(_, k') => RefillWithin(k', frames, b);
    case CatchK(_, _, k') => RefillWithin(k', frames, b);
  }

  lemma {:induction false} RaiseWithin(st: Setting, e: int, severity: Severity, k: Cont, trace: Trace, resume: Config, b: nat)
    requires ContWithin(k, b) && ConfigWithin(resume, b)
    ensures ConfigWithin(Raise(st, e, severity, k, trace, resume), b)
  {
    hide CountsAsTry, ContWithin, Within;
    if InnerTry(k).TryK? {
      TryWithin(k, b);
      Parts(InnerTry(k).tc, InnerTry(k).k, b);
    }
  }

  lemma {:induction false} ResumeWithin(s: Stmt, k: Cont, trace: Trace, b: nat)
    requires ContWithin(k, b) && Within(s, k, b)
    ensures ConfigWithin(Resumed(s, k, trace), b) && Within(Skip, k, b)
  {
    Parts(s, k, b);
    hide ContWithin, Frames;
  }

  /** One step keeps within the nesting of the program. */
  lemma {:induction false} StepWithin(st: Setting, c: Config, b: nat)
    requires Nested(st.program) <= b && ConfigWithin(c, b)
    ensures ConfigWithin(Step(st, c), b)
  {
    hide Raise, CurrentError, FindLabel, Refill, InnerLoop, ContWithin, Frames;
    if c.Running? {
      var s, k := c.s, c.k;
      Parts(s, k, b);
      ResumeWithin(s, k, c.trace, b);
      var ev := EventOf(st, s, k);
      if ev.Some? {
        var out := st.oracle(c.trace, ev.value);
        var trace := c.trace + [ev.value];
        ResumeWithin(s, k, trace, b);
        if out.Raised? { RaiseWithin(st, out.err, out.severity, k, trace, Resumed(s, k, trace), b); }
      } else if s.Exit? {
        if InnerLoop(k).LoopK? { LoopWithin(k, b); }
      } else if s.Goto? {
        StopWithin(st.program, b);
        LabelWithin(st.program, s.target, Stop, b);
        if FindLabel(st.program, s.target, Stop).Some? { RefillWithin(FindLabel(st.program, s.target, Stop).value, Frames(k), b); }
      } else if s.Skip? && !k.Stop? {
        PopWithin(k, b);
      }
    }
  }

  lemma {:induction false} StopWithin(s: Stmt, b: nat)
    requires Nested(s) <= b
    ensures ContWithin(Stop, b) && Within(s, Stop, b)
  {
  }

  lemma {:induction false} PopWithin(k: Cont, b: nat)
    requires ContWithin(k, b) && |Frames(k)| <= b && !k.Stop?
    ensures ContWithin(k.k, b) && |Frames(k.k)| <= b
    ensures k.Seq? ==> Within(k.next, k.k, b)
    ensures k.LoopK? ==> Within(k.loop, k.k, b)
  {
  }

  /** No run is ever inside more arms than its program nests. */
  lemma {:induction false} RunWithin(st: Setting, n: nat)
    ensures ConfigWithin(Steps(st, Start(st), n), Nested(st.program)) && ArmsAround(Steps(st, Start(st), n)) <= Nested(st.program)
    decreases n
  {
    if n == 0 {
      StopWithin(st.program, Nested(st.program));
    } else {
      RunWithin(st, n - 1);
      StepsSnoc(st, Start(st), n - 1);
      hide Step, Start, Steps, Nested, ContWithin;
      StepWithin(st, Steps(st, Start(st), n - 1), Nested(st.program));
    }
  }
}
