/** T-SQL control flow and what it means: a small-step semantics over continuations. Data statements
    are opaque; an oracle that sees the whole history decides how each of them ends. */
module Control {
  /** A statement list is a chain of Then that ends in Skip. The id of a node is its identity. */
  datatype Stmt =
    | Skip
    | Then(first: Stmt, rest: Stmt)
    | Basic(op: int)
    | If(id: int, cond: int, thn: Stmt)
    | IfElse(id: int, cond: int, thn: Stmt, els: Stmt)
    | While(id: int, cond: int, body: Stmt)
    | Exit(id: int, isBreak: bool)
    | Return(id: int, op: int)
    | Goto(id: int, target: string)
    | Label(id: int, name: string)
    | TryCatch(id: int, body: Stmt, handler: Stmt)

  // ---- Data statements ----

  /** How an error that reaches the executor's handler is treated: Ignorable errors let execution
      continue outside TRY, Catchable ones always go to the next handler, Terminating ones skip
      every CATCH block. */
  datatype Severity = Ignorable | Catchable | Terminating

  datatype Event = Ran(op: int, err: int) | Tested(cond: int, err: int)
  datatype Outcome = Success | False | Raised(err: int, severity: Severity)

  type Trace = seq<Event>
  type Oracle = (Trace, Event) -> Outcome

  // ---- Continuations ----

  /** What is left to do. CatchK carries the error its handler was entered with. */
  datatype Cont =
    | Stop
    | Seq(next: Stmt, k: Cont)
    | LoopK(loop: Stmt, k: Cont)
    | ThenK(branch: Stmt, k: Cont)
    | TryK(tc: Stmt, k: Cont)
    | CatchK(tc: Stmt, err: int, k: Cont)

  /** One arm of a TRY..CATCH statement. */
  datatype Arm = Arm(id: int, inTry: bool)

  /** The arms around the current statement, outermost first, with the error each CATCH handles. */
  datatype Frame = Frame(arm: Arm, err: int)

  function Frames(k: Cont): seq<Frame> {
    match k
    case Stop => []
    case Seq(_, k') => Frames(k')
    case LoopK(_, k') => Frames(k')
    case ThenK(_, k') => Frames(k')
    case TryK(tc, k') => if tc.TryCatch? then Frames(k') + [Frame(Arm(tc.id, true), 0)] else Frames(k')
    case CatchK(tc, e, k') => if tc.TryCatch? then Frames(k') + [Frame(Arm(tc.id, false), e)] else Frames(k')
  }

  /** The error visible to a statement: the one its innermost CATCH arm handles. */
  function CurrentError(frames: seq<Frame>, initial: int): int {
    if frames == [] then initial
    else if frames[|frames| - 1].arm.inTry then CurrentError(frames[..|frames| - 1], initial)
    else frames[|frames| - 1].err
  }

  /** The executor's test for being inside TRY: more than one arm, or one that is a TRY arm. */
  predicate CountsAsTry(frames: seq<Frame>, outerTry: bool) {
    |frames| > 1 || (|frames| == 1 && frames[0].arm.inTry) || outerTry
  }

  predicate SomeTryArm(frames: seq<Frame>) {
    exists i :: 0 <= i < |frames| && frames[i].arm.inTry
  }

  // ---- Configurations ----

  datatype Config =
    | Running(s: Stmt, k: Cont, trace: Trace)
    | Halted(returned: bool, trace: Trace)
    | Aborted(err: int, trace: Trace)

  /** What surrounds a run: the whole program, the behaviour of data statements, the error visible at
      entry, and whether some caller is inside TRY. */
  datatype Setting = Setting(program: Stmt, oracle: Oracle, initial: int, outerTry: bool)

  /** The continuation of the innermost loop, with that loop. */
  function InnerLoop(k: Cont): Cont {
    match k
    case Stop => Stop
    case LoopK(_, _) => k
    case Seq(_, k') => InnerLoop(k')
    case ThenK(_, k') => InnerLoop(k')
    case TryK(_, k') => InnerLoop(k')
    case CatchK(_, _, k') => InnerLoop(k')
  }

  /** The continuation from the innermost TRY arm outwards. */
  function InnerTry(k: Cont): Cont {
    match k
    case Stop => Stop
    case TryK(_, _) => k
    case Seq(_, k') => InnerTry(k')
    case ThenK(_, k') => InnerTry(k')
    case LoopK(_, k') => InnerTry(k')
    case CatchK(_, _, k') => InnerTry(k')
  }

  datatype Option<+T> = None | Some(value: T)

  /** What follows the label in s, when k follows s. */
  function FindLabel(s: Stmt, name: string, k: Cont): Option<Cont> {
    match s
    case Label(_, n) => if n == name then Some(k) else None
    case Then(a, b) =>
      var r := FindLabel(a, name, Seq(b, k));
      if r.Some? then r else FindLabel(b, name, k)
    case If(_, _, t) => FindLabel(t, name, k)
    case IfElse(_, _, t, e) =>
      var r := FindLabel(t, name, ThenK(s, k));
      if r.Some? then r else FindLabel(e, name, k)
    case While(_, _, body) => FindLabel(body, name, LoopK(s, k))
    case TryCatch(_, body, handler) =>
      var r := FindLabel(body, name, TryK(s, k));
      if r.Some? then r else FindLabel(handler, name, CatchK(s, 0, k))
    case _ => None
  }

  /** A static continuation with the errors of the arms around the jump filled in. */
  function Refill(k: Cont, frames: seq<Frame>): Cont {
    match k
    case Stop => Stop
    case Seq(s, k') => Seq(s, Refill(k', frames))
    case LoopK(s, k') => LoopK(s, Refill(k', frames))
    case ThenK(s, k') => ThenK(s, Refill(k', frames))
    case TryK(tc, k') => TryK(tc, Refill(k', frames))
    case CatchK(tc, e, k') =>
      var depth := |Frames(k')|;
      CatchK(tc, if depth < |frames| then frames[depth].err else e, Refill(k', frames))
  }

  /** An error raised at continuation k; resume is the configuration if it is ignored. */
  function Raise(st: Setting, e: int, severity: Severity, k: Cont, trace: Trace, resume: Config): Config {
    if severity.Ignorable? && !CountsAsTry(Frames(k), st.outerTry) then resume
    else if severity.Terminating? then Aborted(e, trace)
    else
      match InnerTry(k)
      case TryK(tc, k') => if tc.TryCatch? then Running(tc.handler, CatchK(tc, e, k'), trace) else Aborted(e, trace)
      case _ => Aborted(e, trace)
  }

  /** A condition decides between two configurations; when its error is ignored, the first is taken. */
  function Test(st: Setting, cond: int, k: Cont, trace: Trace, yes: Trace -> Config, no: Trace -> Config): Config {
    var ev := Tested(cond, CurrentError(Frames(k), st.initial));
    var trace' := trace + [ev];
    match st.oracle(trace, ev)
    case Success => yes(trace')
    case False => no(trace')
    case Raised(e, severity) => Raise(st, e, severity, k, trace', yes(trace'))
  }

  /** A data statement; after says what follows, given whether it ended without error. */
  function Run(st: Setting, op: int, k: Cont, trace: Trace, after: (bool, Trace) -> Config): Config {
    var ev := Ran(op, CurrentError(Frames(k), st.initial));
    var trace' := trace + [ev];
    match st.oracle(trace, ev)
    case Raised(e, severity) => Raise(st, e, severity, k, trace', after(false, trace'))
    case _ => after(true, trace')
  }

  function Step(st: Setting, c: Config): Config {
    match c
    case Halted(_, _) => c
    case Aborted(_, _) => c
    case Running(s, k, trace) =>
      match s
      case Skip => (
        match k
        case Stop => Halted(false, trace)
        case Seq(next, k') => Running(next, k', trace)
        case LoopK(loop, k') => Running(loop, k', trace)
        case ThenK(_, k') => Running(Skip, k', trace)
        case TryK(_, k') => Running(Skip, k', trace)
        case CatchK(_, _, k') => Running(Skip, k', trace))
      case Then(a, b) => Running(a, Seq(b, k), trace)
      case Basic(op) => Run(st, op, k, trace, (_, t) => Running(Skip, k, t))
      case If(_, cond, thn) => Test(st, cond, k, trace, t => Running(thn, k, t), t => Running(Skip, k, t))
      case IfElse(_, cond, thn, els) => Test(st, cond, k, trace, t => Running(thn, ThenK(s, k), t), t => Running(els, k, t))
      case While(_, cond, body) => Test(st, cond, k, trace, t => Running(body, LoopK(s, k), t), t => Running(Skip, k, t))
      case Exit(_, isBreak) => (
        match InnerLoop(k)
        case LoopK(loop, k') => if isBreak then Running(Skip, k', trace) else Running(loop, k', trace)
        case _ => Running(Skip, k, trace))
      case Return(_, op) => Run(st, op, k, trace, (ok, t) => Halted(ok, t))
      case Goto(_, target) => (
        match FindLabel(st.program, target, Stop)
        case Some(k') => Running(Skip, Refill(k', Frames(k)), trace)
        case None => Running(Skip, k, trace))
      case Label(_, _) => Running(Skip, k, trace)
      case TryCatch(_, body, _) => Running(body, TryK(s, k), trace)
  }

  function Steps(st: Setting, c: Config, n: nat): Config
    decreases n
  {
    if n == 0 then c else Steps(st, Step(st, c), n - 1)
  }

  function Start(st: Setting): Config { Running(st.program, Stop, []) }

  lemma {:induction false} StepStays(st: Setting, c: Config, n: nat)
    requires !c.Running?
    ensures Step(st, c) == c && Steps(st, c, n) == c
    decreases n
  {
    if n > 0 { StepStays(st, c, n - 1); }
  }

  lemma {:induction false} StepsSnoc(st: Setting, c: Config, n: nat)
    ensures Steps(st, c, n + 1) == Step(st, Steps(st, c, n))
    decreases n
  {
    hide Step;
    if n > 0 { StepsSnoc(st, Step(st, c), n - 1); }
  }

  function ArmsAround(c: Config): nat { if c.Running? then |Frames(c.k)| else 0 }

  // ---- Statements that ask the oracle ----

  /** The event of a statement that the oracle decides. */
  function EventOf(st: Setting, s: Stmt, k: Cont): Option<Event> {
    var err := CurrentError(Frames(k), st.initial);
    match s
    case Basic(op) => Some(Ran(op, err))
    case Return(_, op) => Some(Ran(op, err))
    case If(_, cond, _) => Some(Tested(cond, err))
    case IfElse(_, cond, _, _) => Some(Tested(cond, err))
    case While(_, cond, _) => Some(Tested(cond, err))
    case _ => None
  }

  /** What follows a statement whose error is ignored. */
  function Resumed(s: Stmt, k: Cont, trace: Trace): Config {
    match s
    case If(_, _, thn) => Running(thn, k, trace)
    case IfElse(_, _, thn, _) => Running(thn, ThenK(s, k), trace)
    case While(_, _, body) => Running(body, LoopK(s, k), trace)
    case Return(_, _) => Halted(false, trace)
    case _ => Running(Skip, k, trace)
  }
}
