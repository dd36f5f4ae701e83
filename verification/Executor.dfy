/** The iterative executor: a program counter over linear code, with a stack of error contexts that
    is kept by SAVE and RESTORE instructions and unwound when a statement raises an error. */
module Executor {
  import opened Control
  import opened Layout

  /** Where an error that is raised now transfers control: to whoever called the executor, or to the
      SAVE instruction that pushed the context with this serial number. */
  datatype Handler = Caller | Context(serial: nat)

  /** partial: the CATCH arm of this context is running. */
  datatype ErrCtx = ErrCtx(serial: nat, target: int, saveHandler: Handler, saveError: int, partial: bool)

  /** errors: the stack of error contexts; active: the index kept for the innermost one whose TRY arm
      is running; current: the error visible to statements. */
  datatype Regs = Regs(pc: int, errors: seq<ErrCtx>, active: int, handler: Handler, current: int, serial: nat, returned: bool, trace: Trace)

  /** Stuck: an access outside the stack, a transfer to a context that is gone, or a failed assertion. */
  datatype State =
    | Live(r: Regs)
    | Done(byReturn: bool, left: seq<ErrCtx>, ran: Trace)
    | Failed(err: int, upTo: Trace)
    | Stuck

  /** The last context below i whose CATCH arm is not running, or otherwise. */
  function NextActive(errors: seq<ErrCtx>, i: int, otherwise: int): int
    requires 0 <= i <= |errors|
    decreases i
  {
    if i == 0 then otherwise
    else if !errors[i - 1].partial then i - 1
    else NextActive(errors, i - 1, otherwise)
  }

  function RestoreFull(m: Regs): State {
    if !(0 <= m.active < |m.errors|) || m.errors[m.active].saveError != m.current then Stuck
    else
      var rest := m.errors[..|m.errors| - 1];
      Live(m.(handler := m.errors[m.active].saveHandler, errors := rest, active := NextActive(rest, m.active, m.active), pc := m.pc + 1))
  }

  function RestorePartial(m: Regs): State {
    if m.errors == [] then Stuck
    else Live(m.(current := m.errors[|m.errors| - 1].saveError, errors := m.errors[..|m.errors| - 1], pc := m.pc + 1))
  }

  function Save(m: Regs, target: int): State {
    Live(m.(errors := m.errors + [ErrCtx(m.serial, target, m.handler, m.current, false)], handler := Context(m.serial),
            active := |m.errors|, serial := m.serial + 1, pc := m.pc + 1))
  }

  /** The registers once control has arrived at the active context: the contexts above it are gone, it
      is marked as running its CATCH arm, and the next handler outwards is in force. */
  function Caught(m: Regs, e: int): Regs
    requires 0 <= m.active < |m.errors|
  {
    var ctx := m.errors[m.active];
    m.(errors := m.errors[..m.active] + [ctx.(partial := true)], handler := ctx.saveHandler, current := e, pc := ctx.target,
       active := NextActive(m.errors, m.active, m.active))
  }

  /** An error transfers control. A terminating one is raised again at once by whoever catches it. */
  function Arrive(m: Regs, e: int, severity: Severity): State
    decreases if m.handler.Caller? then 0 else 1, if 0 <= m.active < |m.errors| && !m.errors[m.active].partial then m.active + 1 else 0
  {
    if m.handler.Caller? then Failed(e, m.trace)
    else if !(0 <= m.active < |m.errors|) || m.errors[m.active].serial != m.handler.serial || m.errors[m.active].partial then Stuck
    else
      var m' := Caught(m, e);
      NextActiveBelow(m.errors, m.active, m.active);
      if severity.Terminating? then Arrive(m', e, severity) else Live(m')
  }

  lemma {:induction false} NextActiveBelow(errors: seq<ErrCtx>, i: int, otherwise: int)
    requires 0 <= i <= |errors|
    ensures NextActive(errors, i, otherwise) == otherwise || 0 <= NextActive(errors, i, otherwise) < i
    decreases i
  {
    if i > 0 && errors[i - 1].partial { NextActiveBelow(errors, i - 1, otherwise); }
  }

  /** More than one context counts as being inside TRY; a single one only while its TRY arm runs. */
  predicate InTryBlock(errors: seq<ErrCtx>, outerTry: bool) {
    |errors| > 1 || (|errors| == 1 && !errors[0].partial) || outerTry
  }

  function RaiseError(m: Regs, st: Setting, e: int, severity: Severity): State {
    if severity.Ignorable? && !InTryBlock(m.errors, st.outerTry) then Live(m.(pc := m.pc + 1)) else Arrive(m, e, severity)
  }

  function Exec(m: Regs, st: Setting, op: int, isReturn: bool): State {
    var ev := Ran(op, m.current);
    var m' := m.(trace := m.trace + [ev]);
    match st.oracle(m.trace, ev)
    case Raised(e, severity) => RaiseError(m', st, e, severity)
    case _ => Live(m'.(pc := m.pc + 1, returned := m.returned || isReturn))
  }

  function Branch(m: Regs, st: Setting, cond: int, target: int): State {
    var ev := Tested(cond, m.current);
    var m' := m.(trace := m.trace + [ev]);
    match st.oracle(m.trace, ev)
    case Success => Live(m'.(pc := m.pc + 1))
    case False => Live(m'.(pc := target))
    case Raised(e, severity) => RaiseError(m', st, e, severity)
  }

  function Perform(st: Setting, m: Regs, i: Instr): State {
    match i
    case IExec(op) => Exec(m, st, op, false)
    case IReturn(op) => Exec(m, st, op, true)
    case IGoto(_, target) => Live(m.(pc := target))
    case ICond(cond, _, target) => Branch(m, st, cond, target)
    case ISave(_, target) => Save(m, target)
    case IFull => RestoreFull(m)
    case IPartial => RestorePartial(m)
  }

  function MStep(code: seq<Instr>, st: Setting, m: State): State {
    if !m.Live? then m
    else if m.r.pc < 0 then Stuck
    else if m.r.pc >= |code| then Done(m.r.returned, m.r.errors, m.r.trace)
    else Perform(st, m.r, code[m.r.pc])
  }

  function MSteps(code: seq<Instr>, st: Setting, m: State, n: nat): State
    decreases n
  {
    if n == 0 then m else MSteps(code, st, MStep(code, st, m), n - 1)
  }

  function MStart(st: Setting): State { Live(Regs(0, [], 0, Caller, st.initial, 0, false, [])) }
}
