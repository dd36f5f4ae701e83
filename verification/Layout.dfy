/** Linear code for control flow: the scopes the analyzer records, the instructions each statement
    becomes, and where each label lands. */
module Layout {
  import opened Control

  // ---- Scopes ----

  /** The TRY..CATCH arms and the loops around a statement, outermost first. */
  datatype Scope = Scope(arms: seq<Arm>, loops: seq<int>) {
    function Within(arm: Arm): Scope { Scope(arms + [arm], loops) }
    function Inside(loop: int): Scope { Scope(arms, loops + [loop]) }
  }

  const ROOT := Scope([], [])

  /** What the analyzer hands on: the scope of every statement that can jump or be jumped to, and the
      statement of every label. */
  datatype Table = Table(scopes: map<int, Scope>, labels: map<string, int>) {
    predicate Knows(id: int, sc: Scope) { id in scopes && scopes[id] == sc }

    ghost predicate Extends(that: Table) {
      (forall id :: id in that.scopes ==> Knows(id, that.scopes[id])) &&
      (forall name :: name in that.labels ==> name in labels && labels[name] == that.labels[name])
    }

    function Depth(id: int): nat { if id in scopes then |scopes[id].arms| else 0 }
    function LabelDepth(name: string): nat { if name in labels then Depth(labels[name]) else 0 }
  }

  /** The table is right about every statement in s, when s stands in scope sc. */
  ghost predicate Scoped(s: Stmt, sc: Scope, tab: Table) {
    match s
    case Then(a, b) => Scoped(a, sc, tab) && Scoped(b, sc, tab)
    case If(_, _, thn) => Scoped(thn, sc, tab)
    case IfElse(_, _, thn, els) => Scoped(thn, sc, tab) && Scoped(els, sc, tab)
    case While(id, _, body) => tab.Knows(id, sc.Inside(id)) && Scoped(body, sc.Inside(id), tab)
    case Exit(id, _) => tab.Knows(id, sc)
    case Return(id, _) => tab.Knows(id, sc)
    case Goto(id, _) => tab.Knows(id, sc)
    case Label(id, name) => tab.Knows(id, sc) && name in tab.labels && tab.labels[name] == id
    case TryCatch(id, body, handler) =>
      Scoped(body, sc.Within(Arm(id, true)), tab) && Scoped(handler, sc.Within(Arm(id, false)), tab)
    case _ => true
  }

  lemma {:induction false} ScopedExtends(s: Stmt, sc: Scope, tab: Table, tab': Table)
    requires Scoped(s, sc, tab) && tab'.Extends(tab)
    ensures Scoped(s, sc, tab')
  {
    match s
    case Then(a, b) => ScopedExtends(a, sc, tab, tab'); ScopedExtends(b, sc, tab, tab');
    case If(_, _, thn) => ScopedExtends(thn, sc, tab, tab');
    case IfElse(_, _, thn, els) => ScopedExtends(thn, sc, tab, tab'); ScopedExtends(els, sc, tab, tab');
    case While(id, _, body) => ScopedExtends(body, sc.Inside(id), tab, tab');
    case TryCatch(id, body, handler) =>
      ScopedExtends(body, sc.Within(Arm(id, true)), tab, tab');
      ScopedExtends(handler, sc.Within(Arm(id, false)), tab, tab');
    case _ =>
  }

  lemma {:induction false} ScopedThen(a: Stmt, b: Stmt, sc: Scope, tab: Table)
    ensures Scoped(Then(a, b), sc, tab) == (Scoped(a, sc, tab) && Scoped(b, sc, tab))
  {
  }

  lemma {:induction false} ScopedBranches(s: Stmt, sc: Scope, tab: Table)
    requires s.IfElse?
    ensures Scoped(s, sc, tab) == (Scoped(s.thn, sc, tab) && Scoped(s.els, sc, tab))
  {
  }

  lemma {:induction false} ScopedTry(s: Stmt, sc: Scope, tab: Table)
    requires s.TryCatch?
    ensures Scoped(s, sc, tab) == (Scoped(s.body, sc.Within(Arm(s.id, true)), tab) && Scoped(s.handler, sc.Within(Arm(s.id, false)), tab))
  {
  }

  // ---- Names and identities ----

  function Ids(s: Stmt): set<int> {
    match s
    case Then(a, b) => Ids(a) + Ids(b)
    case If(id, _, thn) => {id} + Ids(thn)
    case IfElse(id, _, thn, els) => {id} + Ids(thn) + Ids(els)
    case While(id, _, body) => {id} + Ids(body)
    case Exit(id, _) => {id}
    case Return(id, _) => {id}
    case Goto(id, _) => {id}
    case Label(id, _) => {id}
    case TryCatch(id, body, handler) => {id} + Ids(body) + Ids(handler)
    case _ => {}
  }

  /** No node occurs twice. */
  predicate DistinctIds(s: Stmt) {
    match s
    case Then(a, b) => DistinctIds(a) && DistinctIds(b) && Ids(a) !! Ids(b)
    case If(id, _, thn) => DistinctIds(thn) && id !in Ids(thn)
    case IfElse(id, _, thn, els) =>
      DistinctIds(thn) && DistinctIds(els) && id !in Ids(thn) && id !in Ids(els) && Ids(thn) !! Ids(els)
    case While(id, _, body) => DistinctIds(body) && id !in Ids(body)
    case TryCatch(id, body, handler) =>
      DistinctIds(body) && DistinctIds(handler) && id !in Ids(body) && id !in Ids(handler) && Ids(body) !! Ids(handler)
    case _ => true
  }

  function Names(s: Stmt): set<string> {
    match s
    case Then(a, b) => Names(a) + Names(b)
    case If(_, _, thn) => Names(thn)
    case IfElse(_, _, thn, els) => Names(thn) + Names(els)
    case While(_, _, body) => Names(body)
    case Label(_, name) => {name}
    case TryCatch(_, body, handler) => Names(body) + Names(handler)
    case _ => {}
  }

  /** No label name is defined twice. */
  predicate DistinctNames(s: Stmt) {
    match s
    case Then(a, b) => DistinctNames(a) && DistinctNames(b) && Names(a) !! Names(b)
    case If(_, _, thn) => DistinctNames(thn)
    case IfElse(_, _, thn, els) => DistinctNames(thn) && DistinctNames(els) && Names(thn) !! Names(els)
    case While(_, _, body) => DistinctNames(body)
    case TryCatch(_, body, handler) => DistinctNames(body) && DistinctNames(handler) && Names(body) !! Names(handler)
    case _ => true
  }

  // ---- Which programs are accepted ----

  /** BREAK and CONTINUE stand inside a loop. */
  predicate ExitsOk(s: Stmt, inLoop: bool) {
    match s
    case Then(a, b) => ExitsOk(a, inLoop) && ExitsOk(b, inLoop)
    case If(_, _, thn) => ExitsOk(thn, inLoop)
    case IfElse(_, _, thn, els) => ExitsOk(thn, inLoop) && ExitsOk(els, inLoop)
    case While(_, _, body) => ExitsOk(body, true)
    case Exit(_, _) => inLoop
    case TryCatch(_, body, handler) => ExitsOk(body, inLoop) && ExitsOk(handler, inLoop)
    case _ => true
  }

  datatype Jump = Jump(id: int, target: string)

  function Gotos(s: Stmt): set<Jump> {
    match s
    case Then(a, b) => Gotos(a) + Gotos(b)
    case If(_, _, thn) => Gotos(thn)
    case IfElse(_, _, thn, els) => Gotos(thn) + Gotos(els)
    case While(_, _, body) => Gotos(body)
    case Goto(id, target) => {Jump(id, target)}
    case TryCatch(_, body, handler) => Gotos(body) + Gotos(handler)
    case _ => {}
  }

  /** The label exists, and every arm and every loop around it is also around the jump. */
  predicate JumpOk(g: Jump, tab: Table) {
    g.target in tab.labels && g.id in tab.scopes && tab.labels[g.target] in tab.scopes &&
    var src, dst := tab.scopes[g.id], tab.scopes[tab.labels[g.target]];
    dst.arms <= src.arms && dst.loops <= src.loops
  }

  ghost predicate JumpsOk(s: Stmt, tab: Table) { forall g :: g in Gotos(s) ==> JumpOk(g, tab) }

  /** The table is right about the whole program and holds no other label. */
  ghost predicate TableOf(program: Stmt, tab: Table) {
    Scoped(program, ROOT, tab) && tab.labels.Keys == Names(program)
  }

  ghost predicate Accepted(program: Stmt) {
    DistinctNames(program) && ExitsOk(program, false) && exists tab :: TableOf(program, tab) && JumpsOk(program, tab)
  }

  /** Two right tables agree about everything a jump check looks at. */
  lemma {:induction false} TablesAgree(s: Stmt, sc: Scope, tab: Table, tab': Table)
    requires Scoped(s, sc, tab) && Scoped(s, sc, tab')
    ensures forall g :: g in Gotos(s) ==> g.id in tab.scopes && g.id in tab'.scopes && tab.scopes[g.id] == tab'.scopes[g.id]
    ensures forall name :: name in Names(s) ==>
      name in tab.labels && name in tab'.labels && tab.labels[name] == tab'.labels[name] &&
      tab.labels[name] in tab.scopes && tab'.Knows(tab.labels[name], tab.scopes[tab.labels[name]])
  {
    match s
    case Then(a, b) => TablesAgree(a, sc, tab, tab'); TablesAgree(b, sc, tab, tab');
    case If(_, _, thn) => TablesAgree(thn, sc, tab, tab');
    case IfElse(_, _, thn, els) => TablesAgree(thn, sc, tab, tab'); TablesAgree(els, sc, tab, tab');
    case While(id, _, body) => TablesAgree(body, sc.Inside(id), tab, tab');
    case TryCatch(id, body, handler) =>
      TablesAgree(body, sc.Within(Arm(id, true)), tab, tab');
      TablesAgree(handler, sc.Within(Arm(id, false)), tab, tab');
    case _ =>
  }

  /** So the verdict on the jumps does not depend on which right table is used. */
  lemma {:induction false} VerdictUnique(program: Stmt, tab: Table)
    requires TableOf(program, tab) && DistinctNames(program) && ExitsOk(program, false)
    ensures Accepted(program) <==> JumpsOk(program, tab)
  {
    if Accepted(program) {
      var tab' :| TableOf(program, tab') && JumpsOk(program, tab');
      TablesAgree(program, ROOT, tab, tab');
      forall g | g in Gotos(program) ensures JumpOk(g, tab) {
        assert JumpOk(g, tab');
        assert g.target in tab'.labels.Keys;
      }
    }
  }

  // ---- Code ----

  datatype Lab =
    | LoopBegin(id: int) | LoopEnd(id: int)
    | CatchBegin(id: int) | CatchEnd(id: int)
    | ElseBegin(id: int) | ElseEnd(id: int)
    | EndOfProc
    | User(name: string)

  /** The last field of a jump is its target, negative until labels are resolved. */
  datatype Instr =
    | IExec(op: int)
    | IReturn(op: int)
    | IGoto(lab: Lab, target: int)
    | ICond(cond: int, lab: Lab, target: int)
    | ISave(lab: Lab, target: int)
    | IFull
    | IPartial

  function PcOf(lab: Lab, labels: map<Lab, int>): int { if lab in labels then labels[lab] else -1 }

  /** The instruction with its target filled in. */
  function Link(i: Instr, labels: map<Lab, int>): Instr {
    match i
    case IGoto(lab, _) => IGoto(lab, PcOf(lab, labels))
    case ICond(cond, lab, _) => ICond(cond, lab, PcOf(lab, labels))
    case ISave(lab, _) => ISave(lab, PcOf(lab, labels))
    case _ => i
  }

  /** Code with the positions of its labels; linked when the targets have been filled in. */
  datatype Image = Image(code: seq<Instr>, labels: map<Lab, int>, linked: bool) {
    predicate At(pc: int, i: Instr) {
      0 <= pc < |code| && code[pc] == (if linked then Link(i, labels) else i)
    }

    predicate LabAt(lab: Lab, pc: int) { lab in labels && labels[lab] == pc }

    /** Everything this image says about positions below its end, that one says too. */
    ghost predicate Carries(that: Image) {
      (forall pc, i :: this.At(pc, i) ==> that.At(pc, i)) &&
      (forall lab, pc :: this.LabAt(lab, pc) ==> that.LabAt(lab, pc))
    }
  }

  function Restore(arm: Arm): Instr { if arm.inTry then IFull else IPartial }

  /** At pc stand the instructions that leave every arm beyond the first depth, innermost first. */
  ghost predicate Cleans(im: Image, pc: int, arms: seq<Arm>, depth: nat)
    decreases |arms|
  {
    |arms| <= depth ||
    (im.At(pc, Restore(arms[|arms| - 1])) && Cleans(im, pc + 1, arms[..|arms| - 1], depth))
  }

  function Excess(arms: seq<Arm>, depth: nat): nat { if |arms| <= depth then 0 else |arms| - depth }

  function ExitDepth(sc: Scope, tab: Table): nat { if sc.loops == [] then 0 else tab.Depth(sc.loops[|sc.loops| - 1]) }

  function ExitLab(sc: Scope, isBreak: bool): Lab {
    if sc.loops == [] then EndOfProc
    else if isBreak then LoopEnd(sc.loops[|sc.loops| - 1]) else LoopBegin(sc.loops[|sc.loops| - 1])
  }

  /** The number of instructions s becomes. */
  function Size(s: Stmt, sc: Scope, tab: Table): nat {
    match s
    case Skip => 0
    case Then(a, b) => Size(a, sc, tab) + Size(b, sc, tab)
    case Basic(_) => 1
    case If(_, _, thn) => 1 + Size(thn, sc, tab)
    case IfElse(_, _, thn, els) => 2 + Size(thn, sc, tab) + Size(els, sc, tab)
    case While(id, _, body) => 2 + Size(body, sc.Inside(id), tab)
    case Exit(_, _) => Excess(sc.arms, ExitDepth(sc, tab)) + 1
    case Return(_, _) => 2 + |sc.arms|
    case Goto(_, target) => Excess(sc.arms, tab.LabelDepth(target)) + 1
    case Label(_, _) => 0
    case TryCatch(id, body, handler) =>
      4 + Size(body, sc.Within(Arm(id, true)), tab) + Size(handler, sc.Within(Arm(id, false)), tab)
  }

  /** The code for s stands at pc. */
  ghost predicate Placed(im: Image, s: Stmt, pc: int, sc: Scope, tab: Table)
    decreases s
  {
    match s
    case Skip => true
    case Then(a, b) => Placed(im, a, pc, sc, tab) && Placed(im, b, pc + Size(a, sc, tab), sc, tab)
    case Basic(op) => im.At(pc, IExec(op))
    case If(id, cond, thn) =>
      im.At(pc, ICond(cond, ElseEnd(id), -1)) && Placed(im, thn, pc + 1, sc, tab) &&
      im.LabAt(ElseEnd(id), pc + 1 + Size(thn, sc, tab))
    case IfElse(id, cond, thn, els) =>
      var mid := pc + 1 + Size(thn, sc, tab);
      im.At(pc, ICond(cond, ElseBegin(id), -1)) && Placed(im, thn, pc + 1, sc, tab) &&
      im.At(mid, IGoto(ElseEnd(id), -1)) && im.LabAt(ElseBegin(id), mid + 1) && Placed(im, els, mid + 1, sc, tab) &&
      im.LabAt(ElseEnd(id), mid + 1 + Size(els, sc, tab))
    case While(id, cond, body) =>
      var end := pc + 1 + Size(body, sc.Inside(id), tab);
      im.LabAt(LoopBegin(id), pc) && im.At(pc, ICond(cond, LoopEnd(id), -1)) &&
      Placed(im, body, pc + 1, sc.Inside(id), tab) && im.At(end, IGoto(LoopBegin(id), -1)) && im.LabAt(LoopEnd(id), end + 1)
    case Exit(_, isBreak) =>
      Cleans(im, pc, sc.arms, ExitDepth(sc, tab)) &&
      im.At(pc + Excess(sc.arms, ExitDepth(sc, tab)), IGoto(ExitLab(sc, isBreak), -1))
    case Return(_, op) =>
      im.At(pc, IReturn(op)) && Cleans(im, pc + 1, sc.arms, 0) && im.At(pc + 1 + |sc.arms|, IGoto(EndOfProc, -1))
    case Goto(_, target) =>
      Cleans(im, pc, sc.arms, tab.LabelDepth(target)) &&
      im.At(pc + Excess(sc.arms, tab.LabelDepth(target)), IGoto(User(target), -1))
    case Label(_, name) => im.LabAt(User(name), pc)
    case TryCatch(id, body, handler) =>
      var mid := pc + 1 + Size(body, sc.Within(Arm(id, true)), tab);
      var end := mid + 2 + Size(handler, sc.Within(Arm(id, false)), tab);
      im.At(pc, ISave(CatchBegin(id), -1)) && Placed(im, body, pc + 1, sc.Within(Arm(id, true)), tab) &&
      im.At(mid, IFull) && im.At(mid + 1, IGoto(CatchEnd(id), -1)) && im.LabAt(CatchBegin(id), mid + 2) &&
      Placed(im, handler, mid + 2, sc.Within(Arm(id, false)), tab) &&
      im.At(end, IPartial) && im.LabAt(CatchEnd(id), end + 1)
  }

  /** An executable image of the program: everything placed from position 0, nothing after it. */
  ghost predicate Compiled(program: Stmt, tab: Table, im: Image) {
    im.linked && |im.code| == Size(program, ROOT, tab) && Placed(im, program, 0, ROOT, tab) &&
    im.LabAt(EndOfProc, |im.code|)
  }

  lemma {:induction false} CleansCarries(im: Image, im': Image, pc: int, arms: seq<Arm>, depth: nat)
    requires Cleans(im, pc, arms, depth) && im.Carries(im')
    ensures Cleans(im', pc, arms, depth)
    decreases |arms|
  {
    if |arms| > depth {
      assert im'.At(pc, Restore(arms[|arms| - 1]));
      CleansCarries(im, im', pc + 1, arms[..|arms| - 1], depth);
    }
  }

  lemma {:induction false} PlacedCarries(im: Image, im': Image, s: Stmt, pc: int, sc: Scope, tab: Table)
    requires Placed(im, s, pc, sc, tab) && im.Carries(im')
    ensures Placed(im', s, pc, sc, tab)
    decreases s
  {
    hide *;
    match s {
      case Skip => PlacedLeaf(im, im', s, pc, sc, tab);
      case Then(a, b) =>
        PlacedThen(im, a, b, pc, sc, tab);
        PlacedCarries(im, im', a, pc, sc, tab);
        PlacedCarries(im, im', b, pc + Size(a, sc, tab), sc, tab);
        PlacedThen(im', a, b, pc, sc, tab);
      case Basic(_) => PlacedLeaf(im, im', s, pc, sc, tab);
      case If(_, _, thn) =>
        PlacedIf(im, s, pc, sc, tab);
        PlacedCarries(im, im', thn, pc + 1, sc, tab);
        CarriedIf(im, im', s, pc, sc, tab);
      case IfElse(_, _, thn, els) =>
        PlacedIfElse(im, s, pc, sc, tab);
        PlacedCarries(im, im', thn, pc + 1, sc, tab);
        PlacedCarries(im, im', els, pc + 2 + Size(thn, sc, tab), sc, tab);
        CarriedIfElse(im, im', s, pc, sc, tab);
      case While(id, _, body) =>
        PlacedWhile(im, s, pc, sc, tab);
        PlacedCarries(im, im', body, pc + 1, sc.Inside(id), tab);
        CarriedWhile(im, im', s, pc, sc, tab);
      case TryCatch(id, body, handler) =>
        PlacedTry(im, s, pc, sc, tab);
        PlacedCarries(im, im', body, pc + 1, sc.Within(Arm(id, true)), tab);
        PlacedCarries(im, im', handler, pc + 3 + Size(body, sc.Within(Arm(id, true)), tab), sc.Within(Arm(id, false)), tab);
        CarriedTry(im, im', s, pc, sc, tab);
      case _ => PlacedJump(im, im', s, pc, sc, tab);
    }
  }

  lemma {:induction false} PlacedLeaf(im: Image, im': Image, s: Stmt, pc: int, sc: Scope, tab: Table)
    requires (s.Skip? || s.Basic?) && Placed(im, s, pc, sc, tab) && im.Carries(im')
    ensures Placed(im', s, pc, sc, tab)
  {
    hide Image.At, Image.LabAt, Size, Cleans;
  }

  lemma {:induction false} PlacedJump(im: Image, im': Image, s: Stmt, pc: int, sc: Scope, tab: Table)
    requires (s.Exit? || s.Return? || s.Goto? || s.Label?) && Placed(im, s, pc, sc, tab) && im.Carries(im')
    ensures Placed(im', s, pc, sc, tab)
  {
    hide Image.At, Image.LabAt, Size, Cleans;
    match s
    case Exit(_, _) => CleansCarries(im, im', pc, sc.arms, ExitDepth(sc, tab));
    case Return(_, _) => CleansCarries(im, im', pc + 1, sc.arms, 0);
    case Goto(_, target) => CleansCarries(im, im', pc, sc.arms, tab.LabelDepth(target));
    case _ =>
  }

  lemma {:induction false} PlacedThen(im: Image, a: Stmt, b: Stmt, pc: int, sc: Scope, tab: Table)
    ensures Placed(im, Then(a, b), pc, sc, tab) <==> Placed(im, a, pc, sc, tab) && Placed(im, b, pc + Size(a, sc, tab), sc, tab)
  {
  }

  lemma {:induction false} PlacedIf(im: Image, s: Stmt, pc: int, sc: Scope, tab: Table)
    requires s.If? && Placed(im, s, pc, sc, tab)
    ensures Placed(im, s.thn, pc + 1, sc, tab)
  {
  }

  lemma {:induction false} CarriedIf(im: Image, im': Image, s: Stmt, pc: int, sc: Scope, tab: Table)
    requires s.If? && Placed(im, s, pc, sc, tab) && im.Carries(im') && Placed(im', s.thn, pc + 1, sc, tab)
    ensures Placed(im', s, pc, sc, tab)
  {
    hide Image.At, Image.LabAt, Size, Cleans;
  }

  lemma {:induction false} PlacedIfElse(im: Image, s: Stmt, pc: int, sc: Scope, tab: Table)
    requires s.IfElse? && Placed(im, s, pc, sc, tab)
    ensures Placed(im, s.thn, pc + 1, sc, tab) && Placed(im, s.els, pc + 2 + Size(s.thn, sc, tab), sc, tab)
  {
  }

  lemma {:induction false} CarriedIfElse(im: Image, im': Image, s: Stmt, pc: int, sc: Scope, tab: Table)
    requires s.IfElse? && Placed(im, s, pc, sc, tab) && im.Carries(im')
    requires Placed(im', s.thn, pc + 1, sc, tab) && Placed(im', s.els, pc + 2 + Size(s.thn, sc, tab), sc, tab)
    ensures Placed(im', s, pc, sc, tab)
  {
    hide Image.At, Image.LabAt, Size, Cleans;
  }

  lemma {:induction false} PlacedWhile(im: Image, s: Stmt, pc: int, sc: Scope, tab: Table)
    requires s.While? && Placed(im, s, pc, sc, tab)
    ensures Placed(im, s.body, pc + 1, sc.Inside(s.id), tab)
  {
  }

  lemma {:induction false} CarriedWhile(im: Image, im': Image, s: Stmt, pc: int, sc: Scope, tab: Table)
    requires s.While? && Placed(im, s, pc, sc, tab) && im.Carries(im') && Placed(im', s.body, pc + 1, sc.Inside(s.id), tab)
    ensures Placed(im', s, pc, sc, tab)
  {
    hide Image.At, Image.LabAt, Size, Cleans;
  }

  lemma {:induction false} PlacedTry(im: Image, s: Stmt, pc: int, sc: Scope, tab: Table)
    requires s.TryCatch? && Placed(im, s, pc, sc, tab)
    ensures Placed(im, s.body, pc + 1, sc.Within(Arm(s.id, true)), tab)
    ensures Placed(im, s.handler, pc + 3 + Size(s.body, sc.Within(Arm(s.id, true)), tab), sc.Within(Arm(s.id, false)), tab)
  {
  }

  lemma {:induction false} CarriedTry(im: Image, im': Image, s: Stmt, pc: int, sc: Scope, tab: Table)
    requires s.TryCatch? && Placed(im, s, pc, sc, tab) && im.Carries(im')
    requires Placed(im', s.body, pc + 1, sc.Within(Arm(s.id, true)), tab)
    requires Placed(im', s.handler, pc + 3 + Size(s.body, sc.Within(Arm(s.id, true)), tab), sc.Within(Arm(s.id, false)), tab)
    ensures Placed(im', s, pc, sc, tab)
  {
    hide Image.At, Image.LabAt, Size, Cleans;
  }
}
