/** Code generation: one walk that appends instructions and registers labels, then a pass that fills
    in the targets of the jumps. */
module Codegen {
  import opened Control
  import opened Layout

  // ---- Growing an image ----

  function Add(im: Image, i: Instr): Image { im.(code := im.code + [i]) }

  /** Registers the label at the next free position. */
  function Define(im: Image, lab: Lab): Image { im.(labels := im.labels[lab := |im.code|]) }

  /** A label of one of the given nodes, or one of the given names. */
  predicate Owned(lab: Lab, ids: set<int>, names: set<string>) {
    match lab
    case EndOfProc => false
    case User(name) => name in names
    case LoopBegin(id) => id in ids
    case LoopEnd(id) => id in ids
    case CatchBegin(id) => id in ids
    case CatchEnd(id) => id in ids
    case ElseBegin(id) => id in ids
    case ElseEnd(id) => id in ids
  }

  ghost predicate Fresh(im: Image, ids: set<int>, names: set<string>) {
    forall lab :: lab in im.labels ==> !Owned(lab, ids, names)
  }

  /** im' keeps everything im holds, and its new labels belong to the given nodes and names. */
  ghost predicate Grows(im: Image, im': Image, ids: set<int>, names: set<string>) {
    !im.linked && !im'.linked && im.code <= im'.code &&
    (forall lab :: lab in im.labels ==> im'.LabAt(lab, im.labels[lab])) &&
    (forall lab :: lab in im'.labels ==> lab in im.labels || Owned(lab, ids, names))
  }

  /** im' is im with the code of s behind it. */
  ghost predicate Emits(im: Image, s: Stmt, sc: Scope, tab: Table, im': Image) {
    Grows(im, im', Ids(s), Names(s)) && |im'.code| == |im.code| + Size(s, sc, tab) && Placed(im', s, |im.code|, sc, tab)
  }

  lemma {:induction false} GrowsTwo(im: Image, im1: Image, im2: Image, ids: set<int>, names: set<string>,
                                    ids1: set<int>, names1: set<string>, ids2: set<int>, names2: set<string>)
    requires Grows(im, im1, ids1, names1) && Grows(im1, im2, ids2, names2)
    requires ids1 <= ids && ids2 <= ids && names1 <= names && names2 <= names
    ensures Grows(im, im2, ids, names)
  {
    forall lab | lab in im2.labels ensures lab in im.labels || Owned(lab, ids, names) {
      if lab in im1.labels { assert lab in im.labels || Owned(lab, ids1, names1); }
    }
    forall lab | lab in im.labels ensures im2.LabAt(lab, im.labels[lab]) {
      assert im1.LabAt(lab, im.labels[lab]);
    }
  }

  lemma {:induction false} AddGrows(im: Image, i: Instr)
    requires !im.linked
    ensures Grows(im, Add(im, i), {}, {}) && Add(im, i).At(|im.code|, i) && |Add(im, i).code| == |im.code| + 1
  {
  }

  lemma {:induction false} DefineGrows(im: Image, lab: Lab, ids: set<int>, names: set<string>)
    requires !im.linked && lab !in im.labels && (Owned(lab, ids, names))
    ensures Grows(im, Define(im, lab), ids, names) && Define(im, lab).LabAt(lab, |im.code|) && |Define(im, lab).code| == |im.code|
  {
  }

  lemma {:induction false} GrowsCarries(im: Image, im': Image, ids: set<int>, names: set<string>)
    requires Grows(im, im', ids, names)
    ensures im.Carries(im')
  {
  }

  lemma {:induction false} StillFresh(im: Image, im': Image, ids: set<int>, names: set<string>, ids1: set<int>, names1: set<string>)
    requires Grows(im, im', ids1, names1) && Fresh(im, ids, names) && ids !! ids1 && names !! names1
    ensures Fresh(im', ids, names)
  {
    forall lab | lab in im'.labels ensures !Owned(lab, ids, names) {
      assert lab in im.labels || Owned(lab, ids1, names1);
    }
  }

  lemma {:induction false} FreshPart(im: Image, ids: set<int>, names: set<string>, ids': set<int>, names': set<string>)
    requires Fresh(im, ids, names) && ids' <= ids && names' <= names
    ensures Fresh(im, ids', names')
  {
    forall lab | lab in im.labels ensures !Owned(lab, ids', names') { assert !Owned(lab, ids, names); }
  }

  // ---- What each statement emits ----

  /** im grows by sub-steps to im'; a shorthand for the frame of a composite statement. */
  ghost predicate Reaches(im: Image, im': Image, s: Stmt) { Grows(im, im', Ids(s), Names(s)) }

  lemma {:induction false} ReachAdd(im: Image, im1: Image, s: Stmt, i: Instr)
    requires Reaches(im, im1, s)
    ensures Reaches(im, Add(im1, i), s) && im1.Carries(Add(im1, i)) && Add(im1, i).At(|im1.code|, i)
    ensures |Add(im1, i).code| == |im1.code| + 1 && Add(im1, i).labels == im1.labels
  {
    AddGrows(im1, i);
    GrowsTwo(im, im1, Add(im1, i), Ids(s), Names(s), Ids(s), Names(s), {}, {});
    GrowsCarries(im1, Add(im1, i), {}, {});
  }

  lemma {:induction false} ReachDefine(im: Image, im1: Image, s: Stmt, lab: Lab)
    requires Reaches(im, im1, s) && lab !in im1.labels && Owned(lab, Ids(s), Names(s))
    ensures Reaches(im, Define(im1, lab), s) && im1.Carries(Define(im1, lab)) && Define(im1, lab).LabAt(lab, |im1.code|)
    ensures |Define(im1, lab).code| == |im1.code| && Define(im1, lab).labels.Keys == im1.labels.Keys + {lab}
  {
    DefineGrows(im1, lab, Ids(s), Names(s));
    GrowsTwo(im, im1, Define(im1, lab), Ids(s), Names(s), Ids(s), Names(s), Ids(s), Names(s));
    GrowsCarries(im1, Define(im1, lab), Ids(s), Names(s));
  }

  lemma {:induction false} ReachEmit(im: Image, im1: Image, s: Stmt, part: Stmt, sc: Scope, tab: Table, im2: Image)
    requires Reaches(im, im1, s) && Emits(im1, part, sc, tab, im2) && Ids(part) <= Ids(s) && Names(part) <= Names(s)
    ensures Reaches(im, im2, s) && im1.Carries(im2) && |im2.code| == |im1.code| + Size(part, sc, tab) && Placed(im2, part, |im1.code|, sc, tab)
    ensures Grows(im1, im2, Ids(part), Names(part))
  {
    GrowsTwo(im, im1, im2, Ids(s), Names(s), Ids(s), Names(s), Ids(part), Names(part));
    GrowsCarries(im1, im2, Ids(part), Names(part));
  }

  lemma {:induction false} ReachSelf(im: Image, s: Stmt)
    requires !im.linked
    ensures Reaches(im, im, s)
  {
  }

  /** An instruction and, behind it, a label. */
  lemma {:induction false} ReachMark(im: Image, im1: Image, s: Stmt, i: Instr, lab: Lab)
    requires Reaches(im, im1, s) && lab !in im1.labels && Owned(lab, Ids(s), Names(s))
    ensures var im2 := Define(Add(im1, i), lab);
            Reaches(im, im2, s) && im1.Carries(im2) && im2.At(|im1.code|, i) && im2.LabAt(lab, |im1.code| + 1) &&
            |im2.code| == |im1.code| + 1 && im2.labels.Keys == im1.labels.Keys + {lab}
  {
    hide *;
    ReachAdd(im, im1, s, i);
    ReachDefine(im, Add(im1, i), s, lab);
    CarriesTwo(im1, Add(im1, i), Define(Add(im1, i), lab));
    AtCarried(Add(im1, i), Define(Add(im1, i), lab), |im1.code|, i);
  }

  lemma {:induction false} CarriesTwo(im: Image, im1: Image, im2: Image)
    requires im.Carries(im1) && im1.Carries(im2)
    ensures im.Carries(im2)
  {
  }

  lemma {:induction false} AtCarried(im: Image, im': Image, pc: int, i: Instr)
    requires im.Carries(im') && im.At(pc, i)
    ensures im'.At(pc, i)
  {
  }

  lemma {:induction false} LabCarried(im: Image, im': Image, lab: Lab, pc: int)
    requires im.Carries(im') && im.LabAt(lab, pc)
    ensures im'.LabAt(lab, pc)
  {
  }

  lemma {:induction false} EmitsIs(im: Image, s: Stmt, sc: Scope, tab: Table, im': Image)
    requires Reaches(im, im', s) && |im'.code| == |im.code| + Size(s, sc, tab) && Placed(im', s, |im.code|, sc, tab)
    ensures Emits(im, s, sc, tab, im')
  {
  }

  /** The nodes, names and size of a composite statement, from its parts. */
  lemma {:induction false} Composite(s: Stmt, sc: Scope, tab: Table)
    ensures s.Then? ==> Ids(s) == Ids(s.first) + Ids(s.rest) && Names(s) == Names(s.first) + Names(s.rest) &&
                        Size(s, sc, tab) == Size(s.first, sc, tab) + Size(s.rest, sc, tab)
    ensures s.If? ==> Ids(s) == {s.id} + Ids(s.thn) && Names(s) == Names(s.thn) && Size(s, sc, tab) == 1 + Size(s.thn, sc, tab)
    ensures s.IfElse? ==> Ids(s) == {s.id} + Ids(s.thn) + Ids(s.els) && Names(s) == Names(s.thn) + Names(s.els) &&
                          Size(s, sc, tab) == 2 + Size(s.thn, sc, tab) + Size(s.els, sc, tab)
    ensures s.While? ==> Ids(s) == {s.id} + Ids(s.body) && Names(s) == Names(s.body) &&
                         Size(s, sc, tab) == 2 + Size(s.body, sc.Inside(s.id), tab)
    ensures s.TryCatch? ==> Ids(s) == {s.id} + Ids(s.body) + Ids(s.handler) && Names(s) == Names(s.body) + Names(s.handler) &&
                            Size(s, sc, tab) == 4 + Size(s.body, sc.Within(Arm(s.id, true)), tab) + Size(s.handler, sc.Within(Arm(s.id, false)), tab)
  {
  }

  lemma {:induction false} DistinctParts(s: Stmt)
    requires DistinctIds(s)
    ensures s.If? ==> s.id !in Ids(s.thn)
    ensures s.IfElse? ==> s.id !in Ids(s.thn) && s.id !in Ids(s.els) && Ids(s.thn) !! Ids(s.els)
    ensures s.While? ==> s.id !in Ids(s.body)
    ensures s.TryCatch? ==> s.id !in Ids(s.body) && s.id !in Ids(s.handler) && Ids(s.body) !! Ids(s.handler)
  {
  }

  lemma {:induction false} EmitThen(im: Image, a: Stmt, b: Stmt, sc: Scope, tab: Table, im1: Image, im2: Image)
    requires !im.linked && Emits(im, a, sc, tab, im1) && Emits(im1, b, sc, tab, im2)
    ensures Emits(im, Then(a, b), sc, tab, im2)
  {
    hide *;
    var s := Then(a, b);
    Composite(s, sc, tab);
    ReachSelf(im, s);
    ReachEmit(im, im, s, a, sc, tab, im1);
    ReachEmit(im, im1, s, b, sc, tab, im2);
    PlacedCarries(im1, im2, a, |im.code|, sc, tab);
    PlacedThen(im2, a, b, |im.code|, sc, tab);
    EmitsIs(im, s, sc, tab, im2);
  }

  lemma {:induction false} IfParts(im: Image, s: Stmt, pc: int, sc: Scope, tab: Table)
    requires s.If? && im.At(pc, ICond(s.cond, ElseEnd(s.id), -1)) && Placed(im, s.thn, pc + 1, sc, tab)
    requires im.LabAt(ElseEnd(s.id), pc + 1 + Size(s.thn, sc, tab))
    ensures Placed(im, s, pc, sc, tab)
  {
  }

  lemma {:induction false} EmitIf(im: Image, s: Stmt, sc: Scope, tab: Table, im2: Image)
    requires s.If? && !im.linked && Fresh(im, Ids(s), Names(s)) && DistinctIds(s)
    requires Emits(Add(im, ICond(s.cond, ElseEnd(s.id), -1)), s.thn, sc, tab, im2)
    ensures Emits(im, s, sc, tab, Define(im2, ElseEnd(s.id)))
  {
    var im1 := Add(im, ICond(s.cond, ElseEnd(s.id), -1));
    var im3 := Define(im2, ElseEnd(s.id));
    hide *;
    Composite(s, sc, tab);
    DistinctParts(s);
    OwnLabels(s.id, Ids(s), Names(s));
    ReachSelf(im, s);
    ReachAdd(im, im, s, ICond(s.cond, ElseEnd(s.id), -1));
    ReachEmit(im, im1, s, s.thn, sc, tab, im2);
    NewLabels(im, im1, im2, s, s.thn);
    ReachDefine(im, im2, s, ElseEnd(s.id));
    PlacedCarries(im2, im3, s.thn, |im1.code|, sc, tab);
    CarriesTwo(im1, im2, im3);
    AtCarried(im1, im3, |im.code|, ICond(s.cond, ElseEnd(s.id), -1));
    IfParts(im3, s, |im.code|, sc, tab);
    EmitsIs(im, s, sc, tab, im3);
  }

  lemma {:induction false} OwnLabels(id: int, ids: set<int>, names: set<string>)
    requires id in ids
    ensures Owned(LoopBegin(id), ids, names) && Owned(LoopEnd(id), ids, names) && Owned(CatchBegin(id), ids, names) &&
            Owned(CatchEnd(id), ids, names) && Owned(ElseBegin(id), ids, names) && Owned(ElseEnd(id), ids, names)
  {
  }

  /** The labels of s itself are still undefined after a part has been emitted. */
  lemma {:induction false} NewLabels(im: Image, im1: Image, im2: Image, s: Stmt, part: Stmt)
    requires Fresh(im, Ids(s), Names(s)) && im1.labels == im.labels && Grows(im1, im2, Ids(part), Names(part))
    requires s.If? || s.IfElse? || s.While? || s.TryCatch?
    requires s.id in Ids(s) && s.id !in Ids(part)
    ensures ElseBegin(s.id) !in im2.labels && ElseEnd(s.id) !in im2.labels && LoopBegin(s.id) !in im2.labels &&
            LoopEnd(s.id) !in im2.labels && CatchBegin(s.id) !in im2.labels && CatchEnd(s.id) !in im2.labels
  {
  }

  /** The second part's labels are still undefined once the first part and a label of s are there. */
  lemma {:induction false} FreshSecond(im: Image, im1: Image, im2: Image, im3: Image, s: Stmt, a: Stmt, b: Stmt, lab: Lab)
    requires Fresh(im, Ids(s), Names(s)) && im1.labels == im.labels && Grows(im1, im2, Ids(a), Names(a))
    requires Ids(a) !! Ids(b) && Names(a) !! Names(b) && Ids(b) <= Ids(s) && Names(b) <= Names(s)
    requires im3.labels.Keys <= im2.labels.Keys + {lab} && !Owned(lab, Ids(b), Names(b))
    ensures Fresh(im3, Ids(b), Names(b))
  {
    forall l | l in im3.labels ensures !Owned(l, Ids(b), Names(b)) {
      assert l in im3.labels.Keys;
      if l != lab { assert l in im.labels || Owned(l, Ids(a), Names(a)); }
      if l in im.labels { assert !Owned(l, Ids(s), Names(s)); }
    }
  }

  lemma {:induction false} NewSecond(im: Image, im3: Image, im4: Image, s: Stmt, lab: Lab, lab': Lab, part: Stmt)
    requires im3.labels.Keys <= im.labels.Keys + {lab'} && lab !in im.labels && lab != lab'
    requires Grows(im3, im4, Ids(part), Names(part)) && !Owned(lab, Ids(part), Names(part))
    ensures lab !in im4.labels
  {
    assert lab !in im3.labels.Keys;
  }

  lemma {:induction false} IfElseParts(im: Image, s: Stmt, pc: int, sc: Scope, tab: Table)
    requires s.IfElse? && im.At(pc, ICond(s.cond, ElseBegin(s.id), -1)) && Placed(im, s.thn, pc + 1, sc, tab)
    requires im.At(pc + 1 + Size(s.thn, sc, tab), IGoto(ElseEnd(s.id), -1))
    requires im.LabAt(ElseBegin(s.id), pc + 2 + Size(s.thn, sc, tab)) && Placed(im, s.els, pc + 2 + Size(s.thn, sc, tab), sc, tab)
    requires im.LabAt(ElseEnd(s.id), pc + 2 + Size(s.thn, sc, tab) + Size(s.els, sc, tab))
    ensures Placed(im, s, pc, sc, tab)
  {
    hide Image.At, Image.LabAt, Size;
  }

  lemma {:induction false} EmitIfElse(im: Image, s: Stmt, sc: Scope, tab: Table, im2: Image, im5: Image)
    requires s.IfElse? && !im.linked && Fresh(im, Ids(s), Names(s)) && DistinctIds(s)
    requires Emits(Add(im, ICond(s.cond, ElseBegin(s.id), -1)), s.thn, sc, tab, im2)
    requires Emits(Define(Add(im2, IGoto(ElseEnd(s.id), -1)), ElseBegin(s.id)), s.els, sc, tab, im5)
    ensures Emits(im, s, sc, tab, Define(im5, ElseEnd(s.id)))
  {
    var im1 := Add(im, ICond(s.cond, ElseBegin(s.id), -1));
    var im4 := Define(Add(im2, IGoto(ElseEnd(s.id), -1)), ElseBegin(s.id));
    var im6 := Define(im5, ElseEnd(s.id));
    hide *;
    Composite(s, sc, tab);
    DistinctParts(s);
    OwnLabels(s.id, Ids(s), Names(s));
    NotOwned(s.id, Ids(s.els), Names(s.els));
    ReachSelf(im, s);
    ReachAdd(im, im, s, ICond(s.cond, ElseBegin(s.id), -1));
    ReachEmit(im, im1, s, s.thn, sc, tab, im2);
    NewLabels(im, im1, im2, s, s.thn);
    ReachMark(im, im2, s, IGoto(ElseEnd(s.id), -1), ElseBegin(s.id));
    ReachEmit(im, im4, s, s.els, sc, tab, im5);
    NewSecond(im2, im4, im5, s, ElseEnd(s.id), ElseBegin(s.id), s.els);
    ReachDefine(im, im5, s, ElseEnd(s.id));
    IfElseAssembled(im, s, sc, tab, im1, im2, im4, im5, im6);
    EmitsIs(im, s, sc, tab, im6);
  }

  lemma {:induction false} IfElseAssembled(im: Image, s: Stmt, sc: Scope, tab: Table, im1: Image, im2: Image,
                                           im4: Image, im5: Image, im6: Image)
    requires s.IfElse? && im1.Carries(im2) && im2.Carries(im4) && im4.Carries(im5) && im5.Carries(im6)
    requires |im1.code| == |im.code| + 1 && im1.At(|im.code|, ICond(s.cond, ElseBegin(s.id), -1))
    requires |im2.code| == |im1.code| + Size(s.thn, sc, tab) && Placed(im2, s.thn, |im1.code|, sc, tab)
    requires |im4.code| == |im2.code| + 1 && im4.At(|im2.code|, IGoto(ElseEnd(s.id), -1)) && im4.LabAt(ElseBegin(s.id), |im4.code|)
    requires |im5.code| == |im4.code| + Size(s.els, sc, tab) && Placed(im5, s.els, |im4.code|, sc, tab)
    requires im6.LabAt(ElseEnd(s.id), |im5.code|)
    ensures Placed(im6, s, |im.code|, sc, tab)
  {
    hide *;
    CarriesTwo(im4, im5, im6);
    CarriesTwo(im2, im4, im6);
    CarriesTwo(im1, im2, im6);
    AtCarried(im1, im6, |im.code|, ICond(s.cond, ElseBegin(s.id), -1));
    PlacedCarries(im2, im6, s.thn, |im1.code|, sc, tab);
    AtCarried(im4, im6, |im2.code|, IGoto(ElseEnd(s.id), -1));
    LabCarried(im4, im6, ElseBegin(s.id), |im4.code|);
    PlacedCarries(im5, im6, s.els, |im4.code|, sc, tab);
    IfElseParts(im6, s, |im.code|, sc, tab);
  }

  lemma {:induction false} NotOwned(id: int, ids: set<int>, names: set<string>)
    requires id !in ids
    ensures !Owned(LoopBegin(id), ids, names) && !Owned(LoopEnd(id), ids, names) && !Owned(CatchBegin(id), ids, names) &&
            !Owned(CatchEnd(id), ids, names) && !Owned(ElseBegin(id), ids, names) && !Owned(ElseEnd(id), ids, names)
  {
  }

  lemma {:induction false} WhileParts(im: Image, s: Stmt, pc: int, sc: Scope, tab: Table)
    requires s.While? && im.LabAt(LoopBegin(s.id), pc) && im.At(pc, ICond(s.cond, LoopEnd(s.id), -1))
    requires Placed(im, s.body, pc + 1, sc.Inside(s.id), tab)
    requires im.At(pc + 1 + Size(s.body, sc.Inside(s.id), tab), IGoto(LoopBegin(s.id), -1))
    requires im.LabAt(LoopEnd(s.id), pc + 2 + Size(s.body, sc.Inside(s.id), tab))
    ensures Placed(im, s, pc, sc, tab)
  {
    hide Image.At, Image.LabAt, Size;
  }

  lemma {:induction false} WhileHead(im: Image, s: Stmt)
    requires s.While? && !im.linked && LoopBegin(s.id) !in im.labels && Owned(LoopBegin(s.id), Ids(s), Names(s))
    ensures var i := ICond(s.cond, LoopEnd(s.id), -1);
            var im2 := Add(Define(im, LoopBegin(s.id)), i);
            Reaches(im, im2, s) && im2.LabAt(LoopBegin(s.id), |im.code|) && im2.At(|im.code|, i) &&
            |im2.code| == |im.code| + 1 && im2.labels.Keys == im.labels.Keys + {LoopBegin(s.id)}
  {
    hide *;
    var im1, i := Define(im, LoopBegin(s.id)), ICond(s.cond, LoopEnd(s.id), -1);
    ReachSelf(im, s);
    ReachDefine(im, im, s, LoopBegin(s.id));
    ReachAdd(im, im1, s, i);
    LabCarried(im1, Add(im1, i), LoopBegin(s.id), |im.code|);
  }

  lemma {:induction false} EmitWhile(im: Image, s: Stmt, sc: Scope, tab: Table, im3: Image)
    requires s.While? && !im.linked && Fresh(im, Ids(s), Names(s)) && DistinctIds(s)
    requires Emits(Add(Define(im, LoopBegin(s.id)), ICond(s.cond, LoopEnd(s.id), -1)), s.body, sc.Inside(s.id), tab, im3)
    ensures Emits(im, s, sc, tab, Define(Add(im3, IGoto(LoopBegin(s.id), -1)), LoopEnd(s.id)))
  {
    var im2 := Add(Define(im, LoopBegin(s.id)), ICond(s.cond, LoopEnd(s.id), -1));
    var im5 := Define(Add(im3, IGoto(LoopBegin(s.id), -1)), LoopEnd(s.id));
    hide *;
    Composite(s, sc, tab);
    DistinctParts(s);
    OwnLabels(s.id, Ids(s), Names(s));
    NotOwned(s.id, Ids(s.body), Names(s.body));
    FreshLabels(im, s);
    WhileHead(im, s);
    ReachEmit(im, im2, s, s.body, sc.Inside(s.id), tab, im3);
    NewSecond(im, im2, im3, s, LoopEnd(s.id), LoopBegin(s.id), s.body);
    ReachMark(im, im3, s, IGoto(LoopBegin(s.id), -1), LoopEnd(s.id));
    WhileAssembled(im, s, sc, tab, im2, im3, im5);
    EmitsIs(im, s, sc, tab, im5);
  }

  lemma {:induction false} WhileAssembled(im: Image, s: Stmt, sc: Scope, tab: Table, im2: Image, im3: Image, im5: Image)
    requires s.While? && im2.Carries(im3) && im3.Carries(im5) && |im2.code| == |im.code| + 1
    requires im2.LabAt(LoopBegin(s.id), |im.code|) && im2.At(|im.code|, ICond(s.cond, LoopEnd(s.id), -1))
    requires |im3.code| == |im2.code| + Size(s.body, sc.Inside(s.id), tab) && Placed(im3, s.body, |im2.code|, sc.Inside(s.id), tab)
    requires im5.At(|im3.code|, IGoto(LoopBegin(s.id), -1)) && im5.LabAt(LoopEnd(s.id), |im3.code| + 1)
    ensures Placed(im5, s, |im.code|, sc, tab)
  {
    hide *;
    CarriesTwo(im2, im3, im5);
    LabCarried(im2, im5, LoopBegin(s.id), |im.code|);
    AtCarried(im2, im5, |im.code|, ICond(s.cond, LoopEnd(s.id), -1));
    PlacedCarries(im3, im5, s.body, |im2.code|, sc.Inside(s.id), tab);
    WhileParts(im5, s, |im.code|, sc, tab);
  }

  lemma {:induction false} FreshLabels(im: Image, s: Stmt)
    requires (s.If? || s.IfElse? || s.While? || s.TryCatch?) && Fresh(im, Ids(s), Names(s)) && s.id in Ids(s)
    ensures ElseBegin(s.id) !in im.labels && ElseEnd(s.id) !in im.labels && LoopBegin(s.id) !in im.labels &&
            LoopEnd(s.id) !in im.labels && CatchBegin(s.id) !in im.labels && CatchEnd(s.id) !in im.labels
  {
  }

  lemma {:induction false} TryParts(im: Image, s: Stmt, pc: int, sc: Scope, tab: Table)
    requires s.TryCatch? && im.At(pc, ISave(CatchBegin(s.id), -1)) && Placed(im, s.body, pc + 1, sc.Within(Arm(s.id, true)), tab)
    requires var mid := pc + 1 + Size(s.body, sc.Within(Arm(s.id, true)), tab);
             var end := mid + 2 + Size(s.handler, sc.Within(Arm(s.id, false)), tab);
             im.At(mid, IFull) && im.At(mid + 1, IGoto(CatchEnd(s.id), -1)) && im.LabAt(CatchBegin(s.id), mid + 2) &&
             Placed(im, s.handler, mid + 2, sc.Within(Arm(s.id, false)), tab) && im.At(end, IPartial) && im.LabAt(CatchEnd(s.id), end + 1)
    ensures Placed(im, s, pc, sc, tab)
  {
    hide Image.At, Image.LabAt, Size;
  }

  /** Between the TRY arm and the CATCH arm. */
  lemma {:induction false} TryMiddle(im: Image, im2: Image, s: Stmt)
    requires s.TryCatch? && Reaches(im, im2, s) && CatchBegin(s.id) !in im2.labels && Owned(CatchBegin(s.id), Ids(s), Names(s))
    ensures var im5 := Define(Add(Add(im2, IFull), IGoto(CatchEnd(s.id), -1)), CatchBegin(s.id));
            Reaches(im, im5, s) && im2.Carries(im5) && im5.At(|im2.code|, IFull) && im5.At(|im2.code| + 1, IGoto(CatchEnd(s.id), -1)) &&
            im5.LabAt(CatchBegin(s.id), |im2.code| + 2) && |im5.code| == |im2.code| + 2 &&
            im5.labels.Keys == im2.labels.Keys + {CatchBegin(s.id)}
  {
    var im3, i := Add(im2, IFull), IGoto(CatchEnd(s.id), -1);
    var im5 := Define(Add(im3, i), CatchBegin(s.id));
    hide *;
    ReachAdd(im, im2, s, IFull);
    ReachMark(im, im3, s, i, CatchBegin(s.id));
    CarriesTwo(im2, im3, im5);
    AtCarried(im3, im5, |im2.code|, IFull);
  }

  lemma {:induction false} EmitTry(im: Image, s: Stmt, sc: Scope, tab: Table, im2: Image, im6: Image)
    requires s.TryCatch? && !im.linked && Fresh(im, Ids(s), Names(s)) && DistinctIds(s)
    requires Emits(Add(im, ISave(CatchBegin(s.id), -1)), s.body, sc.Within(Arm(s.id, true)), tab, im2)
    requires Emits(Define(Add(Add(im2, IFull), IGoto(CatchEnd(s.id), -1)), CatchBegin(s.id)), s.handler, sc.Within(Arm(s.id, false)), tab, im6)
    ensures Emits(im, s, sc, tab, Define(Add(im6, IPartial), CatchEnd(s.id)))
  {
    var im1 := Add(im, ISave(CatchBegin(s.id), -1));
    var im5 := Define(Add(Add(im2, IFull), IGoto(CatchEnd(s.id), -1)), CatchBegin(s.id));
    var im8 := Define(Add(im6, IPartial), CatchEnd(s.id));
    var inTry, inCatch := sc.Within(Arm(s.id, true)), sc.Within(Arm(s.id, false));
    hide *;
    Composite(s, sc, tab);
    DistinctParts(s);
    OwnLabels(s.id, Ids(s), Names(s));
    NotOwned(s.id, Ids(s.handler), Names(s.handler));
    ReachSelf(im, s);
    ReachAdd(im, im, s, ISave(CatchBegin(s.id), -1));
    ReachEmit(im, im1, s, s.body, inTry, tab, im2);
    NewLabels(im, im1, im2, s, s.body);
    TryMiddle(im, im2, s);
    ReachEmit(im, im5, s, s.handler, inCatch, tab, im6);
    NewSecond(im2, im5, im6, s, CatchEnd(s.id), CatchBegin(s.id), s.handler);
    ReachMark(im, im6, s, IPartial, CatchEnd(s.id));
    CarriesTwo(im5, im6, im8);
    TryAssembled(im, s, sc, tab, im1, im2, im5, im6, im8);
    EmitsIs(im, s, sc, tab, im8);
  }

  lemma {:induction false} TryAssembled(im: Image, s: Stmt, sc: Scope, tab: Table, im1: Image, im2: Image, im5: Image,
                                        im6: Image, im8: Image)
    requires s.TryCatch? && im1.Carries(im2) && im2.Carries(im5) && im5.Carries(im8) && im6.Carries(im8)
    requires |im1.code| == |im.code| + 1 && im1.At(|im.code|, ISave(CatchBegin(s.id), -1))
    requires |im2.code| == |im1.code| + Size(s.body, sc.Within(Arm(s.id, true)), tab) && |im5.code| == |im2.code| + 2
    requires Placed(im2, s.body, |im1.code|, sc.Within(Arm(s.id, true)), tab)
    requires im5.At(|im2.code|, IFull) && im5.At(|im2.code| + 1, IGoto(CatchEnd(s.id), -1)) && im5.LabAt(CatchBegin(s.id), |im2.code| + 2)
    requires |im6.code| == |im5.code| + Size(s.handler, sc.Within(Arm(s.id, false)), tab)
    requires Placed(im6, s.handler, |im5.code|, sc.Within(Arm(s.id, false)), tab)
    requires im8.At(|im6.code|, IPartial) && im8.LabAt(CatchEnd(s.id), |im6.code| + 1)
    ensures Placed(im8, s, |im.code|, sc, tab)
  {
    hide *;
    CarriesTwo(im2, im5, im8);
    CarriesTwo(im1, im2, im8);
    AtCarried(im1, im8, |im.code|, ISave(CatchBegin(s.id), -1));
    PlacedCarries(im2, im8, s.body, |im1.code|, sc.Within(Arm(s.id, true)), tab);
    AtCarried(im5, im8, |im2.code|, IFull);
    AtCarried(im5, im8, |im2.code| + 1, IGoto(CatchEnd(s.id), -1));
    LabCarried(im5, im8, CatchBegin(s.id), |im2.code| + 2);
    PlacedCarries(im6, im8, s.handler, |im5.code|, sc.Within(Arm(s.id, false)), tab);
    TryParts(im8, s, |im.code|, sc, tab);
  }

  // ---- Leaving arms ----

  /** One more arm is left. */
  lemma {:induction false} CleansMore(im: Image, pc: int, arms: seq<Arm>, depth: nat)
    requires depth < |arms| && Cleans(im, pc, arms, depth + 1) && im.At(pc + |arms| - depth - 1, Restore(arms[depth]))
    ensures Cleans(im, pc, arms, depth)
    decreases |arms|
  {
    if depth + 1 < |arms| {
      var n := |arms| - 1;
      CleansMore(im, pc + 1, arms[..n], depth);
    }
  }

  /** A jump behind the restore instructions it needs. */
  lemma {:induction false} EmitJump(im: Image, s: Stmt, sc: Scope, tab: Table, im1: Image, i: Instr)
    requires Grows(im, im1, {}, {}) && ((s.Exit? && i == IGoto(ExitLab(sc, s.isBreak), -1)) || (s.Goto? && i == IGoto(User(s.target), -1)))
    requires var depth := if s.Exit? then ExitDepth(sc, tab) else tab.LabelDepth(s.target);
             |im1.code| == |im.code| + Excess(sc.arms, depth) && Cleans(im1, |im.code|, sc.arms, depth)
    ensures Emits(im, s, sc, tab, Add(im1, i))
  {
    var depth := if s.Exit? then ExitDepth(sc, tab) else tab.LabelDepth(s.target);
    AddGrows(im1, i);
    GrowsTwo(im, im1, Add(im1, i), Ids(s), Names(s), {}, {}, {}, {});
    GrowsCarries(im1, Add(im1, i), {}, {});
    CleansCarries(im1, Add(im1, i), |im.code|, sc.arms, depth);
    hide Grows, Cleans;
  }

  lemma {:induction false} EmitReturn(im: Image, s: Stmt, sc: Scope, tab: Table, im2: Image)
    requires s.Return? && !im.linked && Grows(Add(im, IReturn(s.op)), im2, {}, {})
    requires |im2.code| == |im.code| + 1 + |sc.arms| && Cleans(im2, |im.code| + 1, sc.arms, 0)
    ensures Emits(im, s, sc, tab, Add(im2, IGoto(EndOfProc, -1)))
  {
    var im1, im3 := Add(im, IReturn(s.op)), Add(im2, IGoto(EndOfProc, -1));
    AddGrows(im, IReturn(s.op));
    AddGrows(im2, IGoto(EndOfProc, -1));
    GrowsTwo(im1, im2, im3, Ids(s), Names(s), {}, {}, {}, {});
    GrowsTwo(im, im1, im3, Ids(s), Names(s), {}, {}, Ids(s), Names(s));
    GrowsCarries(im1, im3, Ids(s), Names(s));
    GrowsCarries(im2, im3, {}, {});
    CleansCarries(im2, im3, |im.code| + 1, sc.arms, 0);
    AtCarried(im1, im3, |im.code|, IReturn(s.op));
    hide Grows, Cleans, Image.Carries;
  }

  lemma {:induction false} EmitLabel(im: Image, s: Stmt, sc: Scope, tab: Table)
    requires s.Label? && !im.linked && Fresh(im, Ids(s), Names(s))
    ensures Emits(im, s, sc, tab, Define(im, User(s.name)))
  {
    DefineGrows(im, User(s.name), Ids(s), Names(s));
  }

  lemma {:induction false} EmitPlain(im: Image, s: Stmt, sc: Scope, tab: Table)
    requires !im.linked
    ensures s.Skip? ==> Emits(im, s, sc, tab, im)
    ensures s.Basic? ==> Emits(im, s, sc, tab, Add(im, IExec(s.op)))
  {
    if s.Basic? {
      AddGrows(im, IExec(s.op));
      assert Placed(Add(im, IExec(s.op)), s, |im.code|, sc, tab);
    }
  }

  // ---- What the walk needs to know about a statement ----

  /** s is legal in scope sc, the table is right about it, and none of its labels is taken. */
  ghost predicate Ready(s: Stmt, sc: Scope, tab: Table, im: Image) {
    Scoped(s, sc, tab) && ExitsOk(s, sc.loops != []) && JumpsOk(s, tab) && DistinctIds(s) && DistinctNames(s) &&
    !im.linked && Fresh(im, Ids(s), Names(s)) && forall i :: 0 <= i < |sc.loops| ==> sc.loops[i] in tab.scopes
  }

  lemma {:induction false} ReadyThen(s: Stmt, sc: Scope, tab: Table, im: Image)
    requires s.Then? && Ready(s, sc, tab, im)
    ensures Ready(s.first, sc, tab, im)
    ensures forall im' :: Emits(im, s.first, sc, tab, im') ==> Ready(s.rest, sc, tab, im')
  {
    FreshPart(im, Ids(s), Names(s), Ids(s.first), Names(s.first));
    FreshPart(im, Ids(s), Names(s), Ids(s.rest), Names(s.rest));
    assert Gotos(s) == Gotos(s.first) + Gotos(s.rest);
    forall im' | Emits(im, s.first, sc, tab, im') ensures Ready(s.rest, sc, tab, im') {
      StillFresh(im, im', Ids(s.rest), Names(s.rest), Ids(s.first), Names(s.first));
    }
  }

  lemma {:induction false} ReadyIf(s: Stmt, sc: Scope, tab: Table, im: Image, i: Instr)
    requires s.If? && Ready(s, sc, tab, im)
    ensures Ready(s.thn, sc, tab, Add(im, i))
  {
    FreshPart(im, Ids(s), Names(s), Ids(s.thn), Names(s.thn));
  }

  lemma {:induction false} ReadyIfElse(s: Stmt, sc: Scope, tab: Table, im: Image, i: Instr)
    requires s.IfElse? && Ready(s, sc, tab, im)
    ensures Ready(s.thn, sc, tab, Add(im, i))
    ensures forall im' :: Emits(Add(im, i), s.thn, sc, tab, im') ==>
      Ready(s.els, sc, tab, Define(Add(im', IGoto(ElseEnd(s.id), -1)), ElseBegin(s.id)))
  {
    FreshPart(im, Ids(s), Names(s), Ids(s.thn), Names(s.thn));
    assert Gotos(s) == Gotos(s.thn) + Gotos(s.els);
    forall im' | Emits(Add(im, i), s.thn, sc, tab, im')
      ensures Ready(s.els, sc, tab, Define(Add(im', IGoto(ElseEnd(s.id), -1)), ElseBegin(s.id)))
    {
      FreshSecond(im, Add(im, i), im', Define(Add(im', IGoto(ElseEnd(s.id), -1)), ElseBegin(s.id)), s, s.thn, s.els, ElseBegin(s.id));
    }
  }

  lemma {:induction false} ReadyWhile(s: Stmt, sc: Scope, tab: Table, im: Image, i: Instr)
    requires s.While? && Ready(s, sc, tab, im)
    ensures Ready(s.body, sc.Inside(s.id), tab, Add(Define(im, LoopBegin(s.id)), i))
  {
    FreshPart(im, Ids(s), Names(s), Ids(s.body), Names(s.body));
    var im' := Add(Define(im, LoopBegin(s.id)), i);
    assert Fresh(im', Ids(s.body), Names(s.body));
  }

  lemma {:induction false} ReadyTry(s: Stmt, sc: Scope, tab: Table, im: Image, i: Instr)
    requires s.TryCatch? && Ready(s, sc, tab, im)
    ensures Ready(s.body, sc.Within(Arm(s.id, true)), tab, Add(im, i))
    ensures forall im' :: Emits(Add(im, i), s.body, sc.Within(Arm(s.id, true)), tab, im') ==>
      Ready(s.handler, sc.Within(Arm(s.id, false)), tab, Define(Add(Add(im', IFull), IGoto(CatchEnd(s.id), -1)), CatchBegin(s.id)))
  {
    FreshPart(im, Ids(s), Names(s), Ids(s.body), Names(s.body));
    assert Gotos(s) == Gotos(s.body) + Gotos(s.handler);
    forall im' | Emits(Add(im, i), s.body, sc.Within(Arm(s.id, true)), tab, im')
      ensures Ready(s.handler, sc.Within(Arm(s.id, false)), tab, Define(Add(Add(im', IFull), IGoto(CatchEnd(s.id), -1)), CatchBegin(s.id)))
    {
      FreshSecond(im, Add(im, i), im', Define(Add(Add(im', IFull), IGoto(CatchEnd(s.id), -1)), CatchBegin(s.id)), s, s.body, s.handler, CatchBegin(s.id));
    }
  }

  lemma {:induction false} ReadyFacts(s: Stmt, sc: Scope, tab: Table, im: Image)
    requires Ready(s, sc, tab, im)
    ensures !im.linked && DistinctIds(s) && Fresh(im, Ids(s), Names(s))
    ensures s.Exit? || s.Return? || s.Goto? ==> tab.Knows(s.id, sc)
    ensures s.Exit? ==> sc.loops != [] && sc.loops[|sc.loops| - 1] in tab.scopes
    ensures s.Goto? ==> s.target in tab.labels && tab.labels[s.target] in tab.scopes
  {
    if s.Goto? { assert Jump(s.id, s.target) in Gotos(s) && JumpOk(Jump(s.id, s.target), tab); }
  }

  // ---- Resolving labels ----

  predicate Resolvable(i: Instr, labels: map<Lab, int>) {
    match i
    case IGoto(lab, _) => lab in labels
    case ICond(_, lab, _) => lab in labels
    case ISave(lab, _) => lab in labels
    case _ => true
  }

  predicate ResolvableAt(im: Image, pc: int) { 0 <= pc < |im.code| && Resolvable(im.code[pc], im.labels) }

  ghost predicate AllResolvable(im: Image, from: int, to: int) {
    forall pc :: from <= pc < to ==> ResolvableAt(im, pc)
  }

  /** Everything a statement in this scope may jump to outside itself is defined. */
  ghost predicate Outer(im: Image, s: Stmt, sc: Scope) {
    !im.linked && EndOfProc in im.labels && (forall g :: g in Gotos(s) ==> User(g.target) in im.labels) &&
    forall i :: 0 <= i < |sc.loops| ==> LoopBegin(sc.loops[i]) in im.labels && LoopEnd(sc.loops[i]) in im.labels
  }

  lemma {:induction false} CleansResolvable(im: Image, pc: int, arms: seq<Arm>, depth: nat)
    requires !im.linked && Cleans(im, pc, arms, depth)
    ensures AllResolvable(im, pc, pc + Excess(arms, depth))
    decreases |arms|
  {
    if |arms| > depth {
      CleansResolvable(im, pc + 1, arms[..|arms| - 1], depth);
    }
  }

  lemma {:induction false} JumpResolvable(im: Image, s: Stmt, pc: int, sc: Scope, tab: Table)
    requires (s.Exit? || s.Return? || s.Goto?) && Placed(im, s, pc, sc, tab) && Outer(im, s, sc)
    ensures AllResolvable(im, pc, pc + Size(s, sc, tab))
  {
    match s
    case Exit(_, _) => CleansResolvable(im, pc, sc.arms, ExitDepth(sc, tab));
    case Return(_, _) => CleansResolvable(im, pc + 1, sc.arms, 0);
    case Goto(_, target) =>
      CleansResolvable(im, pc, sc.arms, tab.LabelDepth(target));
      assert Jump(s.id, target) in Gotos(s);
  }

  lemma {:induction false} OuterParts(im: Image, s: Stmt, pc: int, sc: Scope, tab: Table)
    requires Outer(im, s, sc) && Placed(im, s, pc, sc, tab)
    ensures s.Then? ==> Outer(im, s.first, sc) && Outer(im, s.rest, sc)
    ensures s.If? ==> Outer(im, s.thn, sc)
    ensures s.IfElse? ==> Outer(im, s.thn, sc) && Outer(im, s.els, sc)
    ensures s.While? ==> Outer(im, s.body, sc.Inside(s.id))
    ensures s.TryCatch? ==> Outer(im, s.body, sc.Within(Arm(s.id, true))) && Outer(im, s.handler, sc.Within(Arm(s.id, false)))
  {
    hide Size, Cleans;
  }

  lemma {:induction false} ResolvableTwo(im: Image, s: Stmt, pc: int, sc: Scope, tab: Table)
    requires (s.If? || s.IfElse?) && !im.linked && Placed(im, s, pc, sc, tab)
    requires AllResolvable(im, pc + 1, pc + 1 + Size(s.thn, sc, tab))
    requires s.IfElse? ==> AllResolvable(im, pc + 2 + Size(s.thn, sc, tab), pc + 2 + Size(s.thn, sc, tab) + Size(s.els, sc, tab))
    ensures AllResolvable(im, pc, pc + Size(s, sc, tab))
  {
    Composite(s, sc, tab);
  }

  lemma {:induction false} ResolvableWhile(im: Image, s: Stmt, pc: int, sc: Scope, tab: Table)
    requires s.While? && !im.linked && Placed(im, s, pc, sc, tab)
    requires AllResolvable(im, pc + 1, pc + 1 + Size(s.body, sc.Inside(s.id), tab))
    ensures AllResolvable(im, pc, pc + Size(s, sc, tab))
  {
  }

  lemma {:induction false} ResolvableTry(im: Image, s: Stmt, pc: int, sc: Scope, tab: Table)
    requires s.TryCatch? && !im.linked && Placed(im, s, pc, sc, tab)
    requires var mid := pc + 1 + Size(s.body, sc.Within(Arm(s.id, true)), tab);
             AllResolvable(im, pc + 1, mid) && AllResolvable(im, mid + 2, mid + 2 + Size(s.handler, sc.Within(Arm(s.id, false)), tab))
    ensures AllResolvable(im, pc, pc + Size(s, sc, tab))
  {
  }

  lemma {:induction false} CodeResolvable(im: Image, s: Stmt, pc: int, sc: Scope, tab: Table)
    requires !im.linked && Placed(im, s, pc, sc, tab) && Outer(im, s, sc)
    ensures AllResolvable(im, pc, pc + Size(s, sc, tab))
    decreases s
  {
    hide *;
    OuterParts(im, s, pc, sc, tab);
    match s {
      case Then(a, b) =>
        PlacedThen(im, a, b, pc, sc, tab);
        CodeResolvable(im, a, pc, sc, tab);
        CodeResolvable(im, b, pc + Size(a, sc, tab), sc, tab);
        ResolvableThen(im, a, b, pc, sc, tab);
      case If(_, _, thn) =>
        PlacedIf(im, s, pc, sc, tab);
        CodeResolvable(im, thn, pc + 1, sc, tab);
        ResolvableTwo(im, s, pc, sc, tab);
      case IfElse(_, _, thn, els) =>
        PlacedIfElse(im, s, pc, sc, tab);
        CodeResolvable(im, thn, pc + 1, sc, tab);
        CodeResolvable(im, els, pc + 2 + Size(thn, sc, tab), sc, tab);
        ResolvableTwo(im, s, pc, sc, tab);
      case While(id, _, body) =>
        PlacedWhile(im, s, pc, sc, tab);
        CodeResolvable(im, body, pc + 1, sc.Inside(id), tab);
        ResolvableWhile(im, s, pc, sc, tab);
      case TryCatch(id, body, handler) =>
        PlacedTry(im, s, pc, sc, tab);
        CodeResolvable(im, body, pc + 1, sc.Within(Arm(id, true)), tab);
        CodeResolvable(im, handler, pc + 3 + Size(body, sc.Within(Arm(id, true)), tab), sc.Within(Arm(id, false)), tab);
        ResolvableTry(im, s, pc, sc, tab);
      case Exit(_, _) => JumpResolvable(im, s, pc, sc, tab);
      case Return(_, _) => JumpResolvable(im, s, pc, sc, tab);
      case Goto(_, _) => JumpResolvable(im, s, pc, sc, tab);
      case _ => PlainResolvable(im, s, pc, sc, tab);
    }
  }

  lemma {:induction false} ResolvableThen(im: Image, a: Stmt, b: Stmt, pc: int, sc: Scope, tab: Table)
    requires AllResolvable(im, pc, pc + Size(a, sc, tab)) && AllResolvable(im, pc + Size(a, sc, tab), pc + Size(a, sc, tab) + Size(b, sc, tab))
    ensures AllResolvable(im, pc, pc + Size(Then(a, b), sc, tab))
  {
  }

  lemma {:induction false} PlainResolvable(im: Image, s: Stmt, pc: int, sc: Scope, tab: Table)
    requires (s.Skip? || s.Basic? || s.Label?) && !im.linked && Placed(im, s, pc, sc, tab)
    ensures AllResolvable(im, pc, pc + Size(s, sc, tab))
  {
  }

  lemma {:induction false} NamesPlaced(im: Image, s: Stmt, pc: int, sc: Scope, tab: Table)
    requires Placed(im, s, pc, sc, tab)
    ensures forall name :: name in Names(s) ==> User(name) in im.labels
    decreases s
  {
    hide Placed, Size;
    match s {
      case Then(a, b) =>
        PlacedThen(im, a, b, pc, sc, tab);
        NamesPlaced(im, a, pc, sc, tab);
        NamesPlaced(im, b, pc + Size(a, sc, tab), sc, tab);
      case If(_, _, thn) =>
        PlacedIf(im, s, pc, sc, tab);
        NamesPlaced(im, thn, pc + 1, sc, tab);
      case IfElse(_, _, thn, els) =>
        PlacedIfElse(im, s, pc, sc, tab);
        NamesPlaced(im, thn, pc + 1, sc, tab);
        NamesPlaced(im, els, pc + 2 + Size(thn, sc, tab), sc, tab);
      case While(id, _, body) =>
        PlacedWhile(im, s, pc, sc, tab);
        NamesPlaced(im, body, pc + 1, sc.Inside(id), tab);
      case TryCatch(id, body, handler) =>
        PlacedTry(im, s, pc, sc, tab);
        NamesPlaced(im, body, pc + 1, sc.Within(Arm(id, true)), tab);
        NamesPlaced(im, handler, pc + 3 + Size(body, sc.Within(Arm(id, true)), tab), sc.Within(Arm(id, false)), tab);
      case Label(_, name) => LabelPlaced(im, s, pc, sc, tab);
      case _ =>
    }
  }

  lemma {:induction false} LabelPlaced(im: Image, s: Stmt, pc: int, sc: Scope, tab: Table)
    requires s.Label? && Placed(im, s, pc, sc, tab)
    ensures User(s.name) in im.labels
  {
  }

  /** On an accepted program every label that the code mentions is defined. */
  lemma {:induction false} ProgramResolvable(program: Stmt, tab: Table, im: Image)
    requires TableOf(program, tab) && JumpsOk(program, tab) && Placed(im, program, 0, ROOT, tab)
    requires !im.linked && EndOfProc in im.labels && |im.code| == Size(program, ROOT, tab)
    ensures AllResolvable(im, 0, |im.code|)
  {
    hide Placed, Scoped, Size, AllResolvable;
    NamesPlaced(im, program, 0, ROOT, tab);
    forall g | g in Gotos(program) ensures User(g.target) in im.labels {
      assert JumpOk(g, tab) && g.target in tab.labels.Keys;
    }
    CodeResolvable(im, program, 0, ROOT, tab);
  }

  lemma {:induction false} LinkCarries(im: Image, im': Image)
    requires !im.linked && im'.linked && im'.labels == im.labels && |im'.code| == |im.code|
    requires forall i :: 0 <= i < |im.code| ==> im'.code[i] == Link(im.code[i], im.labels)
    ensures im.Carries(im')
  {
  }

  class Codegen {
    var codes: seq<Instr>
    var labelIndex: map<Lab, int>
    var loops: seq<int>
    const tab: Table

    constructor (tab: Table)
      ensures codes == [] && labelIndex == map[] && loops == [] && this.tab == tab
    {
      this.tab := tab;
      codes, labelIndex, loops := [], map[], [];
    }

    function Now(): Image reads this { Image(codes, labelIndex, false) }

    method AddStmt(i: Instr)
      modifies this`codes
      ensures codes == old(codes) + [i]
      ensures Now() == Add(old(Now()), i)
    {
      codes := codes + [i];
    }

    method Register(lab: Lab)
      modifies this`labelIndex
      ensures labelIndex == old(labelIndex)[lab := |codes|]
      ensures Now() == Define(old(Now()), lab)
    {
      labelIndex := labelIndex[lab := |codes|];
    }

    /** Emits a restore instruction for every arm beyond the first depth, innermost first. */
    method Cleanup(arms: seq<Arm>, depth: nat)
      modifies this`codes
      ensures Grows(old(Now()), Now(), {}, {}) && |codes| == old(|codes|) + Excess(arms, depth) && labelIndex == old(labelIndex)
      ensures Cleans(Now(), old(|codes|), arms, depth)
    {
      ghost var im, pc := Now(), |codes|;
      var i := |arms|;
      while i > depth
        invariant i <= |arms| && (i >= depth || i == |arms|)
        invariant Grows(im, Now(), {}, {}) && |codes| == pc + |arms| - i && Cleans(Now(), pc, arms, i)
      {
        ghost var im1 := Now();
        AddStmt(Restore(arms[i - 1]));
        AddGrows(im1, Restore(arms[i - 1]));
        GrowsTwo(im, im1, Now(), {}, {}, {}, {}, {}, {});
        GrowsCarries(im1, Now(), {}, {});
        CleansCarries(im1, Now(), pc, arms, i);
        i := i - 1;
        CleansMore(Now(), pc, arms, i);
      }
      CleansDown(Now(), pc, arms, i, depth);
    }

    /** With nothing left to leave, the depth does not matter. */
    static lemma CleansDown(im: Image, pc: int, arms: seq<Arm>, i: nat, depth: nat)
      requires Cleans(im, pc, arms, i) && i <= depth && (i == depth || |arms| <= depth)
      ensures Cleans(im, pc, arms, depth)
    {
    }

    /** The walk appends the code of s and nothing else, and its own loop stack comes back. */
    method Visit(s: Stmt, ghost sc: Scope)
      requires Ready(s, sc, tab, Now()) && loops == sc.loops
      modifies this`codes, this`labelIndex, this`loops
      ensures Emits(old(Now()), s, sc, tab, Now()) && loops == old(loops)
      decreases s, 1
    {
      hide *;
      match s {
        case Skip =>
          ReadyFacts(s, sc, tab, Now());
          EmitPlain(Now(), s, sc, tab);
        case Basic(op) =>
          ReadyFacts(s, sc, tab, Now());
          EmitPlain(Now(), s, sc, tab);
          AddStmt(IExec(op));
        case Then(a, b) =>
          ghost var im := Now();
          ReadyThen(s, sc, tab, im);
          Visit(a, sc);
          ghost var im1 := Now();
          Visit(b, sc);
          EmitThen(im, a, b, sc, tab, im1, Now());
        case If(id, cond, thn) =>
          ghost var im := Now();
          ReadyFacts(s, sc, tab, im);
          ReadyIf(s, sc, tab, im, ICond(cond, ElseEnd(id), -1));
          AddStmt(ICond(cond, ElseEnd(id), -1));
          Visit(thn, sc);
          EmitIf(im, s, sc, tab, Now());
          Register(ElseEnd(id));
        case IfElse(_, _, _, _) => VisitIfElse(s, sc);
        case While(_, _, _) => VisitWhile(s, sc);
        case TryCatch(_, _, _) => VisitTry(s, sc);
        case _ => VisitJump(s, sc);
      }
    }

    method VisitIfElse(s: Stmt, ghost sc: Scope)
      requires s.IfElse? && Ready(s, sc, tab, Now()) && loops == sc.loops
      modifies this`codes, this`labelIndex, this`loops
      ensures Emits(old(Now()), s, sc, tab, Now()) && loops == old(loops)
      decreases s, 0
    {
      hide *;
      ghost var im := Now();
      ReadyFacts(s, sc, tab, im);
      ReadyIfElse(s, sc, tab, im, ICond(s.cond, ElseBegin(s.id), -1));
      AddStmt(ICond(s.cond, ElseBegin(s.id), -1));
      Visit(s.thn, sc);
      ghost var im2 := Now();
      AddStmt(IGoto(ElseEnd(s.id), -1));
      Register(ElseBegin(s.id));
      Visit(s.els, sc);
      EmitIfElse(im, s, sc, tab, im2, Now());
      Register(ElseEnd(s.id));
    }

    method VisitWhile(s: Stmt, ghost sc: Scope)
      requires s.While? && Ready(s, sc, tab, Now()) && loops == sc.loops
      modifies this`codes, this`labelIndex, this`loops
      ensures Emits(old(Now()), s, sc, tab, Now()) && loops == old(loops)
      decreases s, 0
    {
      hide *;
      ghost var im := Now();
      ReadyFacts(s, sc, tab, im);
      ReadyWhile(s, sc, tab, im, ICond(s.cond, LoopEnd(s.id), -1));
      NowIs();
      loops := loops + [s.id];
      NowIs();
      Register(LoopBegin(s.id));
      AddStmt(ICond(s.cond, LoopEnd(s.id), -1));
      InsideIs(sc, s.id);
      Visit(s.body, sc.Inside(s.id));
      EmitWhile(im, s, sc, tab, Now());
      AddStmt(IGoto(LoopBegin(s.id), -1));
      Register(LoopEnd(s.id));
      NowIs();
      loops := loops[..|loops| - 1];
      NowIs();
    }

    lemma NowIs()
      ensures Now() == Image(codes, labelIndex, false)
    {
    }

    static lemma InsideIs(sc: Scope, id: int)
      ensures sc.Inside(id).loops == sc.loops + [id]
    {
    }

    method VisitTry(s: Stmt, ghost sc: Scope)
      requires s.TryCatch? && Ready(s, sc, tab, Now()) && loops == sc.loops
      modifies this`codes, this`labelIndex, this`loops
      ensures Emits(old(Now()), s, sc, tab, Now()) && loops == old(loops)
      decreases s, 0
    {
      hide *;
      ghost var im := Now();
      ReadyFacts(s, sc, tab, im);
      ReadyTry(s, sc, tab, im, ISave(CatchBegin(s.id), -1));
      AddStmt(ISave(CatchBegin(s.id), -1));
      WithinIs(sc, s.id);
      Visit(s.body, sc.Within(Arm(s.id, true)));
      ghost var im2 := Now();
      AddStmt(IFull);
      AddStmt(IGoto(CatchEnd(s.id), -1));
      Register(CatchBegin(s.id));
      Visit(s.handler, sc.Within(Arm(s.id, false)));
      EmitTry(im, s, sc, tab, im2, Now());
      AddStmt(IPartial);
      Register(CatchEnd(s.id));
    }

    static lemma WithinIs(sc: Scope, id: int)
      ensures sc.Within(Arm(id, true)).loops == sc.loops && sc.Within(Arm(id, false)).loops == sc.loops
    {
    }

    method VisitJump(s: Stmt, ghost sc: Scope)
      requires (s.Exit? || s.Return? || s.Goto? || s.Label?) && Ready(s, sc, tab, Now()) && loops == sc.loops
      modifies this`codes, this`labelIndex, this`loops
      ensures Emits(old(Now()), s, sc, tab, Now()) && loops == old(loops)
    {
      hide Ready, Emits, Grows, Cleans, Placed, Add, Define, Fresh, Size;
      ghost var im := Now();
      ReadyFacts(s, sc, tab, im);
      match s {
        case Exit(id, isBreak) =>
          var loop := loops[|loops| - 1];
          Cleanup(tab.scopes[id].arms, |tab.scopes[loop].arms|);
          EmitJump(im, s, sc, tab, Now(), IGoto(if isBreak then LoopEnd(loop) else LoopBegin(loop), -1));
          AddStmt(IGoto(if isBreak then LoopEnd(loop) else LoopBegin(loop), -1));
        case Return(id, op) =>
          AddStmt(IReturn(op));
          Cleanup(tab.scopes[id].arms, 0);
          EmitReturn(im, s, sc, tab, Now());
          AddStmt(IGoto(EndOfProc, -1));
        case Goto(id, target) =>
          Cleanup(tab.scopes[id].arms, |tab.scopes[tab.labels[target]].arms|);
          EmitJump(im, s, sc, tab, Now(), IGoto(User(target), -1));
          AddStmt(IGoto(User(target), -1));
        case Label(_, name) =>
          EmitLabel(im, s, sc, tab);
          Register(User(name));
      }
    }

    /** Fills in the target of every jump; the result names a label that is nowhere defined, if the
        code mentions one. */
    method ResolveLabels() returns (missing: Option<Lab>)
      modifies this`codes
      ensures missing.None? <==> forall i :: 0 <= i < |old(codes)| ==> Resolvable(old(codes)[i], labelIndex)
      ensures missing.Some? ==> missing.value !in labelIndex
      ensures missing.None? ==> |codes| == |old(codes)| && forall i :: 0 <= i < |codes| ==> codes[i] == Link(old(codes)[i], labelIndex)
    {
      var i := 0;
      while i < |codes|
        invariant 0 <= i <= |codes| == |old(codes)|
        invariant forall j :: 0 <= j < i ==> Resolvable(old(codes)[j], labelIndex) && codes[j] == Link(old(codes)[j], labelIndex)
        invariant forall j :: i <= j < |codes| ==> codes[j] == old(codes)[j]
      {
        match codes[i] {
          case IGoto(lab, _) =>
            if lab !in labelIndex { return Some(lab); }
            codes := codes[i := IGoto(lab, labelIndex[lab])];
          case ICond(cond, lab, _) =>
            if lab !in labelIndex { return Some(lab); }
            codes := codes[i := ICond(cond, lab, labelIndex[lab])];
          case ISave(lab, _) =>
            if lab !in labelIndex { return Some(lab); }
            codes := codes[i := ISave(lab, labelIndex[lab])];
          case _ =>
        }
        i := i + 1;
      }
      return None;
    }

    /** Code generation succeeds on every accepted program, and what it builds is an image of it. */
    method Generate(program: Stmt) returns (missing: Option<Lab>)
      requires codes == [] && labelIndex == map[] && loops == []
      requires DistinctIds(program) && DistinctNames(program) && ExitsOk(program, false)
      requires TableOf(program, tab) && JumpsOk(program, tab)
      modifies this`codes, this`labelIndex, this`loops
      ensures missing.None? && Compiled(program, tab, Image(codes, labelIndex, true))
    {
      ghost var im := Now();
      assert Ready(program, ROOT, tab, im);
      Visit(program, ROOT);
      ghost var im1 := Now();
      Register(EndOfProc);
      ghost var im2 := Now();
      FinishedCode(program, tab, im, im1, im2);
      hide Placed, Scoped, Size, Emits, Ready, Grows;
      forall i | 0 <= i < |codes| ensures Resolvable(codes[i], labelIndex) { assert ResolvableAt(im2, i); }
      missing := ResolveLabels();
      LinkCarries(im2, Image(codes, labelIndex, true));
      PlacedCarries(im2, Image(codes, labelIndex, true), program, 0, ROOT, tab);
    }

    static lemma FinishedCode(program: Stmt, tab: Table, im: Image, im1: Image, im2: Image)
      requires im == Image([], map[], false) && Emits(im, program, ROOT, tab, im1) && im2 == Define(im1, EndOfProc)
      requires TableOf(program, tab) && JumpsOk(program, tab)
      ensures Placed(im2, program, 0, ROOT, tab) && AllResolvable(im2, 0, |im2.code|)
      ensures |im2.code| == Size(program, ROOT, tab) && im2.LabAt(EndOfProc, |im2.code|) && !im2.linked
    {
      hide Placed, Scoped, Size;
      assert EndOfProc !in im1.labels;
      assert im1.Carries(im2);
      PlacedCarries(im1, im2, program, 0, ROOT, tab);
      ProgramResolvable(program, tab, im2);
    }
  }
}