/** What the two separate checks on a GOTO amount to: the blocks around the label, loops and TRY..CATCH
    arms together in the order they nest, are a prefix of the blocks around the jump. */
module Nesting {
  import opened Control
  import opened Layout

  datatype Block = InArm(arm: Arm) | InWhile(id: int) {
    function Id(): int { if InArm? then arm.id else id }
  }

  function ArmsIn(chain: seq<Block>): seq<Arm> {
    if chain == [] then []
    else ArmsIn(chain[..|chain| - 1]) + (if chain[|chain| - 1].InArm? then [chain[|chain| - 1].arm] else [])
  }

  function LoopsIn(chain: seq<Block>): seq<int> {
    if chain == [] then []
    else LoopsIn(chain[..|chain| - 1]) + (if chain[|chain| - 1].InWhile? then [chain[|chain| - 1].id] else [])
  }

  function ScopeIn(chain: seq<Block>): Scope { Scope(ArmsIn(chain), LoopsIn(chain)) }

  /** Statement node occurs in s, and chain lists the blocks around it when base is around s. */
  ghost predicate Occurs(s: Stmt, base: seq<Block>, node: Stmt, chain: seq<Block>) {
    (s == node && chain == base) ||
    match s
    case Then(a, b) => Occurs(a, base, node, chain) || Occurs(b, base, node, chain)
    case If(_, _, thn) => Occurs(thn, base, node, chain)
    case IfElse(_, _, thn, els) => Occurs(thn, base, node, chain) || Occurs(els, base, node, chain)
    case While(id, _, body) => Occurs(body, base + [InWhile(id)], node, chain)
    case TryCatch(id, body, handler) =>
      Occurs(body, base + [InArm(Arm(id, true))], node, chain) || Occurs(handler, base + [InArm(Arm(id, false))], node, chain)
    case _ => false
  }

  lemma {:induction false} ScopeSnoc(chain: seq<Block>, b: Block)
    ensures ScopeIn(chain + [b]) == if b.InArm? then ScopeIn(chain).Within(b.arm) else ScopeIn(chain).Inside(b.id)
  {
    assert (chain + [b])[..|chain|] == chain;
  }

  /** A right table holds, for every jump and every label, exactly the blocks around it. */
  lemma {:induction false} ScopesAreAncestors(s: Stmt, base: seq<Block>, tab: Table, node: Stmt, chain: seq<Block>)
    requires Scoped(s, ScopeIn(base), tab) && Occurs(s, base, node, chain)
    requires node.Exit? || node.Return? || node.Goto? || node.Label?
    ensures tab.Knows(node.id, ScopeIn(chain))
    ensures node.Label? ==> node.name in tab.labels && tab.labels[node.name] == node.id
    ensures node.Goto? ==> Jump(node.id, node.target) in Gotos(s)
    decreases s
  {
    match s
    case Then(a, b) =>
      if Occurs(a, base, node, chain) { ScopesAreAncestors(a, base, tab, node, chain); } else { ScopesAreAncestors(b, base, tab, node, chain); }
    case If(_, _, thn) => ScopesAreAncestors(thn, base, tab, node, chain);
    case IfElse(_, _, thn, els) =>
      if Occurs(thn, base, node, chain) { ScopesAreAncestors(thn, base, tab, node, chain); } else { ScopesAreAncestors(els, base, tab, node, chain); }
    case While(id, _, body) =>
      ScopeSnoc(base, InWhile(id));
      ScopesAreAncestors(body, base + [InWhile(id)], tab, node, chain);
    case TryCatch(id, body, handler) =>
      ScopeSnoc(base, InArm(Arm(id, true)));
      ScopeSnoc(base, InArm(Arm(id, false)));
      if Occurs(body, base + [InArm(Arm(id, true))], node, chain) {
        ScopesAreAncestors(body, base + [InArm(Arm(id, true))], tab, node, chain);
      } else {
        ScopesAreAncestors(handler, base + [InArm(Arm(id, false))], tab, node, chain);
      }
    case _ =>
  }

  // ---- From two prefixes to one ----

  ghost predicate IdsIn(chain: seq<Block>, ids: set<int>) { forall b :: b in chain ==> b.Id() in ids }

  lemma {:induction false} OccursBelow(s: Stmt, base: seq<Block>, node: Stmt, chain: seq<Block>)
    requires Occurs(s, base, node, chain)
    ensures base <= chain && IdsIn(chain[|base|..], Ids(s))
    decreases s, 1
  {
    if !(s == node && chain == base) {
      match s
      case Then(a, b) =>
        if Occurs(a, base, node, chain) { OccursBelow(a, base, node, chain); } else { OccursBelow(b, base, node, chain); }
      case If(_, _, thn) => OccursBelow(thn, base, node, chain);
      case IfElse(_, _, thn, els) =>
        if Occurs(thn, base, node, chain) { OccursBelow(thn, base, node, chain); } else { OccursBelow(els, base, node, chain); }
      case While(id, _, body) => BelowBlock(s, body, base, InWhile(id), node, chain);
      case TryCatch(id, body, handler) =>
        if Occurs(body, base + [InArm(Arm(id, true))], node, chain) {
          BelowBlock(s, body, base, InArm(Arm(id, true)), node, chain);
        } else {
          BelowBlock(s, handler, base, InArm(Arm(id, false)), node, chain);
        }
    }
  }

  lemma {:induction false} BelowBlock(s: Stmt, part: Stmt, base: seq<Block>, b: Block, node: Stmt, chain: seq<Block>)
    requires Occurs(part, base + [b], node, chain) && part < s && Ids(part) <= Ids(s) && b.Id() in Ids(s)
    ensures base <= chain && IdsIn(chain[|base|..], Ids(s))
    decreases s, 0
  {
    OccursBelow(part, base + [b], node, chain);
    assert chain[|base|] == (base + [b])[|base|];
    assert chain[|base|..] == [b] + chain[|base| + 1..];
  }

  lemma {:induction false} ProjectionsNext(chain: seq<Block>, n: nat)
    requires |chain| == n + 1
    ensures ArmsIn(chain) == ArmsIn(chain[..n]) + (if chain[n].InArm? then [chain[n].arm] else [])
    ensures LoopsIn(chain) == LoopsIn(chain[..n]) + (if chain[n].InWhile? then [chain[n].id] else [])
  {
  }

  lemma {:induction false} NoProjections()
    ensures ArmsIn([]) == [] && LoopsIn([]) == []
  {
  }

  lemma {:induction false} ProjectionsAdd(a: seq<Block>, b: seq<Block>)
    ensures ArmsIn(a + b) == ArmsIn(a) + ArmsIn(b) && LoopsIn(a + b) == LoopsIn(a) + LoopsIn(b)
    decreases |b|
  {
    hide *;
    if b == [] {
      assert a + b == a;
      NoProjections();
    } else {
      var n := |b| - 1;
      ProjectionsAdd(a, b[..n]);
      ProjectionsNext(a + b, |a| + n);
      ProjectionsNext(b, n);
      assert (a + b)[..|a| + n] == a + b[..n] && (a + b)[|a| + n] == b[n];
    }
  }

  lemma {:induction false} ProjectionsIn(chain: seq<Block>, ids: set<int>)
    requires IdsIn(chain, ids)
    ensures forall x :: x in ArmsIn(chain) ==> x.id in ids
    ensures forall x :: x in LoopsIn(chain) ==> x in ids
    decreases |chain|
  {
    if chain != [] {
      assert chain[|chain| - 1] in chain;
      ProjectionsIn(chain[..|chain| - 1], ids);
    }
  }

  lemma {:induction false} FirstBlock(chain: seq<Block>, base: seq<Block>)
    requires base < chain
    ensures var b := chain[|base|];
            if b.InArm? then |ArmsIn(base)| < |ArmsIn(chain)| && ArmsIn(chain)[|ArmsIn(base)|] == b.arm
            else |LoopsIn(base)| < |LoopsIn(chain)| && LoopsIn(chain)[|LoopsIn(base)|] == b.id
  {
    var b := chain[|base|];
    assert chain == base + [b] + chain[|base| + 1..];
    ProjectionsAdd(base, [b]);
    ProjectionsAdd(base + [b], chain[|base| + 1..]);
    assert ArmsIn([b]) == (if b.InArm? then [b.arm] else []) && LoopsIn([b]) == (if b.InWhile? then [b.id] else []) by {
      assert [b][..0] == [];
    }
  }

  ghost predicate BothPrefixes(dst: seq<Block>, src: seq<Block>) { ArmsIn(dst) <= ArmsIn(src) && LoopsIn(dst) <= LoopsIn(src) }

  /** The first block around the label beyond base is also around the jump. */
  lemma {:induction false} SharedBlock(base: seq<Block>, dst: seq<Block>, src: seq<Block>, ids: set<int>)
    requires base < dst && base <= src && IdsIn(src[|base|..], ids) && BothPrefixes(dst, src)
    ensures dst[|base|].Id() in ids
  {
    var b, rest := dst[|base|], src[|base|..];
    FirstBlock(dst, base);
    assert src == base + rest;
    ProjectionsAdd(base, rest);
    ProjectionsIn(rest, ids);
    if b.InArm? {
      assert ArmsIn(src)[|ArmsIn(base)|] == b.arm && b.arm in ArmsIn(rest);
    } else {
      assert LoopsIn(src)[|LoopsIn(base)|] == b.id && b.id in LoopsIn(rest);
    }
  }

  /** In disjoint parts of the program, only the blocks around both can be shared. */
  lemma {:induction false} Apart(base: seq<Block>, dst: seq<Block>, src: seq<Block>, ids: set<int>, ids': set<int>)
    requires base <= dst && base <= src && IdsIn(dst[|base|..], ids) && IdsIn(src[|base|..], ids') && ids !! ids' && BothPrefixes(dst, src)
    ensures dst == base
  {
    if dst != base {
      assert dst[|base|] in dst[|base|..];
      SharedBlock(base, dst, src, ids');
    }
  }

  lemma {:induction false} OneIsPrefix(s: Stmt, base: seq<Block>, lab: Stmt, dst: seq<Block>, jump: Stmt, src: seq<Block>)
    requires DistinctIds(s) && Occurs(s, base, lab, dst) && Occurs(s, base, jump, src) && BothPrefixes(dst, src)
    requires lab.Label? && jump.Goto?
    ensures dst <= src
    decreases s, 1
  {
    hide BothPrefixes;
    match s
    case Then(a, b) => TwoSides(s, a, b, base, lab, dst, jump, src);
    case If(_, _, thn) => OneIsPrefix(thn, base, lab, dst, jump, src);
    case IfElse(_, _, thn, els) => TwoSides(s, thn, els, base, lab, dst, jump, src);
    case While(id, _, body) => OneIsPrefix(body, base + [InWhile(id)], lab, dst, jump, src);
    case TryCatch(id, body, handler) =>
      var inTry, inCatch := base + [InArm(Arm(id, true))], base + [InArm(Arm(id, false))];
      if Occurs(body, inTry, lab, dst) && Occurs(body, inTry, jump, src) {
        OneIsPrefix(body, inTry, lab, dst, jump, src);
      } else if Occurs(handler, inCatch, lab, dst) && Occurs(handler, inCatch, jump, src) {
        OneIsPrefix(handler, inCatch, lab, dst, jump, src);
      } else if Occurs(body, inTry, lab, dst) {
        OtherArm(base, Arm(id, true), Arm(id, false), body, lab, dst, handler, jump, src);
        assert false;
      } else {
        OtherArm(base, Arm(id, false), Arm(id, true), handler, lab, dst, body, jump, src);
        assert false;
      }
    case _ =>
  }

  lemma {:induction false} TwoSides(s: Stmt, a: Stmt, b: Stmt, base: seq<Block>, lab: Stmt, dst: seq<Block>, jump: Stmt, src: seq<Block>)
    requires a < s && b < s && DistinctIds(a) && DistinctIds(b) && Ids(a) !! Ids(b) && BothPrefixes(dst, src) && lab.Label? && jump.Goto?
    requires Occurs(a, base, lab, dst) || Occurs(b, base, lab, dst)
    requires Occurs(a, base, jump, src) || Occurs(b, base, jump, src)
    ensures dst <= src
    decreases s, 0
  {
    hide BothPrefixes, Occurs;
    if Occurs(a, base, lab, dst) && Occurs(a, base, jump, src) {
      OneIsPrefix(a, base, lab, dst, jump, src);
    } else if Occurs(b, base, lab, dst) && Occurs(b, base, jump, src) {
      OneIsPrefix(b, base, lab, dst, jump, src);
    } else if Occurs(a, base, lab, dst) {
      OccursBelow(a, base, lab, dst);
      OccursBelow(b, base, jump, src);
      Apart(base, dst, src, Ids(a), Ids(b));
    } else {
      OccursBelow(b, base, lab, dst);
      OccursBelow(a, base, jump, src);
      Apart(base, dst, src, Ids(b), Ids(a));
    }
  }

  /** A label in one arm and a jump in the other: the check on arms fails. */
  lemma {:induction false} OtherArm(base: seq<Block>, arm: Arm, arm': Arm, part: Stmt, lab: Stmt, dst: seq<Block>,
                                    part': Stmt, jump: Stmt, src: seq<Block>)
    requires arm != arm' && Occurs(part, base + [InArm(arm)], lab, dst) && Occurs(part', base + [InArm(arm')], jump, src)
    ensures !BothPrefixes(dst, src)
  {
    OccursBelow(part, base + [InArm(arm)], lab, dst);
    OccursBelow(part', base + [InArm(arm')], jump, src);
    assert dst[|base|] == (base + [InArm(arm)])[|base|] && src[|base|] == (base + [InArm(arm')])[|base|];
    FirstBlock(dst, base);
    FirstBlock(src, base);
  }

  /** An accepted GOTO never enters a block: everything around its label is, in the same order, around
      the jump as well. */
  lemma {:induction false} AcceptedJumpsLeadOutwards(program: Stmt, lab: Stmt, dst: seq<Block>, jump: Stmt, src: seq<Block>)
    requires Accepted(program) && DistinctIds(program)
    requires lab.Label? && Occurs(program, [], lab, dst) && jump.Goto? && Occurs(program, [], jump, src) && jump.target == lab.name
    ensures dst <= src
  {
    var tab :| TableOf(program, tab) && JumpsOk(program, tab);
    ScopesAreAncestors(program, [], tab, lab, dst);
    ScopesAreAncestors(program, [], tab, jump, src);
    assert JumpOk(Jump(jump.id, jump.target), tab);
    OneIsPrefix(program, [], lab, dst, jump, src);
  }
}
