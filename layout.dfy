/** The post-order layout the parser produces (src/parser/parser.rs:251-258,
    323-329): arguments left to right, then the callee, then the `Call`;
    a body, then its `FunctionDef` or `Lambda`. The main result is that
    `len` and `children` read such an arena back exactly as it was built. */
module Layout {
  import opened Syntax
  import opened Arena

  /** Expression trees as the parser sees them before flattening. */
  datatype Expr =
    | EInt(value: int)
    | EParam(name: NameIdx, level: nat, offset: ParamIdx)
    | EPrim(op: Primitive)
    | EUser(name: NameIdx)
    | ELambda(paramCount: nat, body: Expr)
    | ECall(callee: Expr, args: seq<Expr>)
    | EDef(name: NameIdx, paramCount: nat, body: Expr)

  function Size(e: Expr): (r: nat)
    ensures r >= 1
  {
    match e
    case ELambda(_, b) => 1 + Size(b)
    case EDef(_, _, b) => 1 + Size(b)
    case ECall(c, args) => SizeSeq(args) + Size(c) + 1
    case _ => 1
  }

  function SizeSeq(es: seq<Expr>): nat {
    if |es| == 0 then 0 else SizeSeq(es[..|es| - 1]) + Size(es[|es| - 1])
  }

  /** The nodes the parser appends for `e` when the arena already holds
      `base` nodes. */
  function Emit(e: Expr, base: nat): (r: seq<Ast>)
    ensures |r| == Size(e)
  {
    match e
    case EInt(v) => [Integer(v)]
    case EParam(n, l, o) => [ParamRef(n, l, o)]
    case EPrim(op) => [PrimitiveFunc(op)]
    case EUser(n) => [UserFunc(n)]
    case ELambda(pc, b) => Emit(b, base) + [Lambda(pc, Root(b, base))]
    case EDef(n, pc, b) => Emit(b, base) + [FunctionDef(n, pc, Root(b, base))]
    case ECall(c, args) =>
      EmitSeq(args, base) + Emit(c, base + SizeSeq(args)) + [Call(Root(c, base + SizeSeq(args)), |args|)]
  }

  function EmitSeq(es: seq<Expr>, base: nat): (r: seq<Ast>)
    ensures |r| == SizeSeq(es)
  {
    if |es| == 0 then []
    else EmitSeq(es[..|es| - 1], base) + Emit(es[|es| - 1], base + SizeSeq(es[..|es| - 1]))
  }

  /** Index of the node the parser returns for `e` laid out from `lo`. */
  function Root(e: Expr, lo: nat): nat {
    lo + Size(e) - 1
  }

  /** The indices the parser returned for each argument, left to right. */
  function ArgRoots(es: seq<Expr>, base: nat): (r: seq<AstIdx>)
    ensures |r| == |es|
  {
    if |es| == 0 then []
    else ArgRoots(es[..|es| - 1], base) + [Root(es[|es| - 1], base + SizeSeq(es[..|es| - 1]))]
  }

  /** The post-order layout, node by node: `e` occupies positions
      `lo .. lo + Size(e) - 1` of `nodes`, each argument starting where the
      previous one ends, the callee after the arguments, and the node for
      `e` itself last. */
  ghost predicate BuiltAt(nodes: seq<Ast>, e: Expr, lo: nat)
    decreases e
  {
    Root(e, lo) < |nodes| &&
    match e
    case EInt(v) => nodes[lo] == Integer(v)
    case EParam(n, l, o) => nodes[lo] == ParamRef(n, l, o)
    case EPrim(op) => nodes[lo] == PrimitiveFunc(op)
    case EUser(n) => nodes[lo] == UserFunc(n)
    case ELambda(pc, b) => BuiltAt(nodes, b, lo) && nodes[Root(e, lo)] == Lambda(pc, Root(b, lo))
    case EDef(n, pc, b) => BuiltAt(nodes, b, lo) && nodes[Root(e, lo)] == FunctionDef(n, pc, Root(b, lo))
    case ECall(c, args) =>
      SeqBuiltAt(nodes, args, lo) && BuiltAt(nodes, c, lo + SizeSeq(args)) &&
      nodes[Root(e, lo)] == Call(Root(c, lo + SizeSeq(args)), |args|)
  }

  ghost predicate SeqBuiltAt(nodes: seq<Ast>, es: seq<Expr>, lo: nat)
    decreases es
  {
    |es| == 0 ||
    (SeqBuiltAt(nodes, es[..|es| - 1], lo) && BuiltAt(nodes, es[|es| - 1], lo + SizeSeq(es[..|es| - 1])))
  }

  /** Appending nodes keeps a layout in place. */
  lemma {:induction false} BuiltAtAppend(nodes: seq<Ast>, more: seq<Ast>, e: Expr, lo: nat)
    requires BuiltAt(nodes, e, lo)
    ensures BuiltAt(nodes + more, e, lo)
    decreases e
  {
    match e
    case ECall(c, args) =>
      SeqBuiltAtAppend(nodes, more, args, lo);
      BuiltAtAppend(nodes, more, c, lo + SizeSeq(args));
    case ELambda(_, b) => BuiltAtAppend(nodes, more, b, lo);
    case EDef(_, _, b) => BuiltAtAppend(nodes, more, b, lo);
    case _ =>
  }

  lemma {:induction false} SeqBuiltAtAppend(nodes: seq<Ast>, more: seq<Ast>, es: seq<Expr>, lo: nat)
    requires SeqBuiltAt(nodes, es, lo)
    ensures SeqBuiltAt(nodes + more, es, lo)
    decreases es
  {
    if |es| > 0 {
      SeqBuiltAtAppend(nodes, more, es[..|es| - 1], lo);
      BuiltAtAppend(nodes, more, es[|es| - 1], lo + SizeSeq(es[..|es| - 1]));
    }
  }

  /** What the parser appends is laid out in post-order. */
  lemma {:induction false} EmitBuilt(pre: seq<Ast>, e: Expr)
    ensures BuiltAt(pre + Emit(e, |pre|), e, |pre|)
    decreases e
  {
    var lo := |pre|;
    match e
    case ECall(c, args) =>
      var xa := EmitSeq(args, lo);
      var xc := Emit(c, lo + SizeSeq(args));
      var top := Call(Root(c, lo + SizeSeq(args)), |args|);
      assert Emit(e, lo) == xa + xc + [top];
      Concat3(pre, xa, xc, [top]);
      EmitBuiltSeq(pre, args);
      EmitBuilt(pre + xa, c);
      CallBuilt(pre + xa, xc, c, args, lo);
    case ELambda(pc, b) =>
      var top := Lambda(pc, Root(b, lo));
      assert Emit(e, lo) == Emit(b, lo) + [top];
      Concat2(pre, Emit(b, lo), [top]);
      EmitBuilt(pre, b);
      BuiltAtAppend(pre + Emit(b, lo), [top], b, lo);
    case EDef(n, pc, b) =>
      var top := FunctionDef(n, pc, Root(b, lo));
      assert Emit(e, lo) == Emit(b, lo) + [top];
      Concat2(pre, Emit(b, lo), [top]);
      EmitBuilt(pre, b);
      BuiltAtAppend(pre + Emit(b, lo), [top], b, lo);
    case _ =>
  }

  /** Regrouping a concatenation. */
  lemma Concat3(pre: seq<Ast>, a: seq<Ast>, b: seq<Ast>, c: seq<Ast>)
    ensures pre + (a + b + c) == (pre + a) + b + c
  {
  }

  lemma Concat2(pre: seq<Ast>, a: seq<Ast>, c: seq<Ast>)
    ensures pre + (a + c) == (pre + a) + c
  {
  }

  /** A call node on top of its laid-out arguments and callee. */
  lemma CallBuilt(nodes: seq<Ast>, xc: seq<Ast>, c: Expr, args: seq<Expr>, lo: nat)
    requires SeqBuiltAt(nodes, args, lo)
    requires BuiltAt(nodes + xc, c, lo + SizeSeq(args))
    requires |nodes + xc| == Root(ECall(c, args), lo)
    ensures BuiltAt(nodes + xc + [Call(Root(c, lo + SizeSeq(args)), |args|)], ECall(c, args), lo)
  {
    var top := [Call(Root(c, lo + SizeSeq(args)), |args|)];
    assert nodes + xc + top == nodes + (xc + top);
    SeqBuiltAtAppend(nodes, xc + top, args, lo);
    BuiltAtAppend(nodes + xc, top, c, lo + SizeSeq(args));
  }

  lemma {:induction false} EmitBuiltSeq(pre: seq<Ast>, es: seq<Expr>)
    ensures SeqBuiltAt(pre + EmitSeq(es, |pre|), es, |pre|)
    decreases es
  {
    var lo := |pre|;
    if |es| > 0 {
      var init := es[..|es| - 1];
      var xi := EmitSeq(init, lo);
      var xl := Emit(es[|es| - 1], lo + SizeSeq(init));
      assert pre + EmitSeq(es, lo) == (pre + xi) + xl;
      EmitBuiltSeq(pre, init);
      SeqBuiltAtAppend(pre + xi, xl, init, lo);
      EmitBuilt(pre + xi, es[|es| - 1]);
    }
  }

  /** The main layout theorem. For an expression laid out in post-order,
      `len` of its root is its size, and `children` of a call returns
      exactly the argument roots that were built, left to right, with no
      index arithmetic going below 0. */
  lemma {:induction false} EmitWalk(nodes: seq<Ast>, e: Expr, lo: nat)
    requires BuiltAt(nodes, e, lo)
    ensures SubtreeLen(nodes, Root(e, lo)) == Some(Size(e))
    ensures e.ECall? ==> Children(nodes, Root(e, lo)) == Some(ArgRoots(e.args, lo))
    decreases e
  {
    match e
    case ECall(c, args) =>
      EmitWalk(nodes, c, lo + SizeSeq(args));
      EmitWalkSeq(nodes, args, lo);
      WalkCallNode(nodes, c, args, lo, lo + SizeSeq(args), ArgRoots(args, lo));
    case EDef(_, _, b) =>
      EmitWalk(nodes, b, lo);
      WalkBody(nodes, e, lo);
    case ELambda(_, b) =>
      EmitWalk(nodes, b, lo);
      WalkBody(nodes, e, lo);
    case _ =>
  }

  /** Where a call's parts end: the arguments, then the callee, then the
      call node. */
  lemma CallRoot(c: Expr, args: seq<Expr>, lo: nat)
    ensures Size(ECall(c, args)) == SizeSeq(args) + Size(c) + 1
    ensures Root(ECall(c, args), lo) == lo + SizeSeq(args) + Size(c)
    ensures Root(c, lo + SizeSeq(args)) == lo + SizeSeq(args) + Size(c) - 1
  {
  }

  /** The call case of `EmitWalk`, once the callee and the arguments have
      been walked. */
  lemma WalkCallNode(nodes: seq<Ast>, c: Expr, args: seq<Expr>, lo: nat, s: nat, roots: seq<AstIdx>)
    requires s == lo + SizeSeq(args)
    requires Root(ECall(c, args), lo) < |nodes|
    requires nodes[Root(ECall(c, args), lo)] == Call(Root(c, s), |args|)
    requires SubtreeLen(nodes, Root(c, s)) == Some(Size(c))
    requires WalkBack(nodes, s, |args|) == Some(Walked(roots, lo))
    ensures SubtreeLen(nodes, Root(ECall(c, args), lo)) == Some(Size(ECall(c, args)))
    ensures Children(nodes, Root(ECall(c, args), lo)) == Some(roots)
  {
    CallRoot(c, args, lo);
    CallNodeAt(nodes, s, Size(c), |args|, roots, lo, Root(ECall(c, args), lo), Root(c, s), Size(ECall(c, args)));
  }

  /** `CallStepAt` with the call node's index and its size named. */
  lemma CallNodeAt(nodes: seq<Ast>, s: nat, fl: nat, n: nat, roots: seq<AstIdx>, low: nat, r: nat, cr: nat, size: nat)
    requires r == s + fl && cr + 1 == r && size == r + 1 - low && 0 < fl
    requires r < |nodes| && nodes[r] == Call(cr, n)
    requires SubtreeLen(nodes, cr) == Some(fl)
    requires WalkBack(nodes, s, n) == Some(Walked(roots, low))
    ensures SubtreeLen(nodes, r) == Some(size) && Children(nodes, r) == Some(roots)
  {
    CallStepAt(nodes, s, fl, n, roots, low);
  }

  /** `CallStep` for a call node at `s + fl`, whose callee's subtree
      occupies `s .. s + fl - 1`. */
  lemma CallStepAt(nodes: seq<Ast>, s: nat, fl: nat, n: nat, roots: seq<AstIdx>, low: nat)
    requires 0 < fl && s + fl < |nodes| && nodes[s + fl] == Call(s + fl - 1, n)
    requires SubtreeLen(nodes, s + fl - 1) == Some(fl)
    requires WalkBack(nodes, s, n) == Some(Walked(roots, low))
    ensures SubtreeLen(nodes, s + fl) == Some(s + fl + 1 - low)
    ensures Children(nodes, s + fl) == Some(roots)
  {
    CallStep(nodes, s + fl, fl, Walked(roots, low));
  }

  lemma WalkBody(nodes: seq<Ast>, e: Expr, lo: nat)
    requires e.EDef? || e.ELambda?
    requires Root(e, lo) < |nodes|
    requires nodes[Root(e, lo)] == (if e.EDef? then FunctionDef(e.name, e.paramCount, Root(e.body, lo))
                                    else Lambda(e.paramCount, Root(e.body, lo)))
    requires SubtreeLen(nodes, Root(e.body, lo)) == Some(Size(e.body))
    ensures SubtreeLen(nodes, Root(e, lo)) == Some(Size(e))
  {
    BodyStep(nodes, Root(e, lo), Size(e.body));
  }

  /** The backward walk over built arguments retraces them exactly. */
  lemma {:induction false} EmitWalkSeq(nodes: seq<Ast>, es: seq<Expr>, lo: nat)
    requires SeqBuiltAt(nodes, es, lo)
    ensures WalkBack(nodes, lo + SizeSeq(es), |es|) == Some(Walked(ArgRoots(es, lo), lo))
    decreases es
  {
    if |es| > 0 {
      var pre := es[..|es| - 1];
      EmitWalk(nodes, es[|es| - 1], lo + SizeSeq(pre));
      EmitWalkSeq(nodes, pre, lo);
      WalkSeqStep(nodes, es, lo);
    }
  }

  /** One more argument on top of walked arguments is one more step of
      the walk. */
  lemma WalkSeqStep(nodes: seq<Ast>, es: seq<Expr>, lo: nat)
    requires |es| > 0
    requires var start := lo + SizeSeq(es[..|es| - 1]);
      SubtreeLen(nodes, Root(es[|es| - 1], start)) == Some(Size(es[|es| - 1]))
    requires WalkBack(nodes, lo + SizeSeq(es[..|es| - 1]), |es| - 1) == Some(Walked(ArgRoots(es[..|es| - 1], lo), lo))
    ensures WalkBack(nodes, lo + SizeSeq(es), |es|) == Some(Walked(ArgRoots(es, lo), lo))
  {
    var pre, last := es[..|es| - 1], es[|es| - 1];
    var start := lo + SizeSeq(pre);
    LastArgRoot(es, lo);
    WalkAt(nodes, start, Size(last), |pre|, ArgRoots(pre, lo), lo);
  }

  /** `WalkStep` with the step's start and length named. */
  lemma WalkAt(nodes: seq<Ast>, start: nat, size: nat, n: nat, roots: seq<AstIdx>, low: nat)
    requires size > 0 && SubtreeLen(nodes, start + size - 1) == Some(size)
    requires WalkBack(nodes, start, n) == Some(Walked(roots, low))
    ensures WalkBack(nodes, start + size, n + 1) == Some(Walked(roots + [start + size - 1], low))
  {
    WalkStep(nodes, start + size, n + 1, size, Walked(roots, low));
  }

  /** The arguments end where the last one does, and its root closes
      the list of roots. */
  lemma LastArgRoot(es: seq<Expr>, lo: nat)
    requires |es| > 0
    ensures var start := lo + SizeSeq(es[..|es| - 1]);
      && lo + SizeSeq(es) == start + Size(es[|es| - 1])
      && ArgRoots(es, lo) == ArgRoots(es[..|es| - 1], lo) + [start + Size(es[|es| - 1]) - 1]
  {
  }

  /** Each argument is itself built, starting where the previous ends, and
      its root is the corresponding entry of `ArgRoots`. */
  lemma {:induction false} ArgBuilt(nodes: seq<Ast>, es: seq<Expr>, lo: nat, i: nat)
    requires SeqBuiltAt(nodes, es, lo) && i < |es|
    ensures BuiltAt(nodes, es[i], lo + SizeSeq(es[..i]))
    ensures ArgRoots(es, lo)[i] == Root(es[i], lo + SizeSeq(es[..i]))
    decreases |es|
  {
    var pre := es[..|es| - 1];
    if i < |es| - 1 {
      ArgBuilt(nodes, pre, lo, i);
      assert pre[..i] == es[..i];
    } else {
      assert es[..i] == pre;
    }
  }

  /** Every position inside a built expression walks cleanly, and its
      callee or body sits right below it. */
  lemma {:induction false} EmitWalkable(nodes: seq<Ast>, e: Expr, lo: nat, i: nat)
    requires BuiltAt(nodes, e, lo) && lo <= i < lo + Size(e)
    ensures SubtreeLen(nodes, i).Some? && Linked(nodes, i)
    decreases e
  {
    if i == Root(e, lo) {
      EmitWalk(nodes, e, lo);
    } else {
      match e
      case ECall(c, args) =>
        if i < lo + SizeSeq(args) {
          EmitWalkableSeq(nodes, args, lo, i);
        } else {
          EmitWalkable(nodes, c, lo + SizeSeq(args), i);
        }
      case EDef(_, _, b) =>
        EmitWalkable(nodes, b, lo, i);
      case ELambda(_, b) =>
        EmitWalkable(nodes, b, lo, i);
    }
  }

  lemma {:induction false} EmitWalkableSeq(nodes: seq<Ast>, es: seq<Expr>, lo: nat, i: nat)
    requires SeqBuiltAt(nodes, es, lo) && lo <= i < lo + SizeSeq(es)
    ensures SubtreeLen(nodes, i).Some? && Linked(nodes, i)
    decreases es
  {
    var pre := es[..|es| - 1];
    if i < lo + SizeSeq(pre) {
      EmitWalkableSeq(nodes, pre, lo, i);
    } else {
      EmitWalkable(nodes, es[|es| - 1], lo + SizeSeq(pre), i);
    }
  }

  /** A program parsed as a run of top-level items is a post-order arena. */
  lemma ProgramPostOrder(items: seq<Expr>)
    ensures PostOrder(EmitSeq(items, 0))
  {
    var nodes := EmitSeq(items, 0);
    EmitBuiltSeq([], items);
    assert [] + nodes == nodes;
    forall i | 0 <= i < |nodes|
      ensures SubtreeLen(nodes, i).Some? && Linked(nodes, i)
    {
      EmitWalkableSeq(nodes, items, 0, i);
    }
  }

  /** A built integer or function name is the one node at its position. */
  lemma Atom(nodes: seq<Ast>, e: Expr, lo: nat)
    requires e.EInt? || e.EUser?
    requires BuiltAt(nodes, e, lo)
    ensures e.EInt? ==> nodes[lo] == Integer(e.value)
    ensures e.EUser? ==> nodes[lo] == UserFunc(e.name)
    ensures SubtreeLen(nodes, lo) == Some(1)
  {
  }

  /** The body of a built definition is laid out right in front of it. */
  lemma DefAt(nodes: seq<Ast>, n: NameIdx, pc: nat, body: Expr, lo: nat)
    requires BuiltAt(nodes, EDef(n, pc, body), lo)
    ensures lo + Size(body) < |nodes| && BuiltAt(nodes, body, lo)
    ensures nodes[lo + Size(body)] == FunctionDef(n, pc, lo + Size(body) - 1)
  {
  }

  /** The positions of one argument. */
  lemma Args1(nodes: seq<Ast>, a0: Expr, lo: nat)
    ensures SizeSeq([a0]) == Size(a0)
    ensures ArgRoots([a0], lo) == [Root(a0, lo)]
    ensures SeqBuiltAt(nodes, [a0], lo) ==> BuiltAt(nodes, a0, lo)
  {
    assert [a0][..0] == [];
  }

  /** The positions of two arguments; the second starts at `l1`. */
  lemma Args2(nodes: seq<Ast>, a0: Expr, a1: Expr, lo: nat, l1: nat)
    requires l1 == lo + Size(a0)
    ensures SizeSeq([a0, a1]) == Size(a0) + Size(a1)
    ensures ArgRoots([a0, a1], lo) == [Root(a0, lo), Root(a1, l1)]
    ensures SeqBuiltAt(nodes, [a0, a1], lo) ==> BuiltAt(nodes, a0, lo) && BuiltAt(nodes, a1, l1)
  {
    assert [a0, a1][..1] == [a0];
    Args1(nodes, a0, lo);
  }

  /** The positions of three arguments, starting at `lo`, `l1` and `l2`. */
  lemma Args3(nodes: seq<Ast>, a0: Expr, a1: Expr, a2: Expr, lo: nat, l1: nat, l2: nat)
    requires l1 == lo + Size(a0) && l2 == l1 + Size(a1)
    ensures SizeSeq([a0, a1, a2]) == Size(a0) + Size(a1) + Size(a2)
    ensures ArgRoots([a0, a1, a2], lo) == [Root(a0, lo), Root(a1, l1), Root(a2, l2)]
    ensures SeqBuiltAt(nodes, [a0, a1, a2], lo) ==>
      BuiltAt(nodes, a0, lo) && BuiltAt(nodes, a1, l1) && BuiltAt(nodes, a2, l2)
  {
    assert [a0, a1, a2][..2] == [a0, a1];
    Args2(nodes, a0, a1, lo, l1);
  }

  /** A built call read back: the callee starts at `s`, and the call node
      sits at `r` with the argument roots as its children. */
  lemma CallAt(nodes: seq<Ast>, c: Expr, args: seq<Expr>, lo: nat, s: nat, r: nat)
    requires BuiltAt(nodes, ECall(c, args), lo)
    requires s == lo + SizeSeq(args) && r == s + Size(c)
    ensures SeqBuiltAt(nodes, args, lo) && BuiltAt(nodes, c, s)
    ensures r < |nodes| && nodes[r] == Call(r - 1, |args|) && HasChildren(nodes, r, ArgRoots(args, lo))
  {
    CallRoot(c, args, lo);
    EmitWalk(nodes, ECall(c, args), lo);
  }

  /** A built call with one argument, read back; `lc` and `r` name where the
      callee starts and where the call node sits. */
  lemma Call1(nodes: seq<Ast>, c: Expr, a0: Expr, lo: nat, lc: nat, r: nat)
    requires BuiltAt(nodes, ECall(c, [a0]), lo)
    requires lc == lo + Size(a0) && r == lc + Size(c)
    ensures SizeSeq([a0]) == Size(a0)
    ensures BuiltAt(nodes, a0, lo) && BuiltAt(nodes, c, lc)
    ensures r < |nodes| && nodes[r] == Call(r - 1, 1) && HasChildren(nodes, r, [Root(a0, lo)])
  {
    Args1(nodes, a0, lo);
    CallAt(nodes, c, [a0], lo, lc, r);
  }

  /** A built call with two arguments, read back. */
  lemma Call2(nodes: seq<Ast>, c: Expr, a0: Expr, a1: Expr, lo: nat, l1: nat, lc: nat, r: nat)
    requires BuiltAt(nodes, ECall(c, [a0, a1]), lo)
    requires l1 == lo + Size(a0) && lc == l1 + Size(a1) && r == lc + Size(c)
    ensures SizeSeq([a0, a1]) == Size(a0) + Size(a1)
    ensures BuiltAt(nodes, a0, lo) && BuiltAt(nodes, a1, l1) && BuiltAt(nodes, c, lc)
    ensures r < |nodes| && nodes[r] == Call(r - 1, 2) && HasChildren(nodes, r, [Root(a0, lo), Root(a1, l1)])
  {
    Args2(nodes, a0, a1, lo, l1);
    CallAt(nodes, c, [a0, a1], lo, lc, r);
  }

  /** A built call with three arguments, read back. */
  lemma Call3(nodes: seq<Ast>, c: Expr, a0: Expr, a1: Expr, a2: Expr, lo: nat, l1: nat, l2: nat, lc: nat, r: nat)
    requires BuiltAt(nodes, ECall(c, [a0, a1, a2]), lo)
    requires l1 == lo + Size(a0) && l2 == l1 + Size(a1) && lc == l2 + Size(a2) && r == lc + Size(c)
    ensures SizeSeq([a0, a1, a2]) == Size(a0) + Size(a1) + Size(a2)
    ensures BuiltAt(nodes, a0, lo) && BuiltAt(nodes, a1, l1) && BuiltAt(nodes, a2, l2) && BuiltAt(nodes, c, lc)
    ensures r < |nodes| && nodes[r] == Call(r - 1, 3) && HasChildren(nodes, r, [Root(a0, lo), Root(a1, l1), Root(a2, l2)])
  {
    Args3(nodes, a0, a1, a2, lo, l1, l2);
    CallAt(nodes, c, [a0, a1, a2], lo, lc, r);
  }

  /** `f(x, y, z)` with three integer arguments, read back. */
  lemma ThreeInts(nodes: seq<Ast>, f: NameIdx, x: int, y: int, z: int, lo: nat)
    requires BuiltAt(nodes, ECall(EUser(f), [EInt(x), EInt(y), EInt(z)]), lo)
    ensures Size(ECall(EUser(f), [EInt(x), EInt(y), EInt(z)])) == 5
    ensures lo + 5 <= |nodes| && nodes[lo + 4] == Call(lo + 3, 3) && nodes[lo + 3] == UserFunc(f)
    ensures SubtreeLen(nodes, lo + 3) == Some(1) && HasChildren(nodes, lo + 4, [lo, lo + 1, lo + 2])
    ensures nodes[lo] == Integer(x) && nodes[lo + 1] == Integer(y) && nodes[lo + 2] == Integer(z)
  {
    Call3(nodes, EUser(f), EInt(x), EInt(y), EInt(z), lo, lo + 1, lo + 2, lo + 3, lo + 4);
    Atom(nodes, EInt(x), lo);
    Atom(nodes, EInt(y), lo + 1);
    Atom(nodes, EInt(z), lo + 2);
    Atom(nodes, EUser(f), lo + 3);
  }

  /** `fn test1() { muladd(1, 2, 3) }`: the body is a call whose children
      are the three integers, in order (src/ast/mod.rs:142-160). */
  lemma ShapeFlat(nodes: seq<Ast>, lo: nat, muladd: NameIdx, test: NameIdx)
    requires BuiltAt(nodes, EDef(test, 0, ECall(EUser(muladd), [EInt(1), EInt(2), EInt(3)])), lo)
    ensures lo + 6 <= |nodes| && nodes[lo + 5] == FunctionDef(test, 0, lo + 4)
    ensures nodes[lo + 4].Call? && HasChildren(nodes, lo + 4, [lo, lo + 1, lo + 2])
    ensures nodes[lo] == Integer(1) && nodes[lo + 1] == Integer(2) && nodes[lo + 2] == Integer(3)
  {
    ThreeInts(nodes, muladd, 1, 2, 3, lo);
  }

  /** `muladd(1, 2, muladd(3, 4, 5))`: the outer children are the two
      integers and the inner call. The inner call's last argument is the
      first index its walk visits, right below the callee, and reading
      downwards from there yields 5, 4, 3 (src/ast/mod.rs:198-250). */
  lemma ShapeNestedLast(nodes: seq<Ast>, lo: nat, muladd: NameIdx, test: NameIdx)
    requires BuiltAt(nodes, EDef(test, 0, ECall(EUser(muladd),
      [EInt(1), EInt(2), ECall(EUser(muladd), [EInt(3), EInt(4), EInt(5)])])), lo)
    ensures lo + 10 <= |nodes| && nodes[lo + 9] == FunctionDef(test, 0, lo + 8)
    ensures nodes[lo + 8] == Call(lo + 7, 3) && nodes[lo + 7] == UserFunc(muladd)
    ensures HasChildren(nodes, lo + 8, [lo, lo + 1, lo + 6])
    ensures nodes[lo] == Integer(1) && nodes[lo + 1] == Integer(2)
    ensures nodes[lo + 6] == Call(lo + 5, 3) && nodes[lo + 5] == UserFunc(muladd)
    ensures SubtreeLen(nodes, lo + 5) == Some(1) && HasChildren(nodes, lo + 6, [lo + 2, lo + 3, lo + 4])
    ensures Children(nodes, lo + 6).value[2] == lo + 6 - SubtreeLen(nodes, lo + 5).value - 1
    ensures nodes[lo + 4] == Integer(5) && nodes[lo + 3] == Integer(4) && nodes[lo + 2] == Integer(3)
  {
    var body := ECall(EUser(muladd), [EInt(1), EInt(2), ECall(EUser(muladd), [EInt(3), EInt(4), EInt(5)])]);
    DefAt(nodes, test, 0, body, lo);
    NestedLastOuter(nodes, lo, muladd);
    ThreeInts(nodes, muladd, 3, 4, 5, lo + 2);
  }

  /** The outer call of `muladd(1, 2, muladd(3, 4, 5))`. */
  lemma NestedLastOuter(nodes: seq<Ast>, lo: nat, muladd: NameIdx)
    requires BuiltAt(nodes, ECall(EUser(muladd), [EInt(1), EInt(2), ECall(EUser(muladd), [EInt(3), EInt(4), EInt(5)])]), lo)
    ensures Size(ECall(EUser(muladd), [EInt(1), EInt(2), ECall(EUser(muladd), [EInt(3), EInt(4), EInt(5)])])) == 9
    ensures lo + 9 <= |nodes| && nodes[lo + 8] == Call(lo + 7, 3) && nodes[lo + 7] == UserFunc(muladd)
    ensures HasChildren(nodes, lo + 8, [lo, lo + 1, lo + 6])
    ensures nodes[lo] == Integer(1) && nodes[lo + 1] == Integer(2)
    ensures BuiltAt(nodes, ECall(EUser(muladd), [EInt(3), EInt(4), EInt(5)]), lo + 2)
  {
    var inner := ECall(EUser(muladd), [EInt(3), EInt(4), EInt(5)]);
    SizeTriple(EInt(3), EInt(4), EInt(5));
    assert Size(inner) == 5;
    Call3(nodes, EUser(muladd), EInt(1), EInt(2), inner, lo, lo + 1, lo + 2, lo + 7, lo + 8);
    Atom(nodes, EInt(1), lo);
    Atom(nodes, EInt(2), lo + 1);
    Atom(nodes, EUser(muladd), lo + 7);
  }

  /** `muladd(muladd(1, 2, 3), 4, 5)`: child 0 is a call to `muladd` with
      children 1, 2, 3; children 1 and 2 are 4 and 5 (src/ast/mod.rs:292-339). */
  lemma ShapeNestedFirst(nodes: seq<Ast>, lo: nat, muladd: NameIdx, test: NameIdx)
    requires BuiltAt(nodes, EDef(test, 0, ECall(EUser(muladd),
      [ECall(EUser(muladd), [EInt(1), EInt(2), EInt(3)]), EInt(4), EInt(5)])), lo)
    ensures lo + 10 <= |nodes| && nodes[lo + 9] == FunctionDef(test, 0, lo + 8)
    ensures HasChildren(nodes, lo + 8, [lo + 4, lo + 5, lo + 6])
    ensures nodes[lo + 5] == Integer(4) && nodes[lo + 6] == Integer(5)
    ensures nodes[lo + 4] == Call(lo + 3, 3) && nodes[lo + 3] == UserFunc(muladd)
    ensures HasChildren(nodes, lo + 4, [lo, lo + 1, lo + 2])
    ensures nodes[lo] == Integer(1) && nodes[lo + 1] == Integer(2) && nodes[lo + 2] == Integer(3)
  {
    var body := ECall(EUser(muladd), [ECall(EUser(muladd), [EInt(1), EInt(2), EInt(3)]), EInt(4), EInt(5)]);
    DefAt(nodes, test, 0, body, lo);
    NestedFirstOuter(nodes, lo, muladd);
    ThreeInts(nodes, muladd, 1, 2, 3, lo);
  }

  /** The outer call of `muladd(muladd(1, 2, 3), 4, 5)`. */
  lemma NestedFirstOuter(nodes: seq<Ast>, lo: nat, muladd: NameIdx)
    requires BuiltAt(nodes, ECall(EUser(muladd), [ECall(EUser(muladd), [EInt(1), EInt(2), EInt(3)]), EInt(4), EInt(5)]), lo)
    ensures Size(ECall(EUser(muladd), [ECall(EUser(muladd), [EInt(1), EInt(2), EInt(3)]), EInt(4), EInt(5)])) == 9
    ensures lo + 9 <= |nodes| && HasChildren(nodes, lo + 8, [lo + 4, lo + 5, lo + 6])
    ensures nodes[lo + 5] == Integer(4) && nodes[lo + 6] == Integer(5)
    ensures BuiltAt(nodes, ECall(EUser(muladd), [EInt(1), EInt(2), EInt(3)]), lo)
  {
    var inner := ECall(EUser(muladd), [EInt(1), EInt(2), EInt(3)]);
    SizeTriple(EInt(1), EInt(2), EInt(3));
    assert Size(inner) == 5;
    Call3(nodes, EUser(muladd), inner, EInt(4), EInt(5), lo, lo + 5, lo + 6, lo + 7, lo + 8);
    Atom(nodes, EInt(4), lo + 5);
    Atom(nodes, EInt(5), lo + 6);
  }

  /** `muladd(1, muladd(2, 3, 4), 5)`: a call in the middle position is
      found, and its own children are 2, 3, 4 (src/ast/mod.rs:377-424). */
  lemma ShapeNestedMiddle(nodes: seq<Ast>, lo: nat, muladd: NameIdx, test: NameIdx)
    requires BuiltAt(nodes, EDef(test, 0, ECall(EUser(muladd),
      [EInt(1), ECall(EUser(muladd), [EInt(2), EInt(3), EInt(4)]), EInt(5)])), lo)
    ensures lo + 10 <= |nodes| && nodes[lo + 9] == FunctionDef(test, 0, lo + 8)
    ensures HasChildren(nodes, lo + 8, [lo, lo + 5, lo + 6])
    ensures nodes[lo] == Integer(1) && nodes[lo + 6] == Integer(5)
    ensures nodes[lo + 5] == Call(lo + 4, 3) && nodes[lo + 4] == UserFunc(muladd)
    ensures HasChildren(nodes, lo + 5, [lo + 1, lo + 2, lo + 3])
    ensures nodes[lo + 1] == Integer(2) && nodes[lo + 2] == Integer(3) && nodes[lo + 3] == Integer(4)
  {
    var body := ECall(EUser(muladd), [EInt(1), ECall(EUser(muladd), [EInt(2), EInt(3), EInt(4)]), EInt(5)]);
    DefAt(nodes, test, 0, body, lo);
    NestedMiddleOuter(nodes, lo, muladd);
    ThreeInts(nodes, muladd, 2, 3, 4, lo + 1);
  }

  /** The outer call of `muladd(1, muladd(2, 3, 4), 5)`. */
  lemma NestedMiddleOuter(nodes: seq<Ast>, lo: nat, muladd: NameIdx)
    requires BuiltAt(nodes, ECall(EUser(muladd), [EInt(1), ECall(EUser(muladd), [EInt(2), EInt(3), EInt(4)]), EInt(5)]), lo)
    ensures Size(ECall(EUser(muladd), [EInt(1), ECall(EUser(muladd), [EInt(2), EInt(3), EInt(4)]), EInt(5)])) == 9
    ensures lo + 9 <= |nodes| && HasChildren(nodes, lo + 8, [lo, lo + 5, lo + 6])
    ensures nodes[lo] == Integer(1) && nodes[lo + 6] == Integer(5)
    ensures BuiltAt(nodes, ECall(EUser(muladd), [EInt(2), EInt(3), EInt(4)]), lo + 1)
  {
    var inner := ECall(EUser(muladd), [EInt(2), EInt(3), EInt(4)]);
    SizeTriple(EInt(2), EInt(3), EInt(4));
    assert Size(inner) == 5;
    Call3(nodes, EUser(muladd), EInt(1), inner, EInt(5), lo, lo + 1, lo + 6, lo + 7, lo + 8);
    Atom(nodes, EInt(1), lo);
    Atom(nodes, EInt(5), lo + 6);
  }

  /** The sizes of the two inner callees of `curry(1, 2)(3, 4, 5)(6)`. */
  lemma CurrySizes(curry: NameIdx)
    ensures Size(ECall(EUser(curry), [EInt(1), EInt(2)])) == 4
    ensures Size(ECall(ECall(EUser(curry), [EInt(1), EInt(2)]), [EInt(3), EInt(4), EInt(5)])) == 8
  {
    var inner := ECall(EUser(curry), [EInt(1), EInt(2)]);
    SizePair(EInt(1), EInt(2));
    assert Size(inner) == 4;
    SizeTriple(EInt(3), EInt(4), EInt(5));
  }

  lemma SizePair(a0: Expr, a1: Expr)
    ensures SizeSeq([a0, a1]) == Size(a0) + Size(a1)
  {
    assert [a0][..0] == [];
    assert SizeSeq([a0]) == Size(a0);
    assert [a0, a1][..1] == [a0];
  }

  lemma SizeTriple(a0: Expr, a1: Expr, a2: Expr)
    ensures SizeSeq([a0, a1, a2]) == Size(a0) + Size(a1) + Size(a2)
  {
    assert [a0, a1, a2][..2] == [a0, a1];
    SizePair(a0, a1);
  }

  /** `curry(1, 2)` as a callee, read back. */
  lemma CurryHead(nodes: seq<Ast>, curry: NameIdx, lo: nat)
    requires BuiltAt(nodes, ECall(EUser(curry), [EInt(1), EInt(2)]), lo)
    ensures Size(ECall(EUser(curry), [EInt(1), EInt(2)])) == 4
    ensures lo + 4 <= |nodes| && nodes[lo + 3] == Call(lo + 2, 2) && nodes[lo + 2] == UserFunc(curry)
    ensures HasChildren(nodes, lo + 3, [lo, lo + 1])
    ensures nodes[lo] == Integer(1) && nodes[lo + 1] == Integer(2)
  {
    Call2(nodes, EUser(curry), EInt(1), EInt(2), lo, lo + 1, lo + 2, lo + 3);
    Atom(nodes, EInt(1), lo);
    Atom(nodes, EInt(2), lo + 1);
    Atom(nodes, EUser(curry), lo + 2);
  }

  /** `curry(1, 2)(3, 4, 5)` as a callee: the outer call and its three
      integer arguments. */
  lemma CurryMiddle(nodes: seq<Ast>, curry: NameIdx, lo: nat)
    requires BuiltAt(nodes, ECall(ECall(EUser(curry), [EInt(1), EInt(2)]), [EInt(3), EInt(4), EInt(5)]), lo)
    ensures Size(ECall(ECall(EUser(curry), [EInt(1), EInt(2)]), [EInt(3), EInt(4), EInt(5)])) == 8
    ensures lo + 8 <= |nodes| && nodes[lo + 7] == Call(lo + 6, 3)
    ensures HasChildren(nodes, lo + 7, [lo, lo + 1, lo + 2])
    ensures nodes[lo] == Integer(3) && nodes[lo + 1] == Integer(4) && nodes[lo + 2] == Integer(5)
    ensures BuiltAt(nodes, ECall(EUser(curry), [EInt(1), EInt(2)]), lo + 3)
  {
    var inner := ECall(EUser(curry), [EInt(1), EInt(2)]);
    CurrySizes(curry);
    Call3(nodes, inner, EInt(3), EInt(4), EInt(5), lo, lo + 1, lo + 2, lo + 3, lo + 7);
    Atom(nodes, EInt(3), lo);
    Atom(nodes, EInt(4), lo + 1);
    Atom(nodes, EInt(5), lo + 2);
  }

  /** `curry(1, 2)(3, 4, 5)(6)`: the outer call has children [6]; its callee
      is a call with children 3, 4, 5, whose callee is a call with children
      1, 2, whose callee is `curry` (src/ast/mod.rs:467-525). */
  lemma ShapeCurried(nodes: seq<Ast>, lo: nat, curry: NameIdx, test: NameIdx)
    requires BuiltAt(nodes, EDef(test, 0,
      ECall(ECall(ECall(EUser(curry), [EInt(1), EInt(2)]), [EInt(3), EInt(4), EInt(5)]), [EInt(6)])), lo)
    ensures lo + 11 <= |nodes| && nodes[lo + 10] == FunctionDef(test, 0, lo + 9)
    ensures nodes[lo + 9] == Call(lo + 8, 1)
    ensures HasChildren(nodes, lo + 9, [lo])
    ensures nodes[lo] == Integer(6)
    ensures nodes[lo + 8] == Call(lo + 7, 3)
    ensures HasChildren(nodes, lo + 8, [lo + 1, lo + 2, lo + 3])
    ensures nodes[lo + 1] == Integer(3) && nodes[lo + 2] == Integer(4) && nodes[lo + 3] == Integer(5)
    ensures nodes[lo + 7] == Call(lo + 6, 2)
    ensures HasChildren(nodes, lo + 7, [lo + 4, lo + 5])
    ensures nodes[lo + 4] == Integer(1) && nodes[lo + 5] == Integer(2)
    ensures nodes[lo + 6] == UserFunc(curry)
  {
    var body := ECall(ECall(ECall(EUser(curry), [EInt(1), EInt(2)]), [EInt(3), EInt(4), EInt(5)]), [EInt(6)]);
    CurriedOuter(nodes, lo, curry);
    DefAt(nodes, test, 0, body, lo);
    CurryMiddle(nodes, curry, lo + 1);
    CurryHead(nodes, curry, lo + 4);
  }

  /** The outermost call of `curry(1, 2)(3, 4, 5)(6)`. */
  lemma CurriedOuter(nodes: seq<Ast>, lo: nat, curry: NameIdx)
    requires BuiltAt(nodes, ECall(ECall(ECall(EUser(curry), [EInt(1), EInt(2)]), [EInt(3), EInt(4), EInt(5)]), [EInt(6)]), lo)
    ensures Size(ECall(ECall(ECall(EUser(curry), [EInt(1), EInt(2)]), [EInt(3), EInt(4), EInt(5)]), [EInt(6)])) == 10
    ensures lo + 10 <= |nodes| && nodes[lo + 9] == Call(lo + 8, 1)
    ensures HasChildren(nodes, lo + 9, [lo])
    ensures nodes[lo] == Integer(6)
    ensures BuiltAt(nodes, ECall(ECall(EUser(curry), [EInt(1), EInt(2)]), [EInt(3), EInt(4), EInt(5)]), lo + 1)
  {
    var middle := ECall(ECall(EUser(curry), [EInt(1), EInt(2)]), [EInt(3), EInt(4), EInt(5)]);
    CurrySizes(curry);
    Call1(nodes, middle, EInt(6), lo, lo + 1, lo + 9);
    Atom(nodes, EInt(6), lo);
  }
}
