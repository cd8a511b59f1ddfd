/** The arity checker (src/checker/type_check.rs): every referenced
    function must be defined and every call must pass as many arguments as
    its callee takes. */
module Checker {
  import opened Syntax
  import opened Arena

  datatype CheckerError =
    | UndefinedFunction(name: string)
    | ArgumentCountMismatch(name: string, expected: nat, actual: nat)
    | InvalidPrimitiveArgCount(name: string, count: nat)
    | InternalError(message: string)

  /** The `Result<()>` of the checker. */
  datatype Check = Pass | Fail(error: CheckerError)

  /** What a `TypeChecker` holds: the arena it reads, the interned strings
      it names functions by, and the parameter count of every definition. */
  datatype TypeChecker = TypeChecker(nodes: seq<Ast>, strings: seq<string>, paramCounts: map<NameIdx, nat>)

  /** `TypeChecker::new`: one entry per definition that really is a
      `FunctionDef` node, holding its declared parameter count. */
  function ParamCounts(nodes: seq<Ast>, defs: map<NameIdx, AstIdx>): (m: map<NameIdx, nat>)
    ensures forall n :: n in m <==> n in defs && defs[n] < |nodes| && nodes[defs[n]].FunctionDef?
    ensures forall n :: n in m ==> m[n] == nodes[defs[n]].paramCount
  {
    map n | n in defs && defs[n] < |nodes| && nodes[defs[n]].FunctionDef? :: nodes[defs[n]].paramCount
  }

  function NewTypeChecker(nodes: seq<Ast>, strings: seq<string>, defs: map<NameIdx, AstIdx>): (tc: TypeChecker)
    ensures tc.nodes == nodes && tc.strings == strings
    ensures (forall n :: n in defs ==> defs[n] < |nodes| && nodes[defs[n]].FunctionDef?) ==>
      tc.paramCounts.Keys == defs.Keys
  {
    TypeChecker(nodes, strings, ParamCounts(nodes, defs))
  }

  /** What the checker needs of the arena: it walks, and every name handle
      it may print is a string-pool position. */
  ghost predicate Readable(tc: TypeChecker) {
    Walkable(tc.nodes) && NamesInterned(tc.nodes, |tc.strings|)
  }

  /** `check_expression`. A call checks its callee first, then the arity
      against the callee, then the children left to right; the first
      failure is the answer. */
  function CheckExpression(tc: TypeChecker, idx: AstIdx): (r: Check)
    requires Readable(tc) && idx < |tc.nodes|
    decreases idx + 1, 0
  {
    BelowParent(tc.nodes, idx);
    match tc.nodes[idx]
    case Integer(_) => Pass
    case ParamRef(_, _, _) => Pass
    case PrimitiveFunc(_) => Pass
    case UserFunc(n) =>
      if n !in tc.paramCounts then Fail(UndefinedFunction(tc.strings[n])) else Pass
    case Call(f, k) =>
      var c := CheckExpression(tc, f);
      if c.Fail? then c
      else (match tc.nodes[f]
        case PrimitiveFunc(p) =>
          if k != 2 then Fail(InvalidPrimitiveArgCount(PrimitiveName(p), k))
          else CheckAll(tc, Children(tc.nodes, idx).value, idx)
        case UserFunc(n) =>
          if n in tc.paramCounts then
            if tc.paramCounts[n] != k then Fail(ArgumentCountMismatch(tc.strings[n], tc.paramCounts[n], k))
            else CheckAll(tc, Children(tc.nodes, idx).value, idx)
          else
            // Unreachable: the callee check above has already failed.
            assert false; Pass
        case _ => Fail(InternalError("Cannot call non-function expression")))
    case FunctionDef(_, _, b) => CheckExpression(tc, b)
    case Lambda(_, _) => Fail(InternalError("Lambda is not handled by the checker"))
  }

  /** The `for child_idx in children` loop: stops at the first failure. */
  function CheckAll(tc: TypeChecker, cs: seq<AstIdx>, bound: nat): (r: Check)
    requires Readable(tc)
    requires forall i :: 0 <= i < |cs| ==> cs[i] < bound && cs[i] < |tc.nodes|
    decreases bound, |cs|
  {
    if |cs| == 0 then Pass
    else
      var c := CheckExpression(tc, cs[0]);
      if c.Fail? then c else CheckAll(tc, cs[1..], bound)
  }

  /** `check_function_def`: the definition slot must hold a `FunctionDef`,
      whose body is then checked. */
  function CheckFunctionDef(tc: TypeChecker, defIdx: AstIdx): (r: Check)
    requires Readable(tc) && defIdx < |tc.nodes|
  {
    match tc.nodes[defIdx]
    case FunctionDef(_, _, b) =>
      BelowParent(tc.nodes, defIdx);
      CheckExpression(tc, b)
    case _ => Fail(InternalError("Expected FunctionDef"))
  }

  /** `check_program`: the definitions in the (fixed but arbitrary) map
      iteration order `order`; the first failure is the answer. */
  function CheckProgram(tc: TypeChecker, defs: map<NameIdx, AstIdx>, order: seq<NameIdx>): (r: Check)
    requires Readable(tc)
    requires forall i :: 0 <= i < |order| ==> order[i] in defs && defs[order[i]] < |tc.nodes|
  {
    if |order| == 0 then Pass
    else
      var c := CheckFunctionDef(tc, defs[order[0]]);
      if c.Fail? then c else CheckProgram(tc, defs, order[1..])
  }

  /** What is wrong with node `j` on its own, as the checker would report
      it once everything below it is fine: an undefined name, a call whose
      argument count differs from its callee's, a call of something that
      is not a function, or a lambda. A call of an undefined name is not
      faulted here: the fault lies with the callee node. */
  ghost function Fault(tc: TypeChecker, j: AstIdx): (r: Option<CheckerError>)
    requires Readable(tc) && j < |tc.nodes|
    ensures tc.nodes[j].Integer? || tc.nodes[j].ParamRef? || tc.nodes[j].PrimitiveFunc? || tc.nodes[j].FunctionDef? ==> r.None?
  {
    BelowParent(tc.nodes, j);
    match tc.nodes[j]
    case UserFunc(n) =>
      if n in tc.paramCounts then None else Some(UndefinedFunction(tc.strings[n]))
    case Call(f, k) =>
      (match tc.nodes[f]
       case PrimitiveFunc(p) =>
         if k == 2 then None else Some(InvalidPrimitiveArgCount(PrimitiveName(p), k))
       case UserFunc(n) =>
         if n in tc.paramCounts && tc.paramCounts[n] != k
         then Some(ArgumentCountMismatch(tc.strings[n], tc.paramCounts[n], k))
         else None
       case _ => Some(InternalError("Cannot call non-function expression")))
    case Lambda(_, _) => Some(InternalError("Lambda is not handled by the checker"))
    case _ => None
  }

  /** No node in `[lo, hi)` has a fault. */
  ghost predicate Clean(tc: TypeChecker, lo: nat, hi: nat)
    requires Readable(tc) && hi <= |tc.nodes|
  {
    forall j :: lo <= j < hi ==> Fault(tc, j).None?
  }

  /** Some node in `[lo, hi)` has the fault `e`. */
  ghost predicate Blamed(tc: TypeChecker, lo: nat, hi: nat, e: CheckerError)
    requires Readable(tc) && hi <= |tc.nodes|
  {
    exists j :: lo <= j < hi && Fault(tc, j) == Some(e)
  }

  /** `c` is the verdict the span `[lo, hi)` deserves: a pass exactly when
      the span is clean, and otherwise the fault of one of its nodes. */
  ghost predicate Judged(tc: TypeChecker, c: Check, lo: nat, hi: nat)
    requires Readable(tc) && hi <= |tc.nodes|
  {
    (c.Pass? <==> Clean(tc, lo, hi)) && (c.Fail? ==> Blamed(tc, lo, hi, c.error))
  }

  /** The first failure of two checks run one after the other. */
  function Then(a: Check, b: Check): (r: Check)
    ensures r.Pass? <==> a.Pass? && b.Pass?
    ensures r == a || r == b
  {
    if a.Fail? then a else b
  }

  /** The verdict for node `j` on its own. */
  ghost function Local(tc: TypeChecker, j: AstIdx): (r: Check)
    requires Readable(tc) && j < |tc.nodes|
    ensures Judged(tc, r, j, j + 1)
  {
    var f := Fault(tc, j);
    assert Fault(tc, j) == f;
    if f.None? then Pass else Fail(f.value)
  }

  /** The checker accepts a subtree of a post-order arena exactly when no
      node of it has a fault, and every error it reports is the fault of a
      node of that subtree. */
  lemma {:induction false} CheckSpan(tc: TypeChecker, idx: AstIdx)
    requires Readable(tc) && PostOrder(tc.nodes) && idx < |tc.nodes|
    ensures Judged(tc, CheckExpression(tc, idx), Low(tc.nodes, idx), idx + 1)
    decreases idx, 2
  {
    var nodes := tc.nodes;
    assert Linked(nodes, idx);
    LenFormula(nodes, idx);
    match nodes[idx]
    case Call(f, k) =>
      CheckSpanCall(tc, idx);
    case FunctionDef(_, _, b) =>
      CheckSpan(tc, b);
      assert Judged(tc, Local(tc, idx), idx, idx + 1);
      Join(tc, CheckExpression(tc, b), Local(tc, idx), Low(nodes, b), idx, idx + 1);
    case _ =>
      assert CheckExpression(tc, idx) == Local(tc, idx);
  }

  /** `CheckSpan` for a call: its subtree is the span of the arguments,
      then the callee's, then the call node itself. */
  lemma {:induction false} CheckSpanCall(tc: TypeChecker, idx: AstIdx)
    requires Readable(tc) && PostOrder(tc.nodes) && idx < |tc.nodes| && tc.nodes[idx].Call?
    ensures Judged(tc, CheckExpression(tc, idx), Low(tc.nodes, idx), idx + 1)
    decreases idx, 1
  {
    var nodes := tc.nodes;
    var mid := CallParts(tc, idx);
    CallShape(tc, idx);
    CallJoin(tc, CheckExpression(tc, nodes[idx].funcIdx), Local(tc, idx),
             CheckAll(tc, Children(nodes, idx).value, idx), Low(nodes, idx), mid, idx);
  }

  /** The three spans of a call, each with the verdict it deserves. */
  lemma {:induction false} CallParts(tc: TypeChecker, idx: AstIdx) returns (mid: nat)
    requires Readable(tc) && PostOrder(tc.nodes) && idx < |tc.nodes| && tc.nodes[idx].Call?
    ensures tc.nodes[idx].funcIdx < idx && Children(tc.nodes, idx).Some?
    ensures forall i :: 0 <= i < |Children(tc.nodes, idx).value| ==> Children(tc.nodes, idx).value[i] < idx
    ensures Low(tc.nodes, idx) <= mid <= idx
    ensures Judged(tc, CheckAll(tc, Children(tc.nodes, idx).value, idx), Low(tc.nodes, idx), mid)
    ensures Judged(tc, CheckExpression(tc, tc.nodes[idx].funcIdx), mid, idx)
    decreases idx, 0
  {
    var nodes := tc.nodes;
    var f := nodes[idx].funcIdx;
    assert Linked(nodes, idx);
    CallTiles(nodes, idx);
    mid := idx - SubtreeLen(nodes, f).value;
    CheckSpan(tc, f);
    CheckTiles(tc, Children(nodes, idx).value, Low(nodes, idx), mid, idx);
  }

  /** The verdicts of a call's arguments, callee and own node, taken
      callee first, judge the whole call. */
  lemma CallJoin(tc: TypeChecker, callee: Check, local: Check, args: Check, lo: nat, mid: nat, idx: AstIdx)
    requires Readable(tc) && lo <= mid <= idx < |tc.nodes|
    requires Judged(tc, args, lo, mid) && Judged(tc, callee, mid, idx) && Judged(tc, local, idx, idx + 1)
    ensures Judged(tc, Then(callee, Then(local, args)), lo, idx + 1)
  {
    Join(tc, callee, local, mid, idx, idx + 1);
    Join(tc, args, Then(callee, local), lo, mid, idx + 1);
    JoinThen(tc, callee, local, args, lo, mid, idx + 1);
  }

  /** A call's check is its callee's, then its own, then its arguments'. */
  lemma CallShape(tc: TypeChecker, idx: AstIdx)
    requires Readable(tc) && idx < |tc.nodes| && tc.nodes[idx].Call?
    ensures tc.nodes[idx].funcIdx < idx
    ensures CheckExpression(tc, idx) ==
      Then(CheckExpression(tc, tc.nodes[idx].funcIdx),
           Then(Local(tc, idx), CheckAll(tc, Children(tc.nodes, idx).value, idx)))
  {
    BelowParent(tc.nodes, idx);
    var f := tc.nodes[idx].funcIdx;
    if tc.nodes[f].UserFunc? && tc.nodes[f].name !in tc.paramCounts {
      assert CheckExpression(tc, f).Fail?;
    }
  }

  /** The children loop over subtrees tiling `[lo, hi)` gives the verdict
      that span deserves. */
  lemma {:induction false} CheckTiles(tc: TypeChecker, cs: seq<AstIdx>, lo: nat, hi: nat, bound: nat)
    requires Readable(tc) && PostOrder(tc.nodes)
    requires hi <= bound && hi <= |tc.nodes|
    requires Tiles(tc.nodes, cs, lo, hi)
    requires forall i :: 0 <= i < |cs| ==> cs[i] < hi
    ensures Judged(tc, CheckAll(tc, cs, bound), lo, hi)
    decreases hi, 0, |cs|
  {
    var nodes := tc.nodes;
    if |cs| > 0 {
      var x := hi - 1;
      var pre := cs[..|cs| - 1];
      var mid := hi - SubtreeLen(nodes, x).value;
      assert cs == pre + [x];
      TilesBelow(nodes, pre, lo, mid);
      CheckTiles(tc, pre, lo, mid, bound);
      CheckSpan(tc, x);
      WalkJoin(tc, pre, x, bound, lo, mid);
    } else {
      TilesBelow(nodes, cs, lo, hi);
    }
  }

  /** One more walked argument, whose subtree ends right below `x + 1`,
      extends the span the loop judges. */
  lemma WalkJoin(tc: TypeChecker, cs: seq<AstIdx>, x: AstIdx, bound: nat, lo: nat, mid: nat)
    requires Readable(tc) && x < bound && x < |tc.nodes| && lo <= mid <= x + 1
    requires forall i :: 0 <= i < |cs| ==> cs[i] < bound && cs[i] < |tc.nodes|
    requires Judged(tc, CheckAll(tc, cs, bound), lo, mid)
    requires Judged(tc, CheckExpression(tc, x), mid, x + 1)
    ensures Judged(tc, CheckAll(tc, cs + [x], bound), lo, x + 1)
  {
    CheckAllSnoc(tc, cs, x, bound);
    Join(tc, CheckAll(tc, cs, bound), CheckExpression(tc, x), lo, mid, x + 1);
  }

  /** Verdicts of adjacent spans, run in either order, judge the union. */
  lemma Join(tc: TypeChecker, a: Check, b: Check, lo: nat, mid: nat, hi: nat)
    requires Readable(tc) && lo <= mid <= hi <= |tc.nodes|
    requires Judged(tc, a, lo, mid) && Judged(tc, b, mid, hi)
    ensures Judged(tc, Then(a, b), lo, hi) && Judged(tc, Then(b, a), lo, hi)
  {
  }

  /** Running the two later checks together first does not change the
      first failure. */
  lemma JoinThen(tc: TypeChecker, a: Check, b: Check, c: Check, lo: nat, mid: nat, hi: nat)
    requires Readable(tc) && lo <= mid <= hi <= |tc.nodes|
    requires Judged(tc, Then(Then(a, b), c), lo, hi)
    ensures Judged(tc, Then(a, Then(b, c)), lo, hi)
  {
    assert Then(Then(a, b), c) == Then(a, Then(b, c));
  }

  /** Checking one more argument after a list. */
  lemma {:induction false} CheckAllSnoc(tc: TypeChecker, cs: seq<AstIdx>, x: AstIdx, bound: nat)
    requires Readable(tc) && x < bound && x < |tc.nodes|
    requires forall i :: 0 <= i < |cs| ==> cs[i] < bound && cs[i] < |tc.nodes|
    ensures CheckAll(tc, cs + [x], bound) == Then(CheckAll(tc, cs, bound), CheckExpression(tc, x))
    decreases |cs|
  {
    if |cs| > 0 {
      assert (cs + [x])[1..] == cs[1..] + [x];
      CheckAllSnoc(tc, cs[1..], x, bound);
    } else {
      assert (cs + [x])[1..] == [];
    }
  }

  /** `check_program` accepts exactly when every definition it visits
      checks, and a failure is the failure of one of them. */
  lemma {:induction false} CheckProgramAll(tc: TypeChecker, defs: map<NameIdx, AstIdx>, order: seq<NameIdx>)
    requires Readable(tc)
    requires forall i :: 0 <= i < |order| ==> order[i] in defs && defs[order[i]] < |tc.nodes|
    ensures var r := CheckProgram(tc, defs, order);
      (r.Pass? <==> forall i :: 0 <= i < |order| ==> CheckFunctionDef(tc, defs[order[i]]).Pass?) &&
      (r.Fail? ==> exists i :: 0 <= i < |order| && CheckFunctionDef(tc, defs[order[i]]) == r)
    decreases |order|
  {
    if |order| > 0 {
      CheckProgramAll(tc, defs, order[1..]);
      var r := CheckProgram(tc, defs, order);
      if CheckFunctionDef(tc, defs[order[0]]).Pass? {
        forall i | 0 < i < |order| ensures order[i] == order[1..][i - 1] { }
        if r.Fail? {
          var i :| 0 <= i < |order| - 1 && CheckFunctionDef(tc, defs[order[1..][i]]) == r;
          assert order[i + 1] == order[1..][i];
        }
      }
    }
  }

  /** Whatever order the map is visited in, `check_program` accepts
      exactly when every definition checks, and its error is the error of
      one of them. */
  lemma CheckProgramKeys(tc: TypeChecker, defs: map<NameIdx, AstIdx>, order: seq<NameIdx>)
    requires Readable(tc)
    requires forall n :: n in defs ==> defs[n] < |tc.nodes|
    requires forall n :: n in defs <==> n in order
    ensures var r := CheckProgram(tc, defs, order);
      (r.Pass? <==> forall n :: n in defs ==> CheckFunctionDef(tc, defs[n]).Pass?) &&
      (r.Fail? ==> exists n :: n in defs && CheckFunctionDef(tc, defs[n]) == r)
  {
    CheckProgramAll(tc, defs, order);
    var r := CheckProgram(tc, defs, order);
    if r.Pass? {
      forall n | n in defs ensures CheckFunctionDef(tc, defs[n]).Pass? {
        var i :| 0 <= i < |order| && order[i] == n;
      }
    } else {
      var i :| 0 <= i < |order| && CheckFunctionDef(tc, defs[order[i]]) == r;
      assert order[i] in defs;
    }
  }

  /** A definition gets the verdict its subtree deserves. */
  lemma DefJudged(tc: TypeChecker, d: AstIdx)
    requires Readable(tc) && PostOrder(tc.nodes) && d < |tc.nodes| && tc.nodes[d].FunctionDef?
    ensures Judged(tc, CheckFunctionDef(tc, d), Low(tc.nodes, d), d + 1)
  {
    CheckSpan(tc, d);
    assert CheckFunctionDef(tc, d) == CheckExpression(tc, d);
  }

  /** Over a post-order arena whose definition slots all hold definitions,
      and whatever order the map is visited in, `check_program` accepts
      exactly when no node of any definition has a fault, and an error it
      reports is the fault of a node of some definition. */
  lemma CheckProgramClean(tc: TypeChecker, defs: map<NameIdx, AstIdx>, order: seq<NameIdx>)
    requires Readable(tc) && PostOrder(tc.nodes)
    requires forall n :: n in defs ==> defs[n] < |tc.nodes| && tc.nodes[defs[n]].FunctionDef?
    requires forall n :: n in defs <==> n in order
    ensures var r := CheckProgram(tc, defs, order);
      (r.Pass? <==> forall n :: n in defs ==> Clean(tc, Low(tc.nodes, defs[n]), defs[n] + 1)) &&
      (r.Fail? ==> exists n :: n in defs && Blamed(tc, Low(tc.nodes, defs[n]), defs[n] + 1, r.error))
  {
    CheckProgramKeys(tc, defs, order);
    forall n | n in defs
      ensures Judged(tc, CheckFunctionDef(tc, defs[n]), Low(tc.nodes, defs[n]), defs[n] + 1)
    {
      DefJudged(tc, defs[n]);
    }
    var r := CheckProgram(tc, defs, order);
    if r.Fail? {
      var n :| n in defs && CheckFunctionDef(tc, defs[n]) == r;
      assert Blamed(tc, Low(tc.nodes, defs[n]), defs[n] + 1, r.error);
    }
  }

  /** A definition slot that does not hold a definition is an internal
      error, whatever the node. */
  lemma NotADefinition(tc: TypeChecker, defIdx: AstIdx)
    requires Readable(tc) && defIdx < |tc.nodes| && !tc.nodes[defIdx].FunctionDef?
    ensures CheckFunctionDef(tc, defIdx).Fail? && CheckFunctionDef(tc, defIdx).error.InternalError?
  {
  }
}
