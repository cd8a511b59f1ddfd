/** What passing the arity checker buys at run time: a checked program
    compiles completely, its code keeps the stack discipline, and a
    checked expression that runs to completion leaves exactly its result. */
module Soundness {
  import opened Syntax
  import opened Arena
  import opened Checker
  import opened Function
  import opened Executor

  /** A span without faults lowers, with static calls only, against any
      slot map that covers the checker's names. */
  lemma CleanLowers(tc: TypeChecker, slots: map<NameIdx, FunIdx>, lo: nat, hi: nat)
    requires Readable(tc) && hi <= |tc.nodes| && Clean(tc, lo, hi)
    requires forall n :: n in tc.paramCounts ==> n in slots
    ensures Compilable(tc.nodes, slots, lo, hi) && StaticCalls(tc.nodes, lo, hi)
  {
    forall j | lo <= j < hi
      ensures !Uncompilable(tc.nodes, slots, j)
      ensures tc.nodes[j].Call? ==>
        && tc.nodes[j].funcIdx < |tc.nodes|
        && ((tc.nodes[tc.nodes[j].funcIdx].PrimitiveFunc? && tc.nodes[j].childCount == 2) ||
            tc.nodes[tc.nodes[j].funcIdx].UserFunc?)
    {
      assert Fault(tc, j).None?;
      BelowParent(tc.nodes, j);
    }
  }

  /** An expression the checker passes lowers to disciplined code. */
  lemma CheckedCompiles(tc: TypeChecker, slots: map<NameIdx, FunIdx>, idx: AstIdx)
    requires Readable(tc) && PostOrder(tc.nodes) && idx < |tc.nodes|
    requires forall n :: n in tc.paramCounts ==> n in slots
    requires CheckExpression(tc, idx).Pass?
    ensures CompileExpr(tc.nodes, slots, idx).Some?
    ensures Disciplined(CompileExpr(tc.nodes, slots, idx).value.inner.code)
  {
    CheckSpan(tc, idx);
    CleanLowers(tc, slots, Low(tc.nodes, idx), idx + 1);
    CompileSpan(tc.nodes, slots, idx);
    assert CodeOf(CompileExpr(tc.nodes, slots, idx)).value[0] == CompileExpr(tc.nodes, slots, idx).value.inner.code;
  }

  /** A definition whose span is clean compiles to a slot that runs
      disciplined code. */
  lemma CleanDefinitionRuns(tc: TypeChecker, slots: map<NameIdx, FunIdx>, a: AstIdx)
    requires Readable(tc) && PostOrder(tc.nodes) && a < |tc.nodes| && tc.nodes[a].FunctionDef?
    requires forall n :: n in tc.paramCounts ==> n in slots
    requires Clean(tc, Low(tc.nodes, a), a + 1)
    ensures Compiled(tc.nodes, slots, a).inner.Runs?
    ensures Disciplined(Compiled(tc.nodes, slots, a).inner.code)
  {
    var nodes := tc.nodes;
    var b := nodes[a].bodyIdx;
    assert Linked(nodes, a);
    LenFormula(nodes, a);
    assert Low(nodes, b) == Low(nodes, a);
    assert Clean(tc, Low(nodes, b), b + 1);
    CleanLowers(tc, slots, Low(nodes, b), b + 1);
    CompileSpan(nodes, slots, b);
    assert CodeOf(CompileExpr(nodes, slots, b)).value[0] == CompileExpr(nodes, slots, b).value.inner.code;
  }

  /** Every definition of a program the checker passes compiles to a slot
      that runs disciplined code: the placeholder never survives. */
  lemma CheckedProgramCompiles(tc: TypeChecker, defs: map<NameIdx, AstIdx>, order: seq<NameIdx>, slots: map<NameIdx, FunIdx>)
    requires Readable(tc) && PostOrder(tc.nodes)
    requires forall n :: n in defs ==> defs[n] < |tc.nodes| && tc.nodes[defs[n]].FunctionDef?
    requires forall n :: n in defs <==> n in order
    requires forall n :: n in tc.paramCounts ==> n in slots
    requires CheckProgram(tc, defs, order).Pass?
    ensures forall n :: n in defs ==>
      Compiled(tc.nodes, slots, defs[n]).inner.Runs? && Disciplined(Compiled(tc.nodes, slots, defs[n]).inner.code)
  {
    CheckProgramClean(tc, defs, order);
    forall n | n in defs
      ensures Compiled(tc.nodes, slots, defs[n]).inner.Runs? && Disciplined(Compiled(tc.nodes, slots, defs[n]).inner.code)
    {
      CleanDefinitionRuns(tc, slots, defs[n]);
    }
  }

  /** The table `compile` builds in a fresh `CompiledFunctions` for a
      checked program runs disciplined code in every slot. */
  lemma CheckedTable(tc: TypeChecker, defs: map<NameIdx, AstIdx>, order: seq<NameIdx>,
                     slots: map<NameIdx, FunIdx>, table: seq<CompiledFunction>)
    requires Readable(tc) && PostOrder(tc.nodes)
    requires forall n :: n in defs ==> defs[n] < |tc.nodes| && tc.nodes[defs[n]].FunctionDef?
    requires forall n :: n in defs <==> n in order
    requires forall n :: n in tc.paramCounts ==> n in slots
    requires CheckProgram(tc, defs, order).Pass?
    requires SlotsFrom(tc.nodes, defs, order, Some(slots), table, 0)
    ensures AllRun(table) && TableDisciplined(table)
  {
    CheckedProgramCompiles(tc, defs, order, slots);
    forall k | 0 <= k < |table|
      ensures table[k].inner.Runs? && Disciplined(table[k].inner.code)
    {
      assert table[0 + k] == Compiled(tc.nodes, slots, defs[order[k]]);
    }
  }

  /** The end-to-end property. Compile a program the checker passes into a
      fresh table, and execute an expression the checker passes: the
      expression compiles, a run that fails never fails for want of a
      function body, and a run that finishes leaves exactly one value on
      the stack, which is the result. */
  lemma CheckedRun(nodes: seq<Ast>, strings: seq<string>, defs: map<NameIdx, AstIdx>, order: seq<NameIdx>,
                   slots: map<NameIdx, FunIdx>, table: seq<CompiledFunction>, exprIdx: AstIdx, fuel: nat)
    requires PostOrder(nodes) && NamesInterned(nodes, |strings|) && exprIdx < |nodes|
    requires forall n :: n in defs ==> defs[n] < |nodes| && nodes[defs[n]].FunctionDef?
    requires forall n :: n in defs <==> n in order
    requires var tc := NewTypeChecker(nodes, strings, defs);
      CheckProgram(tc, defs, order).Pass? && CheckExpression(tc, exprIdx).Pass?
    requires (forall n :: n in defs ==> n in slots) && SlotsFrom(nodes, defs, order, Some(slots), table, 0)
    ensures var o := Executed(nodes, slots, table, exprIdx, fuel);
      && o != NotCompiled
      && (o.Crashed? ==> o.trace.message != NotImplemented)
      && (o.Finished? ==>
            && o.top.Some?
            && Exec(table, CompileExpr(nodes, slots, exprIdx).value.inner.code, [], 0, fuel).value == [o.top.value])
  {
    var tc := NewTypeChecker(nodes, strings, defs);
    CheckedTable(tc, defs, order, slots, table);
    CheckedCompiles(tc, slots, exprIdx);
    ExecutedHasResult(nodes, slots, table, exprIdx, fuel);
    var code := CompileExpr(nodes, slots, exprIdx).value.inner.code;
    ExecImplemented(table, code, [], 0, fuel);
    var r := Exec(table, code, [], 0, fuel);
    if r.Ok? {
      assert |r.value| == 1;
      assert r.value == [r.value[0]];
    }
  }
}
