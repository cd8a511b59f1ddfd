/** The closure compiler and its stack machine (src/compiler/executor.rs).

    `compile_expr` lowers an arena node to `Code`; running code pushes onto
    and pops from one value stack. A function's arguments are the stack
    entries from its `param_base` up: a call records the stack height
    before its arguments, and that height is the callee's `param_base`.
    Every `unwrap` and `panic!` of the source is a failure outcome here,
    and recursion through the function table is bounded by `fuel`. */
module Executor {
  import opened Syntax
  import opened Arena
  import opened Function

  // Messages of the failure outcomes; the first three are Rust's own.
  const EmptyStack := "called `Option::unwrap()` on a `None` value"
  const OutOfBounds := "index out of bounds"
  const NotAFunction := "This shouldnt happen"
  const NotIntegers := "primitive applied to a non-integer"
  const OutOfFuel := "out of fuel"

  /** `compile_expr`, with `slots` the table indices of the defined names.
      A call lowers its arguments, in order, then its callee; `None` from
      any of them is `None` for the call. A lambda has no lowering. */
  function CompileExpr(nodes: seq<Ast>, slots: map<NameIdx, FunIdx>, idx: AstIdx): (r: Option<CompiledFunction>)
    requires Walkable(nodes) && idx < |nodes|
    ensures r.Some? ==> r.value.inner.Runs?
    ensures r.Some? ==> r.value.paramCount == (if nodes[idx].FunctionDef? then nodes[idx].paramCount else 0)
    decreases idx + 1, 0
  {
    BelowParent(nodes, idx);
    match nodes[idx]
    case Integer(i) => Some(New(PushInt(i), 0))
    case ParamRef(_, _, offset) => Some(New(PushParam(offset), 0))
    case PrimitiveFunc(p) => Some(New(PushFun(Prim(p)), 0))
    case UserFunc(n) => if n in slots then Some(New(PushFun(Slot(slots[n])), 0)) else None
    case Call(f, _) =>
      var args := CompileSeq(nodes, slots, Children(nodes, idx).value, idx);
      var callee := CompileExpr(nodes, slots, f);
      if args.None? || callee.None? then None
      else Some(New(Apply(args.value, callee.value.inner.code), 0))
    case FunctionDef(_, paramCount, b) =>
      var body := CompileExpr(nodes, slots, b);
      if body.None? then None else Some(New(body.value.inner.code, paramCount))
    case Lambda(_, _) => None
  }

  /** The `for &child_idx in &children` loop of `compile_expr`. */
  function CompileSeq(nodes: seq<Ast>, slots: map<NameIdx, FunIdx>, cs: seq<AstIdx>, bound: nat): (r: Option<seq<Code>>)
    requires Walkable(nodes)
    requires forall i :: 0 <= i < |cs| ==> cs[i] < bound && cs[i] < |nodes|
    ensures r.Some? ==> |r.value| == |cs|
    decreases bound, |cs|
  {
    if |cs| == 0 then Some([])
    else
      var pre := CompileSeq(nodes, slots, cs[..|cs| - 1], bound);
      var last := CompileExpr(nodes, slots, cs[|cs| - 1]);
      if pre.None? || last.None? then None
      else Some(pre.value + [last.value.inner.code])
  }

  /** What `compile_expr` cannot lower: a lambda, or a name with no slot. */
  ghost predicate Uncompilable(nodes: seq<Ast>, slots: map<NameIdx, FunIdx>, j: nat)
    requires j < |nodes|
  {
    nodes[j].Lambda? || (nodes[j].UserFunc? && nodes[j].name !in slots)
  }

  /** No node of `[lo, hi)` is uncompilable. */
  ghost predicate Compilable(nodes: seq<Ast>, slots: map<NameIdx, FunIdx>, lo: nat, hi: nat)
    requires hi <= |nodes|
  {
    forall j :: lo <= j < hi ==> !Uncompilable(nodes, slots, j)
  }

  /** Every call in `[lo, hi)` names its callee directly: a primitive with
      two arguments or a user function. These are the calls the arity
      checker lets through. */
  ghost predicate StaticCalls(nodes: seq<Ast>, lo: nat, hi: nat)
    requires hi <= |nodes|
  {
    forall j :: lo <= j < hi && nodes[j].Call? ==>
      nodes[j].funcIdx < |nodes| &&
      ((nodes[nodes[j].funcIdx].PrimitiveFunc? && nodes[j].childCount == 2) || nodes[nodes[j].funcIdx].UserFunc?)
  }

  /** Code whose every call invokes a function value it pushes itself, and
      gives a primitive exactly two arguments. */
  predicate Disciplined(c: Code)
    decreases c
  {
    match c
    case Apply(args, callee) =>
      callee.PushFun? && (callee.target.Prim? ==> |args| == 2) &&
      forall i :: 0 <= i < |args| ==> Disciplined(args[i])
    case _ => true
  }

  /** `r` is what lowering the span `[lo, hi)` deserves: code exactly when
      nothing in it is uncompilable, and disciplined code when its calls
      are static. */
  ghost predicate Lowered(nodes: seq<Ast>, slots: map<NameIdx, FunIdx>, r: Option<seq<Code>>, lo: nat, hi: nat)
    requires hi <= |nodes|
  {
    (r.Some? <==> Compilable(nodes, slots, lo, hi)) &&
    (r.Some? && StaticCalls(nodes, lo, hi) ==> forall i :: 0 <= i < |r.value| ==> Disciplined(r.value[i]))
  }

  /** The code of a lowering, as a one-element list. */
  function CodeOf(r: Option<CompiledFunction>): (c: Option<seq<Code>>)
    requires r.Some? ==> r.value.inner.Runs?
    ensures c.Some? <==> r.Some?
    ensures c.Some? ==> c.value == [r.value.inner.code]
  {
    if r.None? then None else Some([r.value.inner.code])
  }

  /** Lowering a subtree of a post-order arena succeeds exactly when none
      of its nodes is a lambda or an undefined name, and yields disciplined
      code when its calls are the ones the checker accepts. */
  lemma {:induction false} CompileSpan(nodes: seq<Ast>, slots: map<NameIdx, FunIdx>, idx: AstIdx)
    requires PostOrder(nodes) && idx < |nodes|
    ensures Lowered(nodes, slots, CodeOf(CompileExpr(nodes, slots, idx)), Low(nodes, idx), idx + 1)
    decreases idx, 1
  {
    assert Linked(nodes, idx);
    LenFormula(nodes, idx);
    match nodes[idx]
    case Call(f, k) =>
      CompileSpanCall(nodes, slots, idx);
    case FunctionDef(_, _, b) =>
      CompileSpan(nodes, slots, b);
      assert Low(nodes, b) == Low(nodes, idx);
      assert !Uncompilable(nodes, slots, idx);
    case Lambda(_, _) =>
      assert Uncompilable(nodes, slots, idx);
    case _ =>
      assert Low(nodes, idx) == idx;
      assert Compilable(nodes, slots, idx, idx + 1) <==> !Uncompilable(nodes, slots, idx);
  }

  /** `CompileSpan` for a call. */
  lemma {:induction false} CompileSpanCall(nodes: seq<Ast>, slots: map<NameIdx, FunIdx>, idx: AstIdx)
    requires PostOrder(nodes) && idx < |nodes| && nodes[idx].Call?
    ensures Lowered(nodes, slots, CodeOf(CompileExpr(nodes, slots, idx)), Low(nodes, idx), idx + 1)
    decreases idx, 0
  {
    var f := nodes[idx].funcIdx;
    assert Linked(nodes, idx);
    CallTiles(nodes, idx);
    var mid := idx - SubtreeLen(nodes, f).value;
    var lo := Low(nodes, idx);
    var kids := Children(nodes, idx).value;
    var args := CompileSeq(nodes, slots, kids, idx);
    var callee := CompileExpr(nodes, slots, f);
    assert Lowered(nodes, slots, CodeOf(callee), mid, idx) by {
      assert Low(nodes, f) == mid;
      CompileSpan(nodes, slots, f);
    }
    assert Lowered(nodes, slots, args, lo, mid) by {
      CompileTiles(nodes, slots, kids, lo, mid, idx);
    }
    SpanSplit(nodes, slots, lo, mid, idx + 1);
    CallLowered(nodes, slots, idx, args, callee, lo, mid);
  }

  /** A lowering's verdict on `[lo, hi)` splits at any `mid` in between. */
  lemma SpanSplit(nodes: seq<Ast>, slots: map<NameIdx, FunIdx>, lo: nat, mid: nat, hi: nat)
    requires lo <= mid <= hi <= |nodes|
    ensures Compilable(nodes, slots, lo, hi) <==> Compilable(nodes, slots, lo, mid) && Compilable(nodes, slots, mid, hi)
    ensures StaticCalls(nodes, lo, hi) <==> StaticCalls(nodes, lo, mid) && StaticCalls(nodes, mid, hi)
  {
  }

  /** The call node joins the verdicts on its arguments and its callee. */
  lemma CallLowered(nodes: seq<Ast>, slots: map<NameIdx, FunIdx>, idx: AstIdx,
                    args: Option<seq<Code>>, callee: Option<CompiledFunction>, lo: nat, mid: nat)
    requires Walkable(nodes) && idx < |nodes| && nodes[idx].Call? && lo <= mid <= nodes[idx].funcIdx < idx
    requires SubtreeLen(nodes, nodes[idx].funcIdx).Some? && mid == Low(nodes, nodes[idx].funcIdx)
    requires Children(nodes, idx).Some? && (forall i :: 0 <= i < |Children(nodes, idx).value| ==>
      Children(nodes, idx).value[i] < idx && Children(nodes, idx).value[i] < |nodes|)
    requires args == CompileSeq(nodes, slots, Children(nodes, idx).value, idx)
    requires callee == CompileExpr(nodes, slots, nodes[idx].funcIdx)
    requires Lowered(nodes, slots, args, lo, mid)
    requires Lowered(nodes, slots, CodeOf(callee), mid, idx)
    requires Compilable(nodes, slots, lo, idx + 1) <==> Compilable(nodes, slots, lo, mid) && Compilable(nodes, slots, mid, idx + 1)
    requires StaticCalls(nodes, lo, idx + 1) <==> StaticCalls(nodes, lo, mid) && StaticCalls(nodes, mid, idx + 1)
    ensures Lowered(nodes, slots, CodeOf(CompileExpr(nodes, slots, idx)), lo, idx + 1)
  {
    var r := CompileExpr(nodes, slots, idx);
    assert r == if args.None? || callee.None? then None else Some(New(Apply(args.value, callee.value.inner.code), 0));
    assert !Uncompilable(nodes, slots, idx);
    assert Compilable(nodes, slots, mid, idx + 1) <==> Compilable(nodes, slots, mid, idx);
    if r.Some? && StaticCalls(nodes, lo, idx + 1) {
      assert StaticCalls(nodes, mid, idx + 1);
      var f := nodes[idx].funcIdx;
      assert nodes[f].PrimitiveFunc? || nodes[f].UserFunc?;
      assert callee.value.inner.code.PushFun?;
      assert nodes[f].PrimitiveFunc? ==> |args.value| == 2;
    }
  }

  /** Lowering arguments that tile `[lo, hi)` gives what that span deserves. */
  lemma {:induction false} CompileTiles(nodes: seq<Ast>, slots: map<NameIdx, FunIdx>, cs: seq<AstIdx>, lo: nat, hi: nat, bound: nat)
    requires PostOrder(nodes) && hi <= bound && hi <= |nodes|
    requires Tiles(nodes, cs, lo, hi)
    requires forall i :: 0 <= i < |cs| ==> cs[i] < hi
    ensures Lowered(nodes, slots, CompileSeq(nodes, slots, cs, bound), lo, hi)
    decreases hi, 0, |cs|
  {
    if |cs| > 0 {
      var x := hi - 1;
      var pre := cs[..|cs| - 1];
      var mid := hi - SubtreeLen(nodes, x).value;
      TilesBelow(nodes, pre, lo, mid);
      CompileTiles(nodes, slots, pre, lo, mid, bound);
      CompileSpan(nodes, slots, x);
      assert Low(nodes, x) == mid;
      var r := CompileSeq(nodes, slots, cs, bound);
      assert Compilable(nodes, slots, lo, hi) <==>
        Compilable(nodes, slots, lo, mid) && Compilable(nodes, slots, mid, hi);
      if r.Some? && StaticCalls(nodes, lo, hi) {
        assert StaticCalls(nodes, lo, mid) && StaticCalls(nodes, mid, hi);
        var p := CompileSeq(nodes, slots, pre, bound).value;
        assert r.value == p + [CompileExpr(nodes, slots, x).value.inner.code];
        forall i | 0 <= i < |r.value| ensures Disciplined(r.value[i]) {
          if i < |p| { assert r.value[i] == p[i]; }
        }
      }
    } else {
      TilesBelow(nodes, cs, lo, hi);
    }
  }

  // ---------------------------------------------------------------------
  // The stack machine.

  /** `a + b` or `a * b`, on mathematical integers. */
  function Eval(op: Primitive, a: int, b: int): int
  {
    match op
    case Add => a + b
    case Multiply => a * b
  }

  /** The closure pushed for a primitive, when called: pop `b`, pop `a`,
      push the result. Operands that are not both integers are a failure
      here (see `PrimApplyAsWritten`). */
  function PrimApply(op: Primitive, mem: seq<Value>): (r: Result<seq<Value>>)
    ensures r.Ok? <==> |mem| >= 2 && mem[|mem| - 2].Int? && mem[|mem| - 1].Int?
    ensures r.Ok? ==> r.value == mem[..|mem| - 2] + [Int(Eval(op, mem[|mem| - 2].i, mem[|mem| - 1].i))]
  {
    if |mem| == 0 then Err(NewTrace(EmptyStack))
    else
      var b := mem[|mem| - 1];
      var m := mem[..|mem| - 1];
      if |m| == 0 then Err(NewTrace(EmptyStack))
      else
        var a := m[|m| - 1];
        if a.Int? && b.Int? then Ok(m[..|m| - 1] + [Int(Eval(op, a.i, b.i))])
        else Err(NewTrace(NotIntegers))
  }

  /** The end of the call protocol: pop the result, pop down to `base`,
      push the result back. */
  function Finish(mem: seq<Value>, base: nat): (r: Result<seq<Value>>)
    ensures r.Ok? <==> |mem| > 0
    ensures r.Ok? ==> |mem| - 1 >= base ==> r.value == mem[..base] + [mem[|mem| - 1]]
    ensures r.Ok? ==> |mem| - 1 < base ==> r.value == mem
  {
    if |mem| == 0 then Err(NewTrace(EmptyStack))
    else
      var result := mem[|mem| - 1];
      var m := mem[..|mem| - 1];
      Ok((if |m| > base then m[..base] else m) + [result])
  }

  /** Running `code` on stack `mem` with the enclosing function's
      arguments from `base` up, against the function table `table`. */
  function Exec(table: seq<CompiledFunction>, code: Code, mem: seq<Value>, base: nat, fuel: nat): Result<seq<Value>>
    decreases fuel, code
  {
    match code
    case PushInt(i) => Ok(mem + [Int(i)])
    case PushParam(offset) =>
      if base + offset < |mem| then Ok(mem + [mem[base + offset]]) else Err(NewTrace(OutOfBounds))
    case PushFun(f) => Ok(mem + [Fun(f)])
    case Apply(args, callee) =>
      var a := ExecSeq(table, args, mem, base, fuel);
      if a.Err? then a
      else
        var c := Exec(table, callee, a.value, |mem|, fuel);
        if c.Err? then c
        else if |c.value| == 0 then Err(NewTrace(EmptyStack))
        else
          var top := c.value[|c.value| - 1];
          var rest := c.value[..|c.value| - 1];
          if !top.Fun? then Err(NewTrace(NotAFunction))
          else
            var done :=
              match top.f
              case Prim(op) => PrimApply(op, rest)
              case Slot(k) =>
                if k >= |table| then Err(NewTrace(OutOfBounds))
                else if fuel == 0 then Err(NewTrace(OutOfFuel))
                else CallFn(table, table[k], rest, |mem|, fuel - 1);
            if done.Err? then done else Finish(done.value, |mem|)
  }

  /** The arguments of a call, left to right, each with the caller's base. */
  function ExecSeq(table: seq<CompiledFunction>, args: seq<Code>, mem: seq<Value>, base: nat, fuel: nat): Result<seq<Value>>
    decreases fuel, args
  {
    if |args| == 0 then Ok(mem)
    else
      var a := ExecSeq(table, args[..|args| - 1], mem, base, fuel);
      if a.Err? then a else Exec(table, args[|args| - 1], a.value, base, fuel)
  }

  /** `CompiledFunction::call`: the closure's own result on the same stack. */
  function CallFn(table: seq<CompiledFunction>, f: CompiledFunction, mem: seq<Value>, base: nat, fuel: nat): Result<seq<Value>>
    decreases fuel, f
  {
    match f.inner
    case Placeholder => Err(NewTrace(NotImplemented))
    case Runs(code) => Exec(table, code, mem, base, fuel)
  }

  /** Every slot body of the table is disciplined. */
  ghost predicate TableDisciplined(table: seq<CompiledFunction>) {
    forall k :: 0 <= k < |table| && table[k].inner.Runs? ==> Disciplined(table[k].inner.code)
  }

  /** The stack discipline: disciplined code that runs to completion leaves
      everything below it untouched and the stack exactly one taller. */
  lemma {:induction false} ExecPushesOne(table: seq<CompiledFunction>, code: Code, mem: seq<Value>, base: nat, fuel: nat)
    requires TableDisciplined(table) && Disciplined(code)
    requires Exec(table, code, mem, base, fuel).Ok?
    ensures var m := Exec(table, code, mem, base, fuel).value;
      |m| == |mem| + 1 && m[..|mem|] == mem
    decreases fuel, code
  {
    match code
    case Apply(args, callee) =>
      ApplyPushesOne(table, code, mem, base, fuel);
    case _ =>
  }

  /** `ExecPushesOne` for a call. */
  lemma {:induction false} ApplyPushesOne(table: seq<CompiledFunction>, code: Code, mem: seq<Value>, base: nat, fuel: nat)
    requires TableDisciplined(table) && Disciplined(code) && code.Apply?
    requires Exec(table, code, mem, base, fuel).Ok?
    ensures var m := Exec(table, code, mem, base, fuel).value;
      |m| == |mem| + 1 && m[..|mem|] == mem
    decreases fuel, code, 0
  {
    var args, callee := code.args, code.callee;
    var a := ExecSeq(table, args, mem, base, fuel);
    ExecSeqPushes(table, args, mem, base, fuel);
    var c := Exec(table, callee, a.value, |mem|, fuel);
    assert c.value == a.value + [Fun(callee.target)];
    var rest := c.value[..|c.value| - 1];
    assert rest == a.value;
    match callee.target
    case Prim(op) =>
      var done := PrimApply(op, rest);
      assert done.value == a.value[..|mem|] + [done.value[|mem|]];
    case Slot(k) =>
      var done := CallFn(table, table[k], rest, |mem|, fuel - 1);
      CallFnPushes(table, table[k], rest, |mem|, fuel - 1);
      assert done.value[..|mem|] == rest[..|mem|];
  }

  /** Running the arguments pushes one value each above the untouched stack. */
  lemma {:induction false} ExecSeqPushes(table: seq<CompiledFunction>, args: seq<Code>, mem: seq<Value>, base: nat, fuel: nat)
    requires TableDisciplined(table) && forall i :: 0 <= i < |args| ==> Disciplined(args[i])
    requires ExecSeq(table, args, mem, base, fuel).Ok?
    ensures var m := ExecSeq(table, args, mem, base, fuel).value;
      |m| == |mem| + |args| && m[..|mem|] == mem
    decreases fuel, args
  {
    if |args| > 0 {
      var pre := args[..|args| - 1];
      ExecSeqPushes(table, pre, mem, base, fuel);
      var a := ExecSeq(table, pre, mem, base, fuel).value;
      ExecPushesOne(table, args[|args| - 1], a, base, fuel);
      var m := ExecSeq(table, args, mem, base, fuel).value;
      assert m[..|mem|] == m[..|a|][..|mem|];
    }
  }

  /** Calling a table function that runs to completion pushes one value. */
  lemma {:induction false} CallFnPushes(table: seq<CompiledFunction>, f: CompiledFunction, mem: seq<Value>, base: nat, fuel: nat)
    requires TableDisciplined(table) && f in table
    requires CallFn(table, f, mem, base, fuel).Ok?
    ensures var m := CallFn(table, f, mem, base, fuel).value;
      |m| == |mem| + 1 && m[..|mem|] == mem
    decreases fuel, f
  {
    if f.inner.Runs? {
      ExecPushesOne(table, f.inner.code, mem, base, fuel);
    }
  }

  /** A program that adds: `add(1, 2)` leaves exactly `3` on an empty stack. */
  lemma RunsAdd()
    ensures Exec([], Apply([PushInt(1), PushInt(2)], PushFun(Prim(Add))), [], 0, 0) == Ok([Int(3)])
  {
  }

  /** A call of table slot 0, `double(x) = add(x, x)`, reads its argument
      from its own parameter base: `double(21)` leaves `42`. */
  lemma RunsDouble()
    ensures var double := New(Apply([PushParam(0), PushParam(0)], PushFun(Prim(Add))), 1);
      Exec([double], Apply([PushInt(21)], PushFun(Slot(0))), [], 0, 1) == Ok([Int(42)])
  {
    var double := New(Apply([PushParam(0), PushParam(0)], PushFun(Prim(Add))), 1);
    var t := [double];
    assert [PushInt(21)][..0] == [];
    assert [] + [Int(21)] == [Int(21)];
    assert ExecSeq(t, [PushInt(21)], [], 0, 1) == Ok([Int(21)]);
    DoubleBody(t);
    assert [Int(21)] + [Fun(Slot(0))] == [Int(21), Fun(Slot(0))];
    assert [Int(21), Fun(Slot(0))][..1] == [Int(21)];
    assert [Int(21), Int(42)][..1][..0] == [];
    assert [] + [Int(42)] == [Int(42)];
  }

  /** The body of `double`, run on the memory `[21]` with its parameter
      base at 0, pushes `42` above the argument. */
  lemma DoubleBody(t: seq<CompiledFunction>)
    ensures Exec(t, Apply([PushParam(0), PushParam(0)], PushFun(Prim(Add))), [Int(21)], 0, 0) == Ok([Int(21), Int(42)])
  {
    DoubleArgs(t);
    assert [Int(21), Int(21), Int(21)] + [Fun(Prim(Add))] == [Int(21), Int(21), Int(21), Fun(Prim(Add))];
    assert [Int(21), Int(21), Int(21), Fun(Prim(Add))][..3] == [Int(21), Int(21), Int(21)];
    assert [Int(21), Int(21), Int(21)][..1] == [Int(21)];
    assert [Int(21)] + [Int(42)] == [Int(21), Int(42)];
  }

  /** Both parameter reads of `double` push the argument. */
  lemma DoubleArgs(t: seq<CompiledFunction>)
    ensures ExecSeq(t, [PushParam(0), PushParam(0)], [Int(21)], 0, 0) == Ok([Int(21), Int(21), Int(21)])
  {
    assert [PushParam(0), PushParam(0)][..1] == [PushParam(0)];
    assert [PushParam(0)][..0] == [];
    assert [Int(21)] + [Int(21)] == [Int(21), Int(21)];
    assert [Int(21), Int(21)] + [Int(21)] == [Int(21), Int(21), Int(21)];
    assert ExecSeq(t, [PushParam(0)], [Int(21)], 0, 0) == Ok([Int(21), Int(21)]);
  }

  /** Every slot of the table runs code: none holds the placeholder. */
  ghost predicate AllRun(table: seq<CompiledFunction>) {
    forall k :: 0 <= k < |table| ==> table[k].inner.Runs?
  }

  /** With no placeholder left in the table, no run fails with the
      placeholder's "not implemented" message. */
  lemma {:induction false} ExecImplemented(table: seq<CompiledFunction>, code: Code, mem: seq<Value>, base: nat, fuel: nat)
    requires AllRun(table)
    ensures Exec(table, code, mem, base, fuel).Err? ==> Exec(table, code, mem, base, fuel).trace.message != NotImplemented
    decreases fuel, code
  {
    if code.Apply? {
      var a := ExecSeq(table, code.args, mem, base, fuel);
      ExecSeqImplemented(table, code.args, mem, base, fuel);
      if a.Ok? {
        var c := Exec(table, code.callee, a.value, |mem|, fuel);
        ExecImplemented(table, code.callee, a.value, |mem|, fuel);
        if c.Ok? && |c.value| > 0 {
          var top := c.value[|c.value| - 1];
          if top.Fun? && top.f.Slot? && top.f.index < |table| && fuel > 0 {
            var k := top.f.index;
            CallFnImplemented(table, table[k], c.value[..|c.value| - 1], |mem|, fuel - 1);
          }
        }
      }
    }
  }

  /** `ExecImplemented` for an argument list. */
  lemma {:induction false} ExecSeqImplemented(table: seq<CompiledFunction>, args: seq<Code>, mem: seq<Value>, base: nat, fuel: nat)
    requires AllRun(table)
    ensures ExecSeq(table, args, mem, base, fuel).Err? ==> ExecSeq(table, args, mem, base, fuel).trace.message != NotImplemented
    decreases fuel, args
  {
    if |args| > 0 {
      var pre := args[..|args| - 1];
      ExecSeqImplemented(table, pre, mem, base, fuel);
      var a := ExecSeq(table, pre, mem, base, fuel);
      if a.Ok? {
        ExecImplemented(table, args[|args| - 1], a.value, base, fuel);
      }
    }
  }

  /** `ExecImplemented` for a call of a table function. */
  lemma {:induction false} CallFnImplemented(table: seq<CompiledFunction>, f: CompiledFunction, mem: seq<Value>, base: nat, fuel: nat)
    requires AllRun(table) && f in table
    ensures CallFn(table, f, mem, base, fuel).Err? ==> CallFn(table, f, mem, base, fuel).trace.message != NotImplemented
    decreases fuel, f
  {
    ExecImplemented(table, f.inner.code, mem, base, fuel);
  }

  // ---------------------------------------------------------------------
  // The primitive closure as the source writes it.

  /** The primitive's closure as written: when the operands are not both
      integers it pushes nothing. */
  function PrimApplyAsWritten(op: Primitive, mem: seq<Value>): (r: Result<seq<Value>>)
    ensures r.Ok? <==> |mem| >= 2
    ensures r.Ok? && !(mem[|mem| - 2].Int? && mem[|mem| - 1].Int?) ==> r.value == mem[..|mem| - 2]
  {
    if |mem| == 0 then Err(NewTrace(EmptyStack))
    else
      var b := mem[|mem| - 1];
      var m := mem[..|mem| - 1];
      if |m| == 0 then Err(NewTrace(EmptyStack))
      else
        var a := m[|m| - 1];
        if a.Int? && b.Int? then Ok(m[..|m| - 1] + [Int(Eval(op, a.i, b.i))])
        else Ok(m[..|m| - 1])
  }

  /** A call of a primitive on the arguments `a` and `b` above `mem`, with
      the primitive as written: invoke it, then finish the call. */
  function PrimCallAsWritten(op: Primitive, mem: seq<Value>, a: Value, b: Value): Result<seq<Value>>
  {
    var done := PrimApplyAsWritten(op, mem + [a, b]);
    if done.Err? then done else Finish(done.value, |mem|)
  }

  /** As written, a primitive call on a non-integer operand pushes no
      result: it takes the caller's topmost value as its own, so the stack
      is one value short, or it fails on an empty stack. */
  lemma {:induction false} PrimCallAsWrittenShort(op: Primitive, mem: seq<Value>, a: Value, b: Value)
    requires !(a.Int? && b.Int?)
    ensures PrimCallAsWritten(op, mem, a, b).Ok? <==> |mem| > 0
    ensures PrimCallAsWritten(op, mem, a, b).Ok? ==> PrimCallAsWritten(op, mem, a, b).value == mem
  {
    var m := mem + [a, b];
    assert m[|m| - 2] == a && m[|m| - 1] == b;
    assert m[..|m| - 2] == mem;
    if |mem| > 0 {
      assert mem[..|mem| - 1] + [mem[|mem| - 1]] == mem;
    }
  }

  /** `add(7, add(add, 1))`'s inner call, as written: it consumes the `7`
      and leaves no result of its own. Only the pool's builders make this
      arena (a primitive node as an argument); the parser never does. */
  lemma PrimCallAsWrittenExample()
    ensures PrimCallAsWritten(Add, [Int(7)], Fun(Prim(Add)), Int(1)) == Ok([Int(7)])
  {
    PrimCallAsWrittenShort(Add, [Int(7)], Fun(Prim(Add)), Int(1));
  }

  /** The same inner call with the primitive that fails on non-integers. */
  lemma PrimCallCorrected(table: seq<CompiledFunction>, fuel: nat)
    ensures Exec(table, Apply([PushFun(Prim(Add)), PushInt(1)], PushFun(Prim(Add))), [Int(7)], 0, fuel).Err?
  {
    assert [PushFun(Prim(Add)), PushInt(1)][..1] == [PushFun(Prim(Add))];
    assert [PushFun(Prim(Add))][..0] == [];
    assert [Int(7)] + [Fun(Prim(Add))] == [Int(7), Fun(Prim(Add))];
    assert [Int(7), Fun(Prim(Add))] + [Int(1)] == [Int(7), Fun(Prim(Add)), Int(1)];
    assert ExecSeq(table, [], [Int(7)], 0, fuel) == Ok([Int(7)]);
    assert ExecSeq(table, [PushFun(Prim(Add))], [Int(7)], 0, fuel) == Ok([Int(7), Fun(Prim(Add))]);
    assert ExecSeq(table, [PushFun(Prim(Add)), PushInt(1)], [Int(7)], 0, fuel) == Ok([Int(7), Fun(Prim(Add)), Int(1)]);
    assert [Int(7), Fun(Prim(Add)), Int(1)] + [Fun(Prim(Add))] == [Int(7), Fun(Prim(Add)), Int(1), Fun(Prim(Add))];
    assert [Int(7), Fun(Prim(Add)), Int(1), Fun(Prim(Add))][..3] == [Int(7), Fun(Prim(Add)), Int(1)];
  }

  // ---------------------------------------------------------------------
  // The compiled-function table.

  /** What the first pass of `compile` puts in a slot: the placeholder,
      with the definition's parameter count. */
  function Pending(nodes: seq<Ast>, a: AstIdx): (f: CompiledFunction)
    requires a < |nodes|
    ensures f.inner == Placeholder
    ensures f.paramCount == if nodes[a].FunctionDef? then nodes[a].paramCount else 0
  {
    CompiledFunction(Placeholder, if nodes[a].FunctionDef? then nodes[a].paramCount else 0)
  }

  /** A slot after both passes of `compile`: a definition whose body
      lowers runs that body; anything else keeps the placeholder. */
  function Compiled(nodes: seq<Ast>, slots: map<NameIdx, FunIdx>, a: AstIdx): (f: CompiledFunction)
    requires Walkable(nodes) && a < |nodes|
    ensures f.paramCount == Pending(nodes, a).paramCount
    ensures nodes[a].FunctionDef? ==> nodes[a].bodyIdx < a
    ensures f.inner.Runs? <==> nodes[a].FunctionDef? && CompileExpr(nodes, slots, nodes[a].bodyIdx).Some?
  {
    BelowParent(nodes, a);
    if nodes[a].FunctionDef? then
      var body := CompileExpr(nodes, slots, nodes[a].bodyIdx);
      if body.Some? then CompiledFunction(body.value.inner, nodes[a].paramCount) else Pending(nodes, a)
    else Pending(nodes, a)
  }

  /** The second pass's step for one definition, given what its body
      lowered to. */
  lemma CompiledStep(nodes: seq<Ast>, slots: map<NameIdx, FunIdx>, a: AstIdx, body: Option<CompiledFunction>)
    requires Walkable(nodes) && a < |nodes|
    requires nodes[a].FunctionDef? ==> nodes[a].bodyIdx < a && body == CompileExpr(nodes, slots, nodes[a].bodyIdx)
    ensures Compiled(nodes, slots, a) ==
      if nodes[a].FunctionDef? && body.Some? then CompiledFunction(body.value.inner, Pending(nodes, a).paramCount)
      else Pending(nodes, a)
  {
  }

  /** Filling slot `start + i` of the second pass keeps the slots
      filled so far and the placeholders still to fill. */
  lemma FillSlot(nodes: seq<Ast>, slots: map<NameIdx, FunIdx>, defs: map<NameIdx, AstIdx>, order: seq<NameIdx>,
                 table: seq<CompiledFunction>, start: nat, i: nat, slot: nat, next: CompiledFunction)
    requires Walkable(nodes) && forall j :: 0 <= j < |order| ==> order[j] in defs && defs[order[j]] < |nodes|
    requires |table| == start + |order| && i < |order| && slot == start + i
    requires forall j :: 0 <= j < i ==> table[start + j] == Compiled(nodes, slots, defs[order[j]])
    requires forall j :: i < j < |order| ==> table[start + j] == Pending(nodes, defs[order[j]])
    requires next == Compiled(nodes, slots, defs[order[i]])
    ensures forall j :: 0 <= j < i + 1 ==> table[slot := next][start + j] == Compiled(nodes, slots, defs[order[j]])
    ensures forall j :: i + 1 <= j < |order| ==> table[slot := next][start + j] == Pending(nodes, defs[order[j]])
  {
  }

  /** The slots the first pass hands out: `order[i]` gets `start + i`. */
  function Assigned(order: seq<NameIdx>, start: nat): (m: map<NameIdx, FunIdx>)
    ensures forall n :: n in m <==> n in order
    ensures forall n :: n in m ==> start <= m[n] < start + |order|
    decreases |order|
  {
    if |order| == 0 then map[]
    else Assigned(order[..|order| - 1], start)[order[|order| - 1] := start + |order| - 1]
  }

  /** All names of `order` differ. */
  ghost predicate Distinct(order: seq<NameIdx>) {
    forall i, j :: 0 <= i < j < |order| ==> order[i] != order[j]
  }

  /** With distinct names, `order[i]` is assigned exactly `start + i`. */
  lemma {:induction false} AssignedAt(order: seq<NameIdx>, start: nat, i: nat)
    requires Distinct(order) && i < |order|
    ensures Assigned(order, start)[order[i]] == start + i
    decreases |order|
  {
    if i < |order| - 1 {
      var pre := order[..|order| - 1];
      assert pre[i] == order[i];
      AssignedAt(pre, start, i);
    }
  }

  /** With distinct names, every `order[j]` is assigned `start + j`. */
  lemma AssignedDense(order: seq<NameIdx>, start: nat)
    requires Distinct(order)
    ensures forall j :: 0 <= j < |order| ==> order[j] in Assigned(order, start) && Assigned(order, start)[order[j]] == start + j
  {
    forall j | 0 <= j < |order| ensures order[j] in Assigned(order, start) && Assigned(order, start)[order[j]] == start + j {
      AssignedAt(order, start, j);
    }
  }

  /** The last name assigned is one past the earlier ones. */
  lemma AssignedSnoc(order: seq<NameIdx>, start: nat, i: nat)
    requires i < |order|
    ensures Assigned(order[..i + 1], start) == Assigned(order[..i], start)[order[i] := start + i]
  {
    assert order[..i + 1][..i] == order[..i];
  }

  /** What `compile_expr` cannot lower makes the whole argument list fail. */
  lemma {:induction false} CompileSeqNone(nodes: seq<Ast>, slots: map<NameIdx, FunIdx>, cs: seq<AstIdx>, bound: nat, i: nat)
    requires Walkable(nodes)
    requires forall j :: 0 <= j < |cs| ==> cs[j] < bound && cs[j] < |nodes|
    requires i < |cs| && CompileSeq(nodes, slots, cs[..i], bound).Some? && CompileExpr(nodes, slots, cs[i]).None?
    ensures CompileSeq(nodes, slots, cs, bound).None?
    decreases |cs|
  {
    if i < |cs| - 1 {
      var pre := cs[..|cs| - 1];
      assert pre[..i] == cs[..i];
      CompileSeqNone(nodes, slots, pre, bound, i);
    } else {
      assert cs[..|cs| - 1] == cs[..i];
    }
  }

  /** A failed argument makes the whole argument run fail the same way. */
  lemma {:induction false} ExecSeqErr(table: seq<CompiledFunction>, args: seq<Code>, mem: seq<Value>, base: nat, fuel: nat, i: nat)
    requires i < |args| && ExecSeq(table, args[..i + 1], mem, base, fuel).Err?
    ensures ExecSeq(table, args, mem, base, fuel) == ExecSeq(table, args[..i + 1], mem, base, fuel)
    decreases |args|
  {
    if i < |args| - 1 {
      var pre := args[..|args| - 1];
      assert pre[..i + 1] == args[..i + 1];
      ExecSeqErr(table, pre, mem, base, fuel, i);
    } else {
      assert args[..i + 1] == args;
    }
  }

  /** The outcome of `execute`: the expression does not compile, the run
      fails, or it ends with what the stack's top then holds. */
  datatype Outcome = NotCompiled | Crashed(trace: ErrTrace) | Finished(top: Option<Value>)

  /** `execute` against the table `table` and the slot map `slots`. */
  ghost function Executed(nodes: seq<Ast>, slots: map<NameIdx, FunIdx>, table: seq<CompiledFunction>, exprIdx: AstIdx, fuel: nat): Outcome
    requires Walkable(nodes) && exprIdx < |nodes|
  {
    var c := CompileExpr(nodes, slots, exprIdx);
    if c.None? then NotCompiled
    else
      var r := Exec(table, c.value.inner.code, [], 0, fuel);
      if r.Err? then Crashed(r.trace)
      else Finished(if |r.value| == 0 then None else Some(r.value[|r.value| - 1]))
  }

  /** Disciplined code that runs to completion on an empty stack finishes
      with exactly one value, the result. */
  lemma ExecutedHasResult(nodes: seq<Ast>, slots: map<NameIdx, FunIdx>, table: seq<CompiledFunction>, exprIdx: AstIdx, fuel: nat)
    requires Walkable(nodes) && exprIdx < |nodes| && TableDisciplined(table)
    requires CompileExpr(nodes, slots, exprIdx).Some? && Disciplined(CompileExpr(nodes, slots, exprIdx).value.inner.code)
    ensures Executed(nodes, slots, table, exprIdx, fuel) != NotCompiled
    ensures Executed(nodes, slots, table, exprIdx, fuel).Finished? ==>
      var r := Exec(table, CompileExpr(nodes, slots, exprIdx).value.inner.code, [], 0, fuel).value;
      |r| == 1 && Executed(nodes, slots, table, exprIdx, fuel).top == Some(r[0])
  {
    var c := CompileExpr(nodes, slots, exprIdx).value.inner.code;
    if Exec(table, c, [], 0, fuel).Ok? {
      ExecPushesOne(table, c, [], 0, fuel);
    }
  }

  /** The first pass of `compile`: each name of `order` in turn gets the
      next free slot of `table`, which holds the placeholder. */
  method Reserve(nodes: seq<Ast>, defs: map<NameIdx, AstIdx>, order: seq<NameIdx>,
                 table: seq<CompiledFunction>, slots: map<NameIdx, FunIdx>)
    returns (table': seq<CompiledFunction>, slots': map<NameIdx, FunIdx>)
    requires Walkable(nodes) && forall j :: 0 <= j < |order| ==> order[j] in defs && defs[order[j]] < |nodes|
    requires Distinct(order)
    ensures slots' == slots + Assigned(order, |table|)
    ensures SlotsFrom(nodes, defs, order, None, table', |table|) && table'[..|table|] == table
    ensures forall j :: 0 <= j < |order| ==> order[j] in slots' && slots'[order[j]] == |table| + j
  {
    table', slots' := table, slots;
    for i := 0 to |order|
      invariant FirstPassUpTo(nodes, defs, order, table, slots, table', slots', i)
    {
      var name := order[i];
      FirstPassStep(nodes, defs, order, table, slots, table', slots', i);
      slots' := slots'[name := |table'|];
      table' := table' + [Pending(nodes, defs[name])];
    }
    FirstPassDone(nodes, defs, order, table, slots, table', slots');
  }

  /** After `i` rounds of the first pass: the slot map holds the first `i`
      names, the table a placeholder for each. */
  ghost predicate FirstPassUpTo(nodes: seq<Ast>, defs: map<NameIdx, AstIdx>, order: seq<NameIdx>,
                                table: seq<CompiledFunction>, slots: map<NameIdx, FunIdx>,
                                t: seq<CompiledFunction>, s: map<NameIdx, FunIdx>, i: nat)
  {
    PendingUpTo(nodes, defs, order, table, t, i) && s == slots + Assigned(order[..i], |table|)
  }

  /** One round of the first pass. */
  lemma FirstPassStep(nodes: seq<Ast>, defs: map<NameIdx, AstIdx>, order: seq<NameIdx>,
                      table: seq<CompiledFunction>, slots: map<NameIdx, FunIdx>,
                      t: seq<CompiledFunction>, s: map<NameIdx, FunIdx>, i: nat)
    requires FirstPassUpTo(nodes, defs, order, table, slots, t, s, i) && i < |order|
    ensures FirstPassUpTo(nodes, defs, order, table, slots, t + [Pending(nodes, defs[order[i]])], s[order[i] := |t|], i + 1)
  {
    PendingStep(nodes, defs, order, table, t, i);
    AssignedStep(slots, order, |table|, i);
  }

  /** The first pass done. */
  lemma FirstPassDone(nodes: seq<Ast>, defs: map<NameIdx, AstIdx>, order: seq<NameIdx>,
                      table: seq<CompiledFunction>, slots: map<NameIdx, FunIdx>,
                      t: seq<CompiledFunction>, s: map<NameIdx, FunIdx>)
    requires Walkable(nodes) && Distinct(order)
    requires FirstPassUpTo(nodes, defs, order, table, slots, t, s, |order|)
    ensures s == slots + Assigned(order, |table|)
    ensures SlotsFrom(nodes, defs, order, None, t, |table|) && t[..|table|] == table
    ensures forall j :: 0 <= j < |order| ==> order[j] in s && s[order[j]] == |table| + j
  {
    AssignedDone(slots, order, |table|);
    PendingDone(nodes, defs, order, table, t);
  }

  /** One round of the first pass on the slot map. */
  lemma AssignedStep(slots: map<NameIdx, FunIdx>, order: seq<NameIdx>, start: nat, i: nat)
    requires i < |order|
    ensures (slots + Assigned(order[..i], start))[order[i] := start + i] == slots + Assigned(order[..i + 1], start)
  {
    AssignedSnoc(order, start, i);
    UnionUpdate(slots, Assigned(order[..i], start), order[i], start + i);
  }

  /** The first pass done on the slot map: each name has its slot. */
  lemma AssignedDone(slots: map<NameIdx, FunIdx>, order: seq<NameIdx>, start: nat)
    requires Distinct(order)
    ensures slots + Assigned(order[..|order|], start) == slots + Assigned(order, start)
    ensures forall j :: 0 <= j < |order| ==>
      order[j] in slots + Assigned(order, start) && (slots + Assigned(order, start))[order[j]] == start + j
  {
    assert order[..|order|] == order;
    AssignedDense(order, start);
  }

  /** After `i` rounds of the first pass: the old table, then a placeholder
      for each of the first `i` names. */
  ghost predicate PendingUpTo(nodes: seq<Ast>, defs: map<NameIdx, AstIdx>, order: seq<NameIdx>,
                              table: seq<CompiledFunction>, t: seq<CompiledFunction>, i: nat)
  {
    && Walkable(nodes) && i <= |order| && |t| == |table| + i && t[..|table|] == table
    && (forall j :: 0 <= j < |order| ==> order[j] in defs && defs[order[j]] < |nodes|)
    && forall j :: 0 <= j < i ==> t[|table| + j] == Pending(nodes, defs[order[j]])
  }

  /** One round of the first pass. */
  lemma PendingStep(nodes: seq<Ast>, defs: map<NameIdx, AstIdx>, order: seq<NameIdx>,
                    table: seq<CompiledFunction>, t: seq<CompiledFunction>, i: nat)
    requires PendingUpTo(nodes, defs, order, table, t, i) && i < |order|
    ensures PendingUpTo(nodes, defs, order, table, t + [Pending(nodes, defs[order[i]])], i + 1)
  {
    var t' := t + [Pending(nodes, defs[order[i]])];
    assert t'[..|table|] == t[..|table|];
    forall j | 0 <= j < i + 1
      ensures t'[|table| + j] == Pending(nodes, defs[order[j]])
    {
      if j < i {
        assert t'[|table| + j] == t[|table| + j];
      }
    }
  }

  /** The first pass done: the placeholders fill the new slots. */
  lemma PendingDone(nodes: seq<Ast>, defs: map<NameIdx, AstIdx>, order: seq<NameIdx>,
                    table: seq<CompiledFunction>, t: seq<CompiledFunction>)
    requires PendingUpTo(nodes, defs, order, table, t, |order|)
    ensures SlotsFrom(nodes, defs, order, None, t, |table|) && t[..|table|] == table
  {
  }

  /** From slot `start` on, `table` holds one function per name of
      `order`: the first pass's placeholder when `slots` is `None`, the
      second pass's result against `slots` otherwise. */
  ghost predicate SlotsFrom(nodes: seq<Ast>, defs: map<NameIdx, AstIdx>, order: seq<NameIdx>,
                            slots: Option<map<NameIdx, FunIdx>>, table: seq<CompiledFunction>, start: nat)
  {
    Walkable(nodes) && |table| == start + |order| &&
    forall j :: 0 <= j < |order| ==>
      && order[j] in defs && defs[order[j]] < |nodes|
      && table[start + j] == (if slots.None? then Pending(nodes, defs[order[j]]) else Compiled(nodes, slots.value, defs[order[j]]))
  }

  /** Updating a union updates its right operand. */
  lemma UnionUpdate(m: map<NameIdx, FunIdx>, m': map<NameIdx, FunIdx>, k: NameIdx, v: FunIdx)
    ensures (m + m')[k := v] == m + m'[k := v]
  {
  }

  /** `CompiledFunctions`: the table of compiled functions and the slot of
      each defined name. */
  class CompiledFunctions {
    var functions: seq<CompiledFunction>
    var functionDefs: map<NameIdx, FunIdx>

    /** `CompiledFunctions::new`. */
    constructor ()
      ensures functions == [] && functionDefs == map[]
    {
      functions := [];
      functionDefs := map[];
    }

    /** `compile_expr` against the current slot map. */
    method CompileNode(nodes: seq<Ast>, idx: AstIdx) returns (r: Option<CompiledFunction>)
      requires Walkable(nodes) && idx < |nodes|
      ensures r == CompileExpr(nodes, functionDefs, idx)
      decreases idx
    {
      BelowParent(nodes, idx);
      match nodes[idx] {
        case Integer(i) => r := Some(New(PushInt(i), 0));
        case ParamRef(_, _, offset) => r := Some(New(PushParam(offset), 0));
        case PrimitiveFunc(p) => r := Some(New(PushFun(Prim(p)), 0));
        case UserFunc(n) =>
          if n in functionDefs {
            r := Some(New(PushFun(Slot(functionDefs[n])), 0));
          } else {
            r := None;
          }
        case Call(f, _) =>
          var children := Children(nodes, idx).value;
          var codes: seq<Code> := [];
          for i := 0 to |children|
            invariant CompileSeq(nodes, functionDefs, children[..i], idx) == Some(codes)
          {
            var c := CompileNode(nodes, children[i]);
            if c.None? {
              CompileSeqNone(nodes, functionDefs, children, idx, i);
              return None;
            }
            assert children[..i + 1][..i] == children[..i];
            codes := codes + [c.value.inner.code];
          }
          assert children[..|children|] == children;
          var callee := CompileNode(nodes, f);
          if callee.None? {
            return None;
          }
          r := Some(New(Apply(codes, callee.value.inner.code), 0));
        case FunctionDef(_, paramCount, b) =>
          var body := CompileNode(nodes, b);
          if body.None? {
            return None;
          }
          r := Some(New(body.value.inner.code, paramCount));
        case Lambda(_, _) => r := None;
      }
    }

    /** `compile`: the first pass gives every definition, in `order`, a
        fresh slot holding the placeholder; the second replaces the
        placeholder of each definition whose body lowers against the new
        slot map. `order` is the iteration order of `function_defs`. */
    method Compile(nodes: seq<Ast>, defs: map<NameIdx, AstIdx>, order: seq<NameIdx>)
      requires Walkable(nodes)
      requires forall n :: n in defs ==> defs[n] < |nodes|
      requires Distinct(order) && forall n :: n in defs <==> n in order
      modifies this
      ensures functionDefs == old(functionDefs) + Assigned(order, old(|functions|))
      ensures |functions| == old(|functions|) + |order|
      ensures functions[..old(|functions|)] == old(functions)
      ensures SlotsFrom(nodes, defs, order, Some(functionDefs), functions, old(|functions|))
    {
      assert forall j :: 0 <= j < |order| ==> order[j] in defs && defs[order[j]] < |nodes|;
      var reserved := functions;
      var table, slots := Reserve(nodes, defs, order, reserved, functionDefs);
      functionDefs := slots;
      functions := FillBodies(nodes, defs, order, |reserved|, table);
      assert functions[..|reserved|] == table[..|reserved|];
    }

    /** The second pass of `compile`: the slot of each definition in
        `order` runs its body, where that body lowers. */
    method FillBodies(nodes: seq<Ast>, defs: map<NameIdx, AstIdx>, order: seq<NameIdx>, start: nat, table: seq<CompiledFunction>)
      returns (filled: seq<CompiledFunction>)
      requires Walkable(nodes)
      requires forall j :: 0 <= j < |order| ==> order[j] in defs && defs[order[j]] < |nodes|
      requires SlotsFrom(nodes, defs, order, None, table, start)
      requires forall j :: 0 <= j < |order| ==> order[j] in functionDefs && functionDefs[order[j]] == start + j
      ensures SlotsFrom(nodes, defs, order, Some(functionDefs), filled, start)
      ensures filled[..start] == table[..start]
    {
      filled := table;
      for i := 0 to |order|
        invariant |filled| == start + |order|
        invariant filled[..start] == table[..start]
        invariant forall j :: 0 <= j < i ==> filled[start + j] == Compiled(nodes, functionDefs, defs[order[j]])
        invariant forall j :: i <= j < |order| ==> filled[start + j] == Pending(nodes, defs[order[j]])
      {
        var name := order[i];
        var slot := functionDefs[name];
        var a := defs[name];
        BelowParent(nodes, a);
        var next := filled[slot];
        assert next == Pending(nodes, a);
        var body := None;
        if nodes[a].FunctionDef? {
          body := CompileNode(nodes, nodes[a].bodyIdx);
          if body.Some? {
            next := CompiledFunction(body.value.inner, next.paramCount);
          }
        }
        CompiledStep(nodes, functionDefs, a, body);
        assert next == Compiled(nodes, functionDefs, a);
        FillSlot(nodes, functionDefs, defs, order, filled, start, i, slot, next);
        filled := filled[slot := next];
      }
    }

    /** The code of a closure, run on `mem` with parameter base `base`. */
    method Run(code: Code, mem: seq<Value>, base: nat, fuel: nat) returns (r: Result<seq<Value>>)
      ensures r == Exec(functions, code, mem, base, fuel)
      decreases fuel, code, 1
    {
      match code {
        case PushInt(i) => r := Ok(mem + [Int(i)]);
        case PushParam(offset) =>
          if base + offset < |mem| {
            r := Ok(mem + [mem[base + offset]]);
          } else {
            r := Err(NewTrace(OutOfBounds));
          }
        case PushFun(f) => r := Ok(mem + [Fun(f)]);
        case Apply(_, _) => r := RunApply(code, mem, base, fuel);
      }
    }

    /** The closure of a call node. */
    method RunApply(code: Code, mem: seq<Value>, base: nat, fuel: nat) returns (r: Result<seq<Value>>)
      requires code.Apply?
      ensures r == Exec(functions, code, mem, base, fuel)
      decreases fuel, code, 0
    {
      var baseLen := |mem|;
      var m := RunArgs(code.args, mem, base, fuel);
      if m.Err? {
        return m;
      }
      m := Run(code.callee, m.value, baseLen, fuel);
      if m.Err? {
        return m;
      }
      var stack := m.value;
      if |stack| == 0 {
        return Err(NewTrace(EmptyStack));
      }
      var result := stack[|stack| - 1];
      stack := stack[..|stack| - 1];
      if !result.Fun? {
        return Err(NewTrace(NotAFunction));
      }
      var done;
      match result.f {
        case Prim(op) => done := RunPrim(op, stack);
        case Slot(k) =>
          if k >= |functions| {
            return Err(NewTrace(OutOfBounds));
          } else if fuel == 0 {
            return Err(NewTrace(OutOfFuel));
          }
          done := RunFn(functions[k], stack, baseLen, fuel - 1);
      }
      if done.Err? {
        return done;
      }
      r := RunFinish(done.value, baseLen);
    }

    /** The closures of the arguments, in order, with the caller's base. */
    method RunArgs(args: seq<Code>, mem: seq<Value>, base: nat, fuel: nat) returns (r: Result<seq<Value>>)
      ensures r == ExecSeq(functions, args, mem, base, fuel)
      decreases fuel, args
    {
      r := Ok(mem);
      for i := 0 to |args|
        invariant r == ExecSeq(functions, args[..i], mem, base, fuel) && r.Ok?
      {
        assert args[..i + 1][..i] == args[..i];
        r := Run(args[i], r.value, base, fuel);
        if r.Err? {
          ExecSeqErr(functions, args, mem, base, fuel, i);
          return;
        }
      }
      assert args[..|args|] == args;
    }

    /** `CompiledFunction::call` on a table function. */
    method RunFn(f: CompiledFunction, mem: seq<Value>, base: nat, fuel: nat) returns (r: Result<seq<Value>>)
      ensures r == CallFn(functions, f, mem, base, fuel)
      decreases fuel, f, 2
    {
      match f.inner {
        case Placeholder => r := Err(NewTrace(NotImplemented));
        case Runs(code) => r := Run(code, mem, base, fuel);
      }
    }

    /** The primitive's closure: pop `b`, pop `a`, push `a op b`. */
    method RunPrim(op: Primitive, mem: seq<Value>) returns (r: Result<seq<Value>>)
      ensures r == PrimApply(op, mem)
    {
      var stack := mem;
      if |stack| == 0 {
        return Err(NewTrace(EmptyStack));
      }
      var b := stack[|stack| - 1];
      stack := stack[..|stack| - 1];
      if |stack| == 0 {
        return Err(NewTrace(EmptyStack));
      }
      var a := stack[|stack| - 1];
      stack := stack[..|stack| - 1];
      if a.Int? && b.Int? {
        r := Ok(stack + [Int(Eval(op, a.i, b.i))]);
      } else {
        r := Err(NewTrace(NotIntegers));
      }
    }

    /** The end of a call: pop the result, pop down to `baseLen`, push it. */
    method RunFinish(mem: seq<Value>, baseLen: nat) returns (r: Result<seq<Value>>)
      ensures r == Finish(mem, baseLen)
    {
      if |mem| == 0 {
        return Err(NewTrace(EmptyStack));
      }
      var result := mem[|mem| - 1];
      var stack := mem[..|mem| - 1];
      while |stack| > baseLen
        invariant |stack| <= |mem| - 1 && stack == mem[..|stack|]
        invariant |mem| - 1 > baseLen ==> |stack| >= baseLen
        invariant |mem| - 1 <= baseLen ==> stack == mem[..|mem| - 1]
        decreases |stack|
      {
        stack := stack[..|stack| - 1];
      }
      r := Ok(stack + [result]);
    }

    /** `execute`: lower the expression, run it on an empty stack with
        base 0, and pop its result. */
    method Execute(nodes: seq<Ast>, exprIdx: AstIdx, fuel: nat) returns (o: Outcome)
      requires Walkable(nodes) && exprIdx < |nodes|
      ensures o == Executed(nodes, functionDefs, functions, exprIdx, fuel)
    {
      var c := CompileNode(nodes, exprIdx);
      if c.None? {
        return NotCompiled;
      }
      var r := Run(c.value.inner.code, [], 0, fuel);
      if r.Err? {
        return Crashed(r.trace);
      }
      var memory := r.value;
      o := Finished(if |memory| == 0 then None else Some(memory[|memory| - 1]));
    }
  }
}
