/** Error traces, run-time values and compiled code (src/compiler/function.rs,
    src/value/mod.rs). The boxed Rust closures become the first-order `Code`
    datatype, and a function value names what it calls instead of sharing
    a closure cell. */
module Function {
  import opened Syntax

  /** `ErrTrace`: a message and the trace it was raised from, if any. */
  datatype ErrTrace = ErrTrace(message: string, cause: Option<ErrTrace>)

  datatype Result<+T> = Ok(value: T) | Err(trace: ErrTrace)

  /** `ErrTrace::new`. */
  function NewTrace(message: string): (t: ErrTrace)
    ensures Chain(t) == [message]
  {
    ErrTrace(message, None)
  }

  /** `ErrTrace::wrap`: a new outermost message whose cause is `t`. */
  function Wrap(t: ErrTrace, message: string): (w: ErrTrace)
    ensures w.cause == Some(t)
    ensures Chain(w) == [message] + Chain(t)
  {
    ErrTrace(message, Some(t))
  }

  /** The messages of a trace, outermost first. */
  function Chain(t: ErrTrace): (ms: seq<string>)
    ensures |ms| >= 1 && ms[0] == t.message
    decreases t
  {
    match t.cause
    case None => [t.message]
    case Some(c) => [t.message] + Chain(c)
  }

  /** Wrapping keeps every earlier message, in order, below the new one. */
  lemma {:induction false} WrapKeepsChain(t: ErrTrace, ms: seq<string>)
    ensures Chain(WrapAll(t, ms)) == Reverse(ms) + Chain(t)
    ensures |Chain(WrapAll(t, ms))| == |Chain(t)| + |ms|
    decreases |ms|
  {
    if |ms| > 0 {
      WrapKeepsChain(t, ms[..|ms| - 1]);
      assert Reverse(ms) == [ms[|ms| - 1]] + Reverse(ms[..|ms| - 1]);
    }
  }

  /** `t.wrap(ms[0]).wrap(ms[1])…`. */
  function WrapAll(t: ErrTrace, ms: seq<string>): ErrTrace
    decreases |ms|
  {
    if |ms| == 0 then t else Wrap(WrapAll(t, ms[..|ms| - 1]), ms[|ms| - 1])
  }

  function Reverse<T>(s: seq<T>): (r: seq<T>)
    ensures |r| == |s|
    decreases |s|
  {
    if |s| == 0 then [] else [s[|s| - 1]] + Reverse(s[..|s| - 1])
  }

  /** A traced failure determines the trace it wraps and its message. */
  lemma WrapInjective(t: ErrTrace, m: string, t': ErrTrace, m': string)
    requires Wrap(t, m) == Wrap(t', m')
    ensures t == t' && m == m'
  {
  }

  /** What a function value calls: a slot of the compiled-function table
      or a primitive operation. */
  datatype FunRef = Slot(index: FunIdx) | Prim(op: Primitive)

  /** `Value`, with the function variant the compiler pushes. Integers are
      mathematical. */
  datatype Value = Unit | Int(i: int) | Bool(b: bool) | Char(c: char) | Fun(f: FunRef)

  /** The closures `compile_expr` builds, as data. `Apply` is the call
      protocol: arguments, then the callee, then the invocation. */
  datatype Code =
    | PushInt(value: int)
    | PushParam(offset: nat)
    | PushFun(target: FunRef)
    | Apply(args: seq<Code>, callee: Code)

  /** The body of a table slot: the placeholder that fails when invoked,
      or code to run. */
  datatype Closure = Placeholder | Runs(code: Code)

  /** `CompiledFunction`: a closure and the parameter count it declares. */
  datatype CompiledFunction = CompiledFunction(inner: Closure, paramCount: nat)

  /** `CompiledFunction::new`. */
  function New(code: Code, paramCount: nat): (f: CompiledFunction)
    ensures f.paramCount == paramCount && f.inner == Runs(code)
  {
    CompiledFunction(Runs(code), paramCount)
  }

  /** The message of the placeholder closure. */
  const NotImplemented := "Function is not implemented yet"
}
