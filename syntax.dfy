/** The node type of the flat arena, the index handles and the primitive
    operations (src/ast/mod.rs, src/ast/indices.rs, src/ast/primitives.rs). */
module Syntax {

  /** Position of a node in the arena. */
  type AstIdx = nat
  /** Handle of an interned string. */
  type NameIdx = nat
  /** Position of a parameter in its frame. */
  type ParamIdx = nat
  /** Slot of the compiled-function table. */
  type FunIdx = nat

  datatype Option<+T> = None | Some(value: T)

  datatype Primitive = Add | Multiply

  /** One arena entry. Children are not pointers: a `Call`'s arguments sit
      directly below its callee subtree and are found by walking backwards. */
  datatype Ast =
    | Integer(value: int)
    | ParamRef(name: NameIdx, level: nat, offset: ParamIdx)
    | PrimitiveFunc(func: Primitive)
    | UserFunc(name: NameIdx)
    | Lambda(paramCount: nat, bodyIdx: AstIdx)
    | Call(funcIdx: AstIdx, childCount: nat)
    | FunctionDef(nameIdx: NameIdx, paramCount: nat, bodyIdx: AstIdx)
  {
    /** The four kinds without children. */
    predicate IsAtomic() {
      Integer? || ParamRef? || PrimitiveFunc? || UserFunc?
    }
  }

  /** Source name of a primitive. */
  function PrimitiveName(f: Primitive): (s: string)
    ensures s == "add" || s == "multiply"
    ensures (s == "add") <==> f == Add
  {
    match f
    case Add => "add"
    case Multiply => "multiply"
  }

  /** Every name handle stored in a node is a valid string-pool position. */
  ghost predicate NamesInterned(nodes: seq<Ast>, poolSize: nat) {
    forall i :: 0 <= i < |nodes| ==>
      (nodes[i].UserFunc? ==> nodes[i].name < poolSize) &&
      (nodes[i].FunctionDef? ==> nodes[i].nameIdx < poolSize)
  }
}
