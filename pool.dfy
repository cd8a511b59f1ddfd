/** The node arena and string interner (`AstPool` of src/ast/pool.rs): the
    append-only builders, the interner, the `len`/`children` readers and
    the dependency search. */
module Pool {
  import opened Syntax
  import opened Arena

  /** `s` read back to front. */
  function Reversed<T>(s: seq<T>): (r: seq<T>)
    ensures |r| == |s|
    ensures forall i :: 0 <= i < |s| ==> r[i] == s[|s| - 1 - i]
  {
    if |s| == 0 then [] else Reversed(s[1..]) + [s[0]]
  }

  /** The positions below `n`. */
  function Upto(n: nat): (r: set<nat>)
    ensures forall i: nat :: i in r <==> i < n
  {
    if n == 0 then {} else Upto(n - 1) + {n - 1}
  }

  /** `get_primitive_func`: the two primitive names and nothing else. */
  function GetPrimitiveFunc(name: string): (r: Option<Primitive>)
    ensures r.Some? <==> name == "add" || name == "multiply"
    ensures r.Some? ==> PrimitiveName(r.value) == name
  {
    if name == "add" then Some(Add)
    else if name == "multiply" then Some(Multiply)
    else None
  }

  /** A primitive's source name looks up that primitive. */
  lemma PrimitiveRoundTrip(f: Primitive)
    ensures GetPrimitiveFunc(PrimitiveName(f)) == Some(f)
  {
  }

  class AstPool {
    var nodes: seq<Ast>
    var stringPool: seq<string>
    var stringMap: map<string, NameIdx>
    var functionDefs: map<NameIdx, AstIdx>
    var parameterNames: map<(NameIdx, ParamIdx), NameIdx>

    /** The interner is a bijection between `stringMap` and the positions of
        `stringPool`; every definition entry points at a `FunctionDef` node
        of that name; every stored name handle is a pool position. */
    ghost predicate Valid()
      reads this
    {
      (forall s :: s in stringMap ==> stringMap[s] < |stringPool| && stringPool[stringMap[s]] == s) &&
      (forall i :: 0 <= i < |stringPool| ==> stringPool[i] in stringMap && stringMap[stringPool[i]] == i) &&
      (forall n :: n in functionDefs ==>
        functionDefs[n] < |nodes| && nodes[functionDefs[n]].FunctionDef? && nodes[functionDefs[n]].nameIdx == n) &&
      (forall k :: k in parameterNames ==> parameterNames[k] < |stringPool|) &&
      NamesInterned(nodes, |stringPool|)
    }

    constructor ()
      ensures Valid()
      ensures nodes == [] && stringPool == [] && stringMap == map[]
      ensures functionDefs == map[] && parameterNames == map[]
    {
      nodes := [];
      stringPool := [];
      stringMap := map[];
      functionDefs := map[];
      parameterNames := map[];
    }

    /** `intern_string`: a known string keeps its handle and changes nothing;
        a new one gets the next dense handle. Either way the handle reads
        back as `s`. */
    method InternString(s: string) returns (idx: NameIdx)
      requires Valid()
      modifies this
      ensures Valid()
      ensures idx < |stringPool| && stringPool[idx] == s && stringMap[s] == idx
      ensures s in old(stringMap) ==>
        idx == old(stringMap[s]) && stringPool == old(stringPool) && stringMap == old(stringMap)
      ensures s !in old(stringMap) ==>
        idx == old(|stringPool|) && stringPool == old(stringPool) + [s] && stringMap == old(stringMap)[s := idx]
      ensures nodes == old(nodes) && functionDefs == old(functionDefs) && parameterNames == old(parameterNames)
    {
      if s in stringMap {
        return stringMap[s];
      }
      idx := |stringPool|;
      stringPool := stringPool + [s];
      stringMap := stringMap[s := idx];
    }

    /** `get_string`: the string behind a handle; interning it again gives
        back the same handle. */
    function GetString(idx: NameIdx): (s: string)
      reads this
      requires idx < |stringPool|
      ensures Valid() ==> s in stringMap && stringMap[s] == idx
    {
      stringPool[idx]
    }

    /** `get_name_idx_from_func`: the handle of an already interned string. */
    function GetNameIdx(name: string): (r: Option<NameIdx>)
      reads this
      ensures r.Some? <==> name in stringMap
      ensures Valid() && r.Some? ==> r.value < |stringPool| && GetString(r.value) == name
    {
      if name in stringMap then Some(stringMap[name]) else None
    }

    method AddInteger(value: int) returns (idx: AstIdx)
      requires Valid()
      modifies this
      ensures Valid()
      ensures idx == old(|nodes|) && nodes == old(nodes) + [Integer(value)]
      ensures stringPool == old(stringPool) && stringMap == old(stringMap)
      ensures functionDefs == old(functionDefs) && parameterNames == old(parameterNames)
    {
      idx := |nodes|;
      nodes := nodes + [Integer(value)];
    }

    method AddParamRef(name: NameIdx, level: nat, offset: ParamIdx) returns (idx: AstIdx)
      requires Valid()
      modifies this
      ensures Valid()
      ensures idx == old(|nodes|) && nodes == old(nodes) + [ParamRef(name, level, offset)]
      ensures stringPool == old(stringPool) && stringMap == old(stringMap)
      ensures functionDefs == old(functionDefs) && parameterNames == old(parameterNames)
    {
      idx := |nodes|;
      nodes := nodes + [ParamRef(name, level, offset)];
    }

    method AddPrimitiveFunc(func: Primitive) returns (idx: AstIdx)
      requires Valid()
      modifies this
      ensures Valid()
      ensures idx == old(|nodes|) && nodes == old(nodes) + [PrimitiveFunc(func)]
      ensures stringPool == old(stringPool) && stringMap == old(stringMap)
      ensures functionDefs == old(functionDefs) && parameterNames == old(parameterNames)
    {
      idx := |nodes|;
      nodes := nodes + [PrimitiveFunc(func)];
    }

    /** `add_user_func`: interns the name, then appends the reference. */
    method AddUserFunc(name: string) returns (idx: AstIdx)
      requires Valid()
      modifies this
      ensures Valid()
      ensures name in stringMap && GetString(stringMap[name]) == name
      ensures idx == old(|nodes|) && nodes == old(nodes) + [UserFunc(stringMap[name])]
      ensures old(stringPool) <= stringPool && old(stringMap).Keys <= stringMap.Keys
      ensures stringMap == old(stringMap)[name := stringMap[name]]
      ensures functionDefs == old(functionDefs) && parameterNames == old(parameterNames)
    {
      var n := InternString(name);
      idx := |nodes|;
      nodes := nodes + [UserFunc(n)];
    }

    method AddCall(funcIdx: AstIdx, childCount: nat) returns (idx: AstIdx)
      requires Valid()
      modifies this
      ensures Valid()
      ensures idx == old(|nodes|) && nodes == old(nodes) + [Call(funcIdx, childCount)]
      ensures stringPool == old(stringPool) && stringMap == old(stringMap)
      ensures functionDefs == old(functionDefs) && parameterNames == old(parameterNames)
    {
      idx := |nodes|;
      nodes := nodes + [Call(funcIdx, childCount)];
    }

    /** `add_add`: the argument is ignored; the call always has two children. */
    method AddAdd(childCount: nat) returns (idx: AstIdx)
      requires Valid()
      modifies this
      ensures Valid()
      ensures idx == old(|nodes|) + 1
      ensures nodes == old(nodes) + [PrimitiveFunc(Add), Call(old(|nodes|), 2)]
      ensures stringPool == old(stringPool) && stringMap == old(stringMap)
      ensures functionDefs == old(functionDefs) && parameterNames == old(parameterNames)
    {
      var id := AddPrimitiveFunc(Add);
      idx := AddCall(id, 2);
    }

    /** `add_multiply`: as `add_add`, with the other primitive. */
    method AddMultiply(childCount: nat) returns (idx: AstIdx)
      requires Valid()
      modifies this
      ensures Valid()
      ensures idx == old(|nodes|) + 1
      ensures nodes == old(nodes) + [PrimitiveFunc(Multiply), Call(old(|nodes|), 2)]
      ensures stringPool == old(stringPool) && stringMap == old(stringMap)
      ensures functionDefs == old(functionDefs) && parameterNames == old(parameterNames)
    {
      var id := AddPrimitiveFunc(Multiply);
      idx := AddCall(id, 2);
    }

    /** `add_function_def`: appends the definition and points its name at
        it, replacing any earlier definition of the same name. */
    method AddFunctionDef(name: string, paramCount: nat, bodyIdx: AstIdx) returns (idx: AstIdx)
      requires Valid()
      modifies this
      ensures Valid()
      ensures name in stringMap && GetString(stringMap[name]) == name
      ensures idx == old(|nodes|) && nodes == old(nodes) + [FunctionDef(stringMap[name], paramCount, bodyIdx)]
      ensures functionDefs == old(functionDefs)[stringMap[name] := idx]
      ensures old(stringPool) <= stringPool && stringMap == old(stringMap)[name := stringMap[name]]
      ensures parameterNames == old(parameterNames)
    {
      var n := InternString(name);
      idx := |nodes|;
      nodes := nodes + [FunctionDef(n, paramCount, bodyIdx)];
      functionDefs := functionDefs[n := idx];
    }

    /** `add_function_call`: a primitive name gets a `PrimitiveFunc` callee,
        any other name a `UserFunc` callee; the call node comes last. */
    method AddFunctionCall(name: string, childCount: nat) returns (idx: AstIdx)
      requires Valid()
      modifies this
      ensures Valid()
      ensures idx == old(|nodes|) + 1 && |nodes| == idx + 1
      ensures nodes[..old(|nodes|)] == old(nodes) && nodes[idx] == Call(old(|nodes|), childCount)
      ensures GetPrimitiveFunc(name).Some? ==>
        nodes[old(|nodes|)] == PrimitiveFunc(GetPrimitiveFunc(name).value)
        && stringPool == old(stringPool) && stringMap == old(stringMap)
      ensures GetPrimitiveFunc(name).None? ==>
        name in stringMap && GetString(stringMap[name]) == name && nodes[old(|nodes|)] == UserFunc(stringMap[name])
        && old(stringPool) <= stringPool && stringMap == old(stringMap)[name := stringMap[name]]
      ensures functionDefs == old(functionDefs) && parameterNames == old(parameterNames)
    {
      var prim := GetPrimitiveFunc(name);
      var funcIdx: AstIdx;
      if prim.Some? {
        funcIdx := AddPrimitiveFunc(prim.value);
      } else {
        funcIdx := AddUserFunc(name);
      }
      idx := AddCall(funcIdx, childCount);
    }

    /** `register_param_name`: interns the parameter's name and records it
        under (function, position), replacing an earlier entry. */
    method RegisterParamName(funcName: NameIdx, paramIdx: ParamIdx, paramName: string)
      requires Valid()
      modifies this
      ensures Valid()
      ensures GetParamName(funcName, paramIdx) == Some(paramName)
      ensures paramName in stringMap
      ensures parameterNames == old(parameterNames)[(funcName, paramIdx) := stringMap[paramName]]
      ensures old(stringPool) <= stringPool && stringMap == old(stringMap)[paramName := stringMap[paramName]]
      ensures nodes == old(nodes) && functionDefs == old(functionDefs)
    {
      var n := InternString(paramName);
      parameterNames := parameterNames[(funcName, paramIdx) := n];
    }

    /** `get_param_name`: the registered name, if any. */
    function GetParamName(funcName: NameIdx, paramIdx: ParamIdx): (r: Option<string>)
      reads this
      requires Valid()
      ensures r.Some? <==> (funcName, paramIdx) in parameterNames
      ensures r.Some? ==> r.value in stringMap && stringMap[r.value] == parameterNames[(funcName, paramIdx)]
    {
      if (funcName, paramIdx) in parameterNames then Some(GetString(parameterNames[(funcName, paramIdx)]))
      else None
    }

    /** `len`: the size of the subtree at `idx`, summing the callee and the
        children that `children` finds. */
    method Len(idx: AstIdx) returns (r: nat)
      requires Walkable(nodes) && idx < |nodes|
      ensures r == SubtreeLen(nodes, idx).value
      decreases idx, 1
    {
      LenFormula(nodes, idx);
      match nodes[idx]
      case Call(f, _) =>
        assert f < idx;
        var fl := Len(f);
        var total := 1 + fl;
        var kids := Children(idx);
        var cs := kids.value;
        for i := 0 to |cs|
          invariant total == 1 + fl + SumLens(nodes, cs[..i])
        {
          var l := Len(cs[i]);
          assert cs[..i + 1][..i] == cs[..i];
          total := total + l;
        }
        assert cs[..|cs|] == cs;
        r := total;
      case FunctionDef(_, _, b) =>
        var kids := Children(idx);
        var l := Len(kids.value[0]);
        r := 1 + l;
      case Lambda(_, b) =>
        var kids := Children(idx);
        var l := Len(kids.value[0]);
        r := 1 + l;
      case _ =>
        r := 1;
    }

    /** `children`: walks down from just below the callee, collecting the
        argument roots last to first, then reverses them. */
    method Children(idx: AstIdx) returns (r: Option<seq<AstIdx>>)
      requires Walkable(nodes) && idx < |nodes|
      ensures r == Arena.Children(nodes, idx)
      decreases idx, 0
    {
      match nodes[idx]
      case Call(f, count) =>
        CallPeel(nodes, idx);
        var fl := Len(f);
        var current: nat := idx - fl;
        var kids := WalkDown(current, count);
        assert Reversed(kids) == WalkBack(nodes, current, count).value.roots;
        r := Some(Reversed(kids));
      case FunctionDef(_, _, b) =>
        r := Some([b]);
      case Lambda(_, b) =>
        r := Some([b]);
      case _ =>
        r := None;
    }

    /** The loop of `children`: from `start`, take `count` subtrees off the
        top, recording each root as it is reached (last argument first). */
    method WalkDown(start: nat, count: nat) returns (kids: seq<AstIdx>)
      requires Walkable(nodes) && start <= |nodes|
      requires WalkBack(nodes, start, count).Some?
      ensures |kids| == count
      ensures forall j :: 0 <= j < count ==> kids[j] == WalkBack(nodes, start, count).value.roots[count - 1 - j]
      decreases start, 0
    {
      ghost var w := WalkBack(nodes, start, count).value;
      if count > 0 { WalkTop(nodes, start, count); }
      var current: nat := start;
      kids := [];
      for i := 0 to count
        invariant |kids| == i
        invariant forall j :: 0 <= j < i ==> kids[j] == w.roots[count - 1 - j]
        invariant current == if i == count then w.low else w.roots[count - 1 - i] + 1
      {
        WalkContiguous(nodes, start, count, count - 1 - i);
        var child := current - 1;
        var l := Len(child);
        kids := kids + [child];
        current := current - l;
      }
    }

    /** `find_dependencies`: the defined functions reachable from the
        named function's definition. Unknown or undefined names give the
        empty set. Otherwise the result is the set of names referenced in
        `reach`, the least closed set of positions that holds the
        definition node. */
    method FindDependencies(name: string) returns (r: set<NameIdx>, ghost reach: set<AstIdx>)
      requires Valid() && Walkable(nodes)
      ensures r <= functionDefs.Keys
      ensures GetNameIdx(name).None? || GetNameIdx(name).value !in functionDefs ==> r == {}
      ensures GetNameIdx(name).Some? && GetNameIdx(name).value in functionDefs ==>
        var root := functionDefs[GetNameIdx(name).value];
        root in reach && Closed(reach) && r == NamesOf(reach) &&
        forall s :: root in s && Closed(s) ==> reach <= s
    {
      r, reach := {}, {};
      var nameIdx := GetNameIdx(name);
      if nameIdx.Some? && nameIdx.value in functionDefs {
        var root := functionDefs[nameIdx.value];
        r, reach := Visit(root, {}, {});
        assert reach - {} == reach;
      }
    }

    /** `find_dependencies_recursive`: a position seen before is skipped;
        otherwise it is marked, its callee (or the definition it names) is
        searched, then its children in order. */
    method Visit(node: AstIdx, deps: set<NameIdx>, visited: set<AstIdx>)
      returns (deps': set<NameIdx>, visited': set<AstIdx>)
      requires Valid() && Walkable(nodes) && node < |nodes|
      requires Sound(deps, visited + {node})
      ensures Sound(deps', visited') && node in visited'
      ensures Grew(deps, visited, deps', visited') && Covers([node], visited, visited')
      decreases Upto(|nodes|) - visited, 0
    {
      if node in visited {
        NamesOfEmpty();
        return deps, visited;
      }
      assert node in Upto(|nodes|) - visited;
      var d1, v1 := VisitCallee(node, deps, visited + {node});
      var kids := Children(node);
      ghost var cs: seq<AstIdx> := [];
      deps', visited' := d1, v1;
      if kids.Some? {
        cs := kids.value;
        deps', visited' := VisitAll(kids.value, d1, v1);
      } else {
        NamesOfEmpty();
      }
      VisitDone(node, deps, visited, d1, v1, cs, deps', visited');
    }

    /** The `match` of `find_dependencies_recursive`: a reference to a
        defined function not yet recorded is recorded and its definition
        searched; a call's callee is searched. */
    method VisitCallee(node: AstIdx, deps: set<NameIdx>, visited: set<AstIdx>)
      returns (deps': set<NameIdx>, visited': set<AstIdx>)
      requires Valid() && Walkable(nodes) && node < |nodes| && node in visited
      requires Sound(deps, visited)
      ensures Sound(deps', visited')
      ensures Grew(deps + NamesOf({node}), visited, deps', visited')
      ensures Covers(Callee(node), visited, visited')
      ensures forall j :: 0 <= j < |Callee(node)| ==> Callee(node)[j] in visited'
      decreases Upto(|nodes|) - visited, 1
    {
      NamesOfOne(node);
      NamesOfEmpty();
      match nodes[node] {
        case UserFunc(n) =>
          if n in functionDefs && n !in deps {
            deps', visited' := Visit(functionDefs[n], deps + {n}, visited);
          } else {
            deps', visited' := deps, visited;
          }
        case Call(f, _) =>
          CallPeel(nodes, node);
          deps', visited' := Visit(f, deps, visited);
        case _ =>
          deps', visited' := deps, visited;
      }
    }

    /** The `for child_idx in children` loop of `find_dependencies_recursive`:
        searches each of `roots` in turn, sharing one visited set. */
    method VisitAll(roots: seq<AstIdx>, deps: set<NameIdx>, visited: set<AstIdx>)
      returns (deps': set<NameIdx>, visited': set<AstIdx>)
      requires Valid() && Walkable(nodes)
      requires forall i :: 0 <= i < |roots| ==> roots[i] < |nodes|
      requires Sound(deps, visited)
      ensures Sound(deps', visited')
      ensures Grew(deps, visited, deps', visited') && Covers(roots, visited, visited')
      ensures forall i :: 0 <= i < |roots| ==> roots[i] in visited'
      decreases Upto(|nodes|) - visited, 1
    {
      deps', visited' := deps, visited;
      NamesOfEmpty();
      for i := 0 to |roots|
        invariant Sound(deps', visited')
        invariant Grew(deps, visited, deps', visited') && Covers(roots[..i], visited, visited')
        invariant forall j :: 0 <= j < i ==> roots[j] in visited'
      {
        var d, v := Visit(roots[i], deps', visited');
        GrewTrans(deps, visited, deps', visited', d, v);
        CoversSnoc(roots[..i], roots[i], visited, visited', v);
        assert roots[..i + 1] == roots[..i] + [roots[i]];
        deps', visited' := d, v;
      }
      assert roots[..|roots|] == roots;
    }

    /** What the search steps to from `v` before its children: the callee of
        a call, or the definition a user-function reference names. */
    ghost function Callee(v: AstIdx): seq<AstIdx>
      reads this
      requires v < |nodes|
    {
      match nodes[v]
      case Call(f, _) => [f]
      case UserFunc(n) => if n in functionDefs then [functionDefs[n]] else []
      case _ => []
    }

    /** The children `children` reports for `v`, none for an atom. */
    ghost function Kids(v: AstIdx): seq<AstIdx>
      reads this
      requires Walkable(nodes) && v < |nodes|
    {
      var c := Arena.Children(nodes, v);
      if c.None? then [] else c.value
    }

    /** The positions the search moves on to from `v`. */
    ghost function Succ(v: AstIdx): set<AstIdx>
      reads this
      requires Walkable(nodes) && v < |nodes|
    {
      Elems(Callee(v)) + Elems(Kids(v))
    }

    /** A set of arena positions that the search cannot leave. */
    ghost predicate Closed(s: set<AstIdx>)
      reads this
      requires Walkable(nodes)
    {
      forall v :: v in s ==> v < |nodes| && Succ(v) <= s
    }

    /** The defined functions referenced at the positions in `s`. */
    ghost function NamesOf(s: set<AstIdx>): set<NameIdx>
      reads this
    {
      set v | v in s && v < |nodes| && nodes[v].UserFunc? && nodes[v].name in functionDefs :: nodes[v].name
    }

    /** Every visited position lies in the arena, and every recorded
        dependency is defined and its definition already visited. */
    ghost predicate Sound(deps: set<NameIdx>, visited: set<AstIdx>)
      reads this
    {
      (forall v :: v in visited ==> v < |nodes|) &&
      (forall n :: n in deps ==> n in functionDefs && functionDefs[n] in visited)
    }

    /** Going from (`deps`, `visited`) to (`deps'`, `visited'`), nothing is
        forgotten, every newly visited position has all its successors
        visited, and the names added are those referenced at the new
        positions. */
    ghost predicate Grew(deps: set<NameIdx>, visited: set<AstIdx>, deps': set<NameIdx>, visited': set<AstIdx>)
      reads this
      requires Walkable(nodes)
    {
      visited <= visited' &&
      (forall v :: v in visited' - visited ==> v < |nodes| && Succ(v) <= visited') &&
      deps' == deps + NamesOf(visited' - visited)
    }

    /** The newly visited positions lie in every closed set holding all of
        `roots`: each is reachable from one of them. */
    ghost predicate Covers(roots: seq<AstIdx>, visited: set<AstIdx>, visited': set<AstIdx>)
      reads this
      requires Walkable(nodes)
    {
      forall s :: (forall j :: 0 <= j < |roots| ==> roots[j] in s) && Closed(s) ==> visited' - visited <= s
    }

    /** The dependencies are closed under "calls a defined function": what
        the definition of a dependency reaches is already in `reach`, so its
        own dependencies are dependencies too. */
    lemma DependenciesClosed(reach: set<AstIdx>, n: NameIdx, reachN: set<AstIdx>)
      requires Walkable(nodes) && n in functionDefs
      requires Closed(reach) && n in NamesOf(reach)
      requires forall s :: functionDefs[n] in s && Closed(s) ==> reachN <= s
      ensures functionDefs[n] in reach && NamesOf(reachN) <= NamesOf(reach)
    {
      var v :| v in reach && v < |nodes| && nodes[v].UserFunc? && nodes[v].name in functionDefs && nodes[v].name == n;
      assert Callee(v) == [functionDefs[n]];
      assert Callee(v)[0] in Elems(Callee(v));
    }

    lemma NamesOfEmpty()
      ensures NamesOf({}) == {}
    {
    }

    lemma NamesOfOne(v: AstIdx)
      requires v < |nodes|
      ensures NamesOf({v}) == if nodes[v].UserFunc? && nodes[v].name in functionDefs then {nodes[v].name} else {}
    {
    }

    lemma NamesOfSplit(all: set<AstIdx>, a: set<AstIdx>, b: set<AstIdx>)
      requires all == a + b
      ensures NamesOf(all) == NamesOf(a) + NamesOf(b)
    {
    }

    lemma GrewTrans(d0: set<NameIdx>, v0: set<AstIdx>, d1: set<NameIdx>, v1: set<AstIdx>, d2: set<NameIdx>, v2: set<AstIdx>)
      requires Walkable(nodes)
      requires Grew(d0, v0, d1, v1) && Grew(d1, v1, d2, v2)
      ensures Grew(d0, v0, d2, v2)
    {
      NamesOfSplit(v2 - v0, v1 - v0, v2 - v1);
    }

    lemma CoversSnoc(roots: seq<AstIdx>, r: AstIdx, v0: set<AstIdx>, v1: set<AstIdx>, v2: set<AstIdx>)
      requires Walkable(nodes)
      requires v0 <= v1 <= v2
      requires Covers(roots, v0, v1) && Covers([r], v1, v2)
      ensures Covers(roots + [r], v0, v2)
    {
      forall s | (forall j :: 0 <= j < |roots + [r]| ==> (roots + [r])[j] in s) && Closed(s)
        ensures v2 - v0 <= s
      {
        assert forall j :: 0 <= j < |roots| ==> roots[j] == (roots + [r])[j];
        assert r == (roots + [r])[|roots|];
      }
    }

    /** The end of `find_dependencies_recursive` for a fresh `node`: the
        callee part and the children part together search all of
        `Succ(node)`. */
    lemma VisitDone(node: AstIdx, deps: set<NameIdx>, visited: set<AstIdx>,
                    d1: set<NameIdx>, v1: set<AstIdx>, cs: seq<AstIdx>, d2: set<NameIdx>, v2: set<AstIdx>)
      requires Walkable(nodes) && node < |nodes| && node !in visited
      requires cs == Kids(node)
      requires Grew(deps + NamesOf({node}), visited + {node}, d1, v1) && Grew(d1, v1, d2, v2)
      requires Covers(Callee(node), visited + {node}, v1) && Covers(cs, v1, v2)
      requires forall j :: 0 <= j < |Callee(node)| ==> Callee(node)[j] in v1
      requires forall j :: 0 <= j < |cs| ==> cs[j] in v2
      ensures Grew(deps, visited, d2, v2) && Covers([node], visited, v2)
    {
      GrewTrans(deps + NamesOf({node}), visited + {node}, d1, v1, d2, v2);
      NamesOfSplit(v2 - visited, {node}, v2 - (visited + {node}));
      assert Succ(node) <= v2;
      forall s | (forall j :: 0 <= j < |[node]| ==> [node][j] in s) && Closed(s)
        ensures v2 - visited <= s
      {
        assert [node][0] == node;
        assert Succ(node) <= s;
      }
    }
  }

  /** The elements of `s`, as a set. */
  ghost function Elems(s: seq<AstIdx>): set<AstIdx> {
    set i | 0 <= i < |s| :: s[i]
  }
}
