/** Subtree size and child reconstruction over the flat arena
    (`len` and `children` of src/ast/pool.rs), as total functions.

    `SubtreeLen` answers `None` wherever the source would panic on a
    `usize` underflow or an index out of range, or would fail to terminate.
    It also answers `None` for every callee or body index that does not lie
    below its parent, a layout the parser never builds; the source computes
    a size for some of those (`Call(3, 1)` at index 2 of four nodes, say). */
module Arena {
  import opened Syntax

  /** What the backward walk produces: the argument roots, left to right,
      and the lowest index the walk reached. */
  datatype Walked = Walked(roots: seq<AstIdx>, low: nat)

  /** Number of arena entries occupied by the subtree rooted at `idx`. */
  function SubtreeLen(nodes: seq<Ast>, idx: nat): (r: Option<nat>)
    decreases idx, 1
    ensures r.Some? ==> idx < |nodes| && 1 <= r.value <= idx + 1
  {
    if idx >= |nodes| then None
    else match nodes[idx]
      case Call(f, n) =>
        if f >= idx || SubtreeLen(nodes, f).None? then None
        else
          var w := WalkBack(nodes, idx - SubtreeLen(nodes, f).value, n);
          if w.None? then None else Some(idx + 1 - w.value.low)
      case FunctionDef(_, _, b) =>
        if b >= idx || SubtreeLen(nodes, b).None? then None
        else Some(1 + SubtreeLen(nodes, b).value)
      case Lambda(_, b) =>
        if b >= idx || SubtreeLen(nodes, b).None? then None
        else Some(1 + SubtreeLen(nodes, b).value)
      case _ => Some(1)
  }

  /** The loop of `children`: starting just above the last argument, take
      `count` subtrees off the top, each ending right below the previous. */
  function WalkBack(nodes: seq<Ast>, current: nat, count: nat): (r: Option<Walked>)
    decreases current, 0, count
    ensures r.Some? ==> |r.value.roots| == count && r.value.low <= current
    ensures r.Some? ==> forall i :: 0 <= i < count ==> r.value.low <= r.value.roots[i] < current
  {
    if count == 0 then Some(Walked([], current))
    else if current == 0 then None
    else
      var l := SubtreeLen(nodes, current - 1);
      if l.None? then None
      else
        var rest := WalkBack(nodes, current - l.value, count - 1);
        if rest.None? then None
        else Some(Walked(rest.value.roots + [current - 1], rest.value.low))
  }

  /** Every position of the arena has a cleanly walkable subtree. */
  ghost predicate Walkable(nodes: seq<Ast>) {
    forall i :: 0 <= i < |nodes| ==> SubtreeLen(nodes, i).Some?
  }

  /** The parser's adjacency at `i`: a call's callee and a definition's
      or lambda's body end right below it. */
  ghost predicate Linked(nodes: seq<Ast>, i: nat)
    requires i < |nodes|
  {
    (nodes[i].Call? ==> nodes[i].funcIdx + 1 == i) &&
    ((nodes[i].FunctionDef? || nodes[i].Lambda?) ==> nodes[i].bodyIdx + 1 == i)
  }

  /** A post-order arena as the parser lays it out: walkable, and every
      callee and body sits right below its parent. */
  ghost predicate PostOrder(nodes: seq<Ast>) {
    Walkable(nodes) && forall i :: 0 <= i < |nodes| ==> Linked(nodes, i)
  }

  /** In a walkable arena a call's callee and a definition's or lambda's
      body lie below it. */
  lemma BelowParent(nodes: seq<Ast>, idx: nat)
    requires Walkable(nodes) && idx < |nodes|
    ensures nodes[idx].Call? ==> nodes[idx].funcIdx < idx
    ensures nodes[idx].FunctionDef? || nodes[idx].Lambda? ==> nodes[idx].bodyIdx < idx
  {
    assert SubtreeLen(nodes, idx).Some?;
  }

  /** `children`: `None` for the four atomic kinds, `[body]` for a definition
      or lambda, the argument roots for a call. */
  function Children(nodes: seq<Ast>, idx: nat): (r: Option<seq<AstIdx>>)
    requires SubtreeLen(nodes, idx).Some?
    ensures r.None? <==> nodes[idx].IsAtomic()
    ensures r.Some? ==> forall i :: 0 <= i < |r.value| ==> r.value[i] < idx
    ensures nodes[idx].Call? ==> r.Some? && |r.value| == nodes[idx].childCount
    ensures (nodes[idx].FunctionDef? || nodes[idx].Lambda?) ==> r == Some([nodes[idx].bodyIdx])
  {
    match nodes[idx]
    case Call(f, n) => Some(WalkBack(nodes, idx - SubtreeLen(nodes, f).value, n).value.roots)
    case FunctionDef(_, _, b) => Some([b])
    case Lambda(_, b) => Some([b])
    case _ => None
  }

  /** One step of `len` on a call whose callee and walk succeed. */
  lemma CallStep(nodes: seq<Ast>, idx: nat, fl: nat, w: Walked)
    requires idx < |nodes| && nodes[idx].Call? && nodes[idx].funcIdx < idx
    requires SubtreeLen(nodes, nodes[idx].funcIdx) == Some(fl)
    requires WalkBack(nodes, idx - fl, nodes[idx].childCount) == Some(w)
    ensures SubtreeLen(nodes, idx) == Some(idx + 1 - w.low)
    ensures Children(nodes, idx) == Some(w.roots)
  {
  }

  /** One step of `len` on a definition or lambda whose body walks. */
  lemma BodyStep(nodes: seq<Ast>, idx: nat, bl: nat)
    requires idx < |nodes| && (nodes[idx].FunctionDef? || nodes[idx].Lambda?) && nodes[idx].bodyIdx < idx
    requires SubtreeLen(nodes, nodes[idx].bodyIdx) == Some(bl)
    ensures SubtreeLen(nodes, idx) == Some(1 + bl)
  {
  }

  /** One step of the backward walk. */
  lemma WalkStep(nodes: seq<Ast>, current: nat, count: nat, l: nat, rest: Walked)
    requires current > 0 && count > 0
    requires SubtreeLen(nodes, current - 1) == Some(l)
    requires WalkBack(nodes, current - l, count - 1) == Some(rest)
    ensures WalkBack(nodes, current, count) == Some(Walked(rest.roots + [current - 1], rest.low))
  {
  }

  /** A walk with steps left takes the subtree right below `current`. */
  lemma WalkPeel(nodes: seq<Ast>, current: nat, count: nat)
    requires count > 0 && WalkBack(nodes, current, count).Some?
    ensures current > 0 && SubtreeLen(nodes, current - 1).Some?
    ensures var l := SubtreeLen(nodes, current - 1).value;
      l <= current && WalkBack(nodes, current - l, count - 1).Some? &&
      WalkBack(nodes, current, count).value.roots == WalkBack(nodes, current - l, count - 1).value.roots + [current - 1] &&
      WalkBack(nodes, current, count).value.low == WalkBack(nodes, current - l, count - 1).value.low
  {
  }

  /** A call that walks has a lower callee that walks, and its children are
      the walk that starts right below the callee. */
  lemma CallPeel(nodes: seq<Ast>, idx: nat)
    requires SubtreeLen(nodes, idx).Some? && nodes[idx].Call?
    ensures nodes[idx].funcIdx < idx && SubtreeLen(nodes, nodes[idx].funcIdx).Some?
    ensures var fl := SubtreeLen(nodes, nodes[idx].funcIdx).value;
      fl <= idx && WalkBack(nodes, idx - fl, nodes[idx].childCount).Some? &&
      Children(nodes, idx) == Some(WalkBack(nodes, idx - fl, nodes[idx].childCount).value.roots)
  {
  }

  /** `cs` are consecutive subtrees, left to right, exactly covering
      `[lo, hi)`: the last ends right below `hi`, each one ends right below
      the next, and the first begins at `lo`. */
  ghost predicate Tiles(nodes: seq<Ast>, cs: seq<AstIdx>, lo: nat, hi: nat)
    decreases |cs|
  {
    if |cs| == 0 then lo == hi
    else
      hi > 0 && cs[|cs| - 1] == hi - 1 && SubtreeLen(nodes, hi - 1).Some? &&
      Tiles(nodes, cs[..|cs| - 1], lo, hi - SubtreeLen(nodes, hi - 1).value)
  }

  /** Tiled roots lie inside the span they tile. */
  lemma {:induction false} TilesBelow(nodes: seq<Ast>, cs: seq<AstIdx>, lo: nat, hi: nat)
    requires Tiles(nodes, cs, lo, hi)
    ensures lo <= hi
    ensures forall i :: 0 <= i < |cs| ==> lo <= cs[i] < hi
    decreases |cs|
  {
    if |cs| > 0 {
      var pre := cs[..|cs| - 1];
      TilesBelow(nodes, pre, lo, hi - SubtreeLen(nodes, hi - 1).value);
      assert forall i :: 0 <= i < |pre| ==> cs[i] == pre[i];
    }
  }

  /** The backward walk tiles the span it covers with the roots it returns. */
  lemma {:induction false} WalkTiles(nodes: seq<Ast>, current: nat, count: nat, w: Walked)
    requires WalkBack(nodes, current, count) == Some(w)
    ensures Tiles(nodes, w.roots, w.low, current)
    decreases count
  {
    if count > 0 {
      WalkPeel(nodes, current, count);
      var l := SubtreeLen(nodes, current - 1).value;
      var rest := WalkBack(nodes, current - l, count - 1).value;
      WalkTiles(nodes, current - l, count - 1, rest);
      TilesSnoc(nodes, rest.roots, rest.low, current);
    }
  }

  /** One more subtree on top of a tiling. */
  lemma TilesSnoc(nodes: seq<Ast>, cs: seq<AstIdx>, lo: nat, hi: nat)
    requires hi > 0 && SubtreeLen(nodes, hi - 1).Some? && SubtreeLen(nodes, hi - 1).value <= hi
    requires Tiles(nodes, cs, lo, hi - SubtreeLen(nodes, hi - 1).value)
    ensures Tiles(nodes, cs + [hi - 1], lo, hi)
  {
    assert (cs + [hi - 1])[..|cs|] == cs;
  }

  /** The node at `idx` heads a subtree, and `children` of it is `cs`. */
  ghost predicate HasChildren(nodes: seq<Ast>, idx: nat, cs: seq<AstIdx>) {
    SubtreeLen(nodes, idx).Some? && Children(nodes, idx) == Some(cs)
  }

  /** The first index of the subtree rooted at `idx`. */
  ghost function Low(nodes: seq<Ast>, idx: nat): nat
    requires SubtreeLen(nodes, idx).Some?
  {
    idx + 1 - SubtreeLen(nodes, idx).value
  }

  /** A call's arguments tile its subtree from its first index up to the
      first index of its callee. */
  lemma CallTiles(nodes: seq<Ast>, idx: nat)
    requires SubtreeLen(nodes, idx).Some? && nodes[idx].Call?
    ensures var f := nodes[idx].funcIdx;
      f < idx && SubtreeLen(nodes, f).Some? &&
      var mid := idx - SubtreeLen(nodes, f).value;
      var kids := Children(nodes, idx).value;
      Tiles(nodes, kids, Low(nodes, idx), mid) && Low(nodes, idx) <= mid &&
      forall i :: 0 <= i < |kids| ==> kids[i] < mid
  {
    CallPeel(nodes, idx);
    var fl := SubtreeLen(nodes, nodes[idx].funcIdx).value;
    var w := WalkBack(nodes, idx - fl, nodes[idx].childCount).value;
    CallStep(nodes, idx, fl, w);
    WalkTiles(nodes, idx - fl, nodes[idx].childCount, w);
  }

  /** Every one of `cs` heads a subtree. */
  ghost predicate AllWalk(nodes: seq<Ast>, cs: seq<AstIdx>) {
    forall i :: 0 <= i < |cs| ==> SubtreeLen(nodes, cs[i]).Some?
  }

  /** Sum of the subtree sizes of `cs`. */
  function SumLens(nodes: seq<Ast>, cs: seq<AstIdx>): nat
    requires AllWalk(nodes, cs)
  {
    if |cs| == 0 then 0
    else SumLens(nodes, cs[..|cs| - 1]) + SubtreeLen(nodes, cs[|cs| - 1]).value
  }

  /** The walk consumes exactly the sizes of the roots it returns. */
  lemma {:induction false} WalkSum(nodes: seq<Ast>, current: nat, count: nat, w: Walked)
    requires WalkBack(nodes, current, count) == Some(w)
    ensures AllWalk(nodes, w.roots) && current - w.low == SumLens(nodes, w.roots)
    decreases count
  {
    if count > 0 {
      WalkPeel(nodes, current, count);
      var l := SubtreeLen(nodes, current - 1).value;
      var rest := WalkBack(nodes, current - l, count - 1).value;
      WalkSum(nodes, current - l, count - 1, rest);
      SumStep(nodes, current, l, rest, w);
    }
  }

  /** One step of `WalkSum`: the walk takes the subtree of size `l` right
      below `current` on top of `rest`. */
  lemma SumStep(nodes: seq<Ast>, current: nat, l: nat, rest: Walked, w: Walked)
    requires 0 < current && SubtreeLen(nodes, current - 1) == Some(l)
    requires w.roots == rest.roots + [current - 1] && w.low == rest.low
    requires AllWalk(nodes, rest.roots) && current - l - rest.low == SumLens(nodes, rest.roots)
    ensures AllWalk(nodes, w.roots) && current - w.low == SumLens(nodes, w.roots)
  {
    SumLensSnoc(nodes, rest.roots, current - 1);
  }

  /** Adding a root at the end adds its size. */
  lemma SumLensSnoc(nodes: seq<Ast>, cs: seq<AstIdx>, c: AstIdx)
    requires AllWalk(nodes, cs) && SubtreeLen(nodes, c).Some?
    ensures AllWalk(nodes, cs + [c])
    ensures SumLens(nodes, cs + [c]) == SumLens(nodes, cs) + SubtreeLen(nodes, c).value
  {
    assert (cs + [c])[..|cs|] == cs;
  }

  /** Each root's subtree ends right where the previous one's begins, and
      the first one begins at the lowest index of the walk. */
  lemma {:induction false} WalkContiguous(nodes: seq<Ast>, current: nat, count: nat, i: nat)
    requires WalkBack(nodes, current, count).Some?
    requires i < count
    ensures var w := WalkBack(nodes, current, count).value;
      SubtreeLen(nodes, w.roots[i]).Some? &&
      w.roots[i] + 1 - SubtreeLen(nodes, w.roots[i]).value == (if i == 0 then w.low else w.roots[i - 1] + 1)
    decreases count
  {
    var l := SubtreeLen(nodes, current - 1).value;
    var rest := WalkBack(nodes, current - l, count - 1).value;
    var w := WalkBack(nodes, current, count).value;
    assert w.roots == rest.roots + [current - 1];
    if i < count - 1 {
      WalkContiguous(nodes, current - l, count - 1, i);
      assert w.roots[i] == rest.roots[i];
      if i > 0 { assert w.roots[i - 1] == rest.roots[i - 1]; }
    } else if i > 0 {
      WalkTop(nodes, current - l, count - 1);
      assert w.roots[i - 1] == rest.roots[i - 1];
    }
  }

  /** The last root of a non-empty walk is the node right below the start. */
  lemma WalkTop(nodes: seq<Ast>, current: nat, count: nat)
    requires count > 0 && WalkBack(nodes, current, count).Some?
    ensures WalkBack(nodes, current, count).value.roots[count - 1] == current - 1
  {
  }

  /** The size equations `len` computes (src/ast/pool.rs:195-216): 1 for an
      atom, 1 + len(body) for a definition, and 1 + len(callee) + the sizes
      of the children for a call. */
  lemma LenFormula(nodes: seq<Ast>, idx: nat)
    requires SubtreeLen(nodes, idx).Some?
    ensures nodes[idx].IsAtomic() ==> SubtreeLen(nodes, idx) == Some(1)
    ensures nodes[idx].FunctionDef? || nodes[idx].Lambda? ==>
      SubtreeLen(nodes, nodes[idx].bodyIdx).Some? &&
      SubtreeLen(nodes, idx).value == 1 + SubtreeLen(nodes, nodes[idx].bodyIdx).value
    ensures nodes[idx].Call? ==>
      var kids := Children(nodes, idx).value;
      SubtreeLen(nodes, nodes[idx].funcIdx).Some? &&
      AllWalk(nodes, kids) &&
      SubtreeLen(nodes, idx).value == 1 + SubtreeLen(nodes, nodes[idx].funcIdx).value + SumLens(nodes, kids)
  {
    if nodes[idx].Call? {
      var f := nodes[idx].funcIdx;
      var start := idx - SubtreeLen(nodes, f).value;
      WalkSum(nodes, start, nodes[idx].childCount, WalkBack(nodes, start, nodes[idx].childCount).value);
    }
  }

  /** Appending nodes never changes the size or walk of an existing node:
      everything `len` reads lies at or below its index. */
  lemma {:induction false} SubtreeLenAppend(nodes: seq<Ast>, more: seq<Ast>, idx: nat)
    requires idx < |nodes|
    ensures SubtreeLen(nodes + more, idx) == SubtreeLen(nodes, idx)
    decreases idx, 1
  {
    assert (nodes + more)[idx] == nodes[idx];
    match nodes[idx]
    case Call(f, n) =>
      if f < idx {
        SubtreeLenAppend(nodes, more, f);
        if SubtreeLen(nodes, f).Some? {
          WalkBackAppend(nodes, more, idx - SubtreeLen(nodes, f).value, n);
        }
        CallAppend(nodes, more, idx);
      }
    case FunctionDef(_, _, b) =>
      if b < idx { SubtreeLenAppend(nodes, more, b); }
    case Lambda(_, b) =>
      if b < idx { SubtreeLenAppend(nodes, more, b); }
    case _ =>
  }

  /** A call's size depends only on its callee's size and its walk. */
  lemma CallAppend(nodes: seq<Ast>, more: seq<Ast>, idx: nat)
    requires idx < |nodes| && nodes[idx].Call? && nodes[idx].funcIdx < idx
    requires SubtreeLen(nodes + more, nodes[idx].funcIdx) == SubtreeLen(nodes, nodes[idx].funcIdx)
    requires SubtreeLen(nodes, nodes[idx].funcIdx).Some? ==>
      var start := idx - SubtreeLen(nodes, nodes[idx].funcIdx).value;
      WalkBack(nodes + more, start, nodes[idx].childCount) == WalkBack(nodes, start, nodes[idx].childCount)
    ensures SubtreeLen(nodes + more, idx) == SubtreeLen(nodes, idx)
  {
    assert (nodes + more)[idx] == nodes[idx];
  }

  lemma {:induction false} WalkBackAppend(nodes: seq<Ast>, more: seq<Ast>, current: nat, count: nat)
    requires current <= |nodes|
    ensures WalkBack(nodes + more, current, count) == WalkBack(nodes, current, count)
    decreases current, 0, count
  {
    if count > 0 && current > 0 {
      SubtreeLenAppend(nodes, more, current - 1);
      var l := SubtreeLen(nodes, current - 1);
      if l.Some? {
        WalkBackAppend(nodes, more, current - l.value, count - 1);
      }
    }
  }

  /** Appending one node keeps the arena walkable iff the new node walks. */
  lemma WalkableAppend(nodes: seq<Ast>, a: Ast)
    requires Walkable(nodes)
    ensures Walkable(nodes + [a]) <==> SubtreeLen(nodes + [a], |nodes|).Some?
  {
    var ext := nodes + [a];
    WalkablePrefix(nodes, a);
    if SubtreeLen(ext, |nodes|).Some? {
      forall i | 0 <= i < |ext|
        ensures SubtreeLen(ext, i).Some?
      {
        if i == |nodes| {
        }
      }
    }
  }

  /** Appending one node leaves every old node walking. */
  lemma WalkablePrefix(nodes: seq<Ast>, a: Ast)
    requires Walkable(nodes)
    ensures forall i :: 0 <= i < |nodes| ==> SubtreeLen(nodes + [a], i).Some?
  {
    forall i | 0 <= i < |nodes|
      ensures SubtreeLen(nodes + [a], i).Some?
    {
      SubtreeLenAppend(nodes, [a], i);
    }
  }
}
