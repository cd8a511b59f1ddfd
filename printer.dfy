/** The pretty-printer (src/ast/pretty_printer.rs): a printer object that
    walks the arena twice, first collecting a name for every parameter of
    every definition and lambda, then appending source text to an output
    string. While it walks a definition or a lambda it switches its
    current function and level, and it restores both on the way out. */
module Printer {
  import opened Syntax
  import opened Arena

  /** `PrintConfig`. */
  datatype PrintConfig = PrintConfig(
    indentIsTab: bool,
    indentSize: nat,
    spacesAroundOperators: bool,
    newlinesAfterFunctions: bool,
    maxLineLength: nat)

  /** `PrintConfig::default`. */
  function DefaultConfig(): (c: PrintConfig)
    ensures c.indentIsTab && c.indentSize == 2
    ensures c.spacesAroundOperators && c.newlinesAfterFunctions
    ensures c.maxLineLength == 80
  {
    PrintConfig(true, 2, true, true, 80)
  }

  // ---------------------------------------------------------------------
  // Decimal text, as `to_string` and `format!("{}")` write integers.

  function Digit(d: nat): (c: char)
    requires d < 10
    ensures '0' <= c <= '9' && c as int - '0' as int == d
  {
    (d + '0' as int) as char
  }

  predicate AllDigits(s: string) {
    forall i :: 0 <= i < |s| ==> '0' <= s[i] <= '9'
  }

  /** The decimal digits of `n`, most significant first, without leading
      zeros. */
  function NatToString(n: nat): (s: string)
    ensures |s| >= 1 && AllDigits(s)
    decreases n
  {
    if n < 10 then [Digit(n)] else NatToString(n / 10) + [Digit(n % 10)]
  }

  /** `i64::to_string`: a minus sign, then the digits of the magnitude. */
  function IntToString(i: int): (s: string)
    ensures |s| >= 1
    ensures s[0] == '-' <==> i < 0
  {
    if i < 0 then "-" + NatToString(-i) else NatToString(i)
  }

  /** The value of a string of decimal digits. */
  function ParseNat(s: string): nat
    requires AllDigits(s)
    decreases |s|
  {
    if |s| == 0 then 0 else ParseNat(s[..|s| - 1]) * 10 + (s[|s| - 1] as int - '0' as int)
  }

  /** The value of an optional minus sign followed by decimal digits. */
  function ParseInt(s: string): int
    requires |s| >= 1 && (if s[0] == '-' then AllDigits(s[1..]) else AllDigits(s))
  {
    if s[0] == '-' then -(ParseNat(s[1..]) as int) else ParseNat(s) as int
  }

  lemma {:induction false} NatRoundTrip(n: nat)
    ensures ParseNat(NatToString(n)) == n
    decreases n
  {
    if n >= 10 {
      NatRoundTrip(n / 10);
      var s := NatToString(n);
      assert s[..|s| - 1] == NatToString(n / 10);
    }
  }

  /** Printing an integer loses nothing: the text reads back as the value. */
  lemma IntRoundTrip(i: int)
    ensures var s := IntToString(i);
      (if s[0] == '-' then AllDigits(s[1..]) else AllDigits(s)) && ParseInt(s) == i
  {
    if i < 0 {
      NatRoundTrip(-i);
      assert IntToString(i)[1..] == NatToString(-i);
    } else {
      NatRoundTrip(i);
    }
  }

  /** Distinct numbers print differently. */
  lemma NatToStringInjective(a: nat, b: nat)
    requires NatToString(a) == NatToString(b)
    ensures a == b
  {
    NatRoundTrip(a);
    NatRoundTrip(b);
  }

  // ---------------------------------------------------------------------
  // Parameter names.

  /** The generic name of parameter `offset` at lambda depth `level`:
      `p{offset}` at the definition's own level, `l{level}p{offset}` below. */
  function Fallback(level: nat, offset: nat): string {
    if level == 0 then "p" + NatToString(offset)
    else "l" + NatToString(level) + "p" + NatToString(offset)
  }

  /** Digits followed by a `p` determine where the digits end. */
  lemma DigitsThenP(a: string, x: string, c: string, y: string)
    requires AllDigits(a) && AllDigits(c)
    requires a + "p" + x == c + "p" + y
    ensures a == c && x == y
  {
    var l, r := a + "p" + x, c + "p" + y;
    assert l[|a|] == 'p' && r[|c|] == 'p';
    assert forall i :: 0 <= i < |a| ==> l[i] == a[i];
    assert forall i :: 0 <= i < |c| ==> r[i] == c[i];
    assert |a| == |c|;
    assert a == l[..|a|] && c == r[..|c|];
    assert x == l[|a| + 1..] && y == r[|c| + 1..];
  }

  /** The first letter of a generic name tells its level apart. */
  lemma FallbackHead(level: nat, offset: nat)
    ensures Fallback(level, offset)[0] == if level == 0 then 'p' else 'l'
  {
  }

  /** Different parameters get different generic names. */
  lemma FallbackInjective(level: nat, offset: nat, level': nat, offset': nat)
    requires Fallback(level, offset) == Fallback(level', offset')
    ensures level == level' && offset == offset'
  {
    var s := Fallback(level, offset);
    FallbackHead(level, offset);
    FallbackHead(level', offset');
    if level == 0 {
      assert NatToString(offset) == s[1..] == NatToString(offset');
      NatToStringInjective(offset, offset');
    } else {
      assert s[1..] == NatToString(level) + "p" + NatToString(offset);
      assert s[1..] == NatToString(level') + "p" + NatToString(offset');
      DigitsThenP(NatToString(level), NatToString(offset), NatToString(level'), NatToString(offset'));
      NatToStringInjective(level, level');
      NatToStringInjective(offset, offset');
    }
  }

  /** Appending piece by piece to `output` builds `output` followed by the
      concatenated pieces. */
  lemma Appended(out: string, output: string, text: string, piece: string)
    requires out == output + text
    ensures out + piece == output + (text + piece)
  {
  }

  /** A key of the name table: function, lambda level, parameter offset. */
  type Key = (NameIdx, nat, nat)

  /** Every collected name is the generic name of its key. */
  ghost predicate Faithful(names: map<Key, string>) {
    forall k :: k in names ==> names[k] == Fallback(k.1, k.2)
  }

  /** `get_param_name`: the collected name of the current function's
      parameter, or else the generic one. */
  function ParamNameIn(names: map<Key, string>, current: Option<NameIdx>, level: nat, offset: nat): (s: string)
    ensures Faithful(names) ==> s == Fallback(level, offset)
  {
    if current.Some? && (current.value, level, offset) in names then names[(current.value, level, offset)]
    else Fallback(level, offset)
  }

  /** The table after the insert loop for `count` parameters of `f` at
      `level`. */
  function Named(names: map<Key, string>, f: NameIdx, level: nat, count: nat): (r: map<Key, string>)
    ensures forall k :: k in r <==> k in names || (k.0 == f && k.1 == level && k.2 < count)
    ensures Faithful(names) ==> Faithful(r)
    decreases count
  {
    if count == 0 then names else Named(names, f, level, count - 1)[(f, level, count - 1) := Fallback(level, count - 1)]
  }

  /** `collect_param_names` from `idx` with current function `current` at
      level `level`. A lambda outside any definition adds nothing and is
      not entered. */
  function Collected(nodes: seq<Ast>, names: map<Key, string>, current: Option<NameIdx>, level: nat, idx: AstIdx): (r: map<Key, string>)
    requires Walkable(nodes) && idx < |nodes|
    ensures Faithful(names) ==> Faithful(r)
    decreases idx + 1, 0
  {
    BelowParent(nodes, idx);
    match nodes[idx]
    case FunctionDef(n, paramCount, b) =>
      Collected(nodes, Named(names, n, 0, paramCount), Some(n), 0, b)
    case Lambda(paramCount, b) =>
      if current.None? then names
      else Collected(nodes, Named(names, current.value, level + 1, paramCount), current, level + 1, b)
    case Call(f, _) =>
      CollectedSeq(nodes, Collected(nodes, names, current, level, f), current, level, Children(nodes, idx).value, idx)
    case _ => names
  }

  /** The children loop of `collect_param_names`. */
  function CollectedSeq(nodes: seq<Ast>, names: map<Key, string>, current: Option<NameIdx>, level: nat,
                        cs: seq<AstIdx>, bound: nat): (r: map<Key, string>)
    requires Walkable(nodes)
    requires forall i :: 0 <= i < |cs| ==> cs[i] < bound && cs[i] < |nodes|
    ensures Faithful(names) ==> Faithful(r)
    decreases bound, |cs|
  {
    if |cs| == 0 then names
    else Collected(nodes, CollectedSeq(nodes, names, current, level, cs[..|cs| - 1], bound), current, level, cs[|cs| - 1])
  }

  // ---------------------------------------------------------------------
  // The printed text.

  /** `c` repeated `n` times. */
  function Repeat(c: char, n: nat): (s: string)
    ensures |s| == n && forall i :: 0 <= i < n ==> s[i] == c
  {
    if n == 0 then "" else Repeat(c, n - 1) + [c]
  }

  /** The indentation of level `n`: `n` tabs, or `n * indentSize` spaces. */
  function Indent(config: PrintConfig, n: nat): (s: string)
    ensures |s| == if config.indentIsTab then n else n * config.indentSize
    ensures forall i :: 0 <= i < |s| ==> s[i] == if config.indentIsTab then '\t' else ' '
  {
    if config.indentIsTab then Repeat('\t', n) else Repeat(' ', n * config.indentSize)
  }

  /** The infix operator of a binary primitive call. */
  function OpText(config: PrintConfig, p: Primitive): (s: string)
    ensures s == if config.spacesAroundOperators then [' '] + OpChar(p) + [' '] else OpChar(p)
  {
    match p
    case Add => if config.spacesAroundOperators then " + " else "+"
    case Multiply => if config.spacesAroundOperators then " * " else "*"
  }

  function OpChar(p: Primitive): string {
    if p == Add then "+" else "*"
  }

  /** The names of the first `count` parameters at `level`, joined by
      `sep`. */
  function ParamList(names: map<Key, string>, current: Option<NameIdx>, level: nat, count: nat, sep: string): string
    decreases count
  {
    if count == 0 then ""
    else ParamList(names, current, level, count - 1, sep) + (if count - 1 > 0 then sep else "") + ParamNameIn(names, current, level, count - 1)
  }

  /** `print_node_to_string` of `idx` at indent level `indentLevel`, with
      name table `names`, current function `current` and level `level`. */
  function Printed(nodes: seq<Ast>, strings: seq<string>, config: PrintConfig, names: map<Key, string>,
                   current: Option<NameIdx>, level: nat, idx: AstIdx, indentLevel: nat): string
    requires Walkable(nodes) && NamesInterned(nodes, |strings|) && idx < |nodes|
    decreases idx + 1, 0
  {
    BelowParent(nodes, idx);
    match nodes[idx]
    case Integer(v) => IntToString(v)
    case ParamRef(_, l, offset) =>
      if current.Some? then ParamNameIn(names, current, l, offset) else "p" + NatToString(offset)
    case PrimitiveFunc(p) => PrimitiveName(p)
    case UserFunc(n) => strings[n]
    case Lambda(paramCount, b) =>
      LambdaHead(names, current, level, paramCount)
      + Printed(nodes, strings, config, names, current, level + 1, b, indentLevel + 1) + " }"
    case Call(f, _) =>
      var cs := Children(nodes, idx).value;
      if nodes[f].PrimitiveFunc? then
        if |cs| != 2 then
          PrimitiveName(nodes[f].func) + "(" + PrintedArgs(nodes, strings, config, names, current, level, cs, idx, indentLevel) + ")"
        else
          "(" + Printed(nodes, strings, config, names, current, level, cs[0], indentLevel)
          + OpText(config, nodes[f].func)
          + Printed(nodes, strings, config, names, current, level, cs[1], indentLevel) + ")"
      else
        Printed(nodes, strings, config, names, current, level, f, indentLevel)
        + "(" + PrintedArgs(nodes, strings, config, names, current, level, cs, idx, indentLevel) + ")"
    case FunctionDef(n, paramCount, b) =>
      DefHead(strings, config, names, n, paramCount, indentLevel)
      + Printed(nodes, strings, config, names, Some(n), 0, b, indentLevel + 1)
      + DefTail(config, indentLevel)
  }

  /** Arguments, printed in order and joined by `", "`. */
  function PrintedArgs(nodes: seq<Ast>, strings: seq<string>, config: PrintConfig, names: map<Key, string>,
                       current: Option<NameIdx>, level: nat, cs: seq<AstIdx>, bound: nat, indentLevel: nat): string
    requires Walkable(nodes) && NamesInterned(nodes, |strings|)
    requires forall i :: 0 <= i < |cs| ==> cs[i] < bound && cs[i] < |nodes|
    decreases bound, |cs|
  {
    if |cs| == 0 then ""
    else
      PrintedArgs(nodes, strings, config, names, current, level, cs[..|cs| - 1], bound, indentLevel)
      + (if |cs| - 1 > 0 then ", " else "")
      + Printed(nodes, strings, config, names, current, level, cs[|cs| - 1], indentLevel)
  }

  /** The text of a node as printed on its own: what `print_node` returns. */
  function Rendered(nodes: seq<Ast>, strings: seq<string>, config: PrintConfig, idx: AstIdx): string
    requires Walkable(nodes) && NamesInterned(nodes, |strings|) && idx < |nodes|
  {
    Printed(nodes, strings, config, map[], None, 0, idx, 0)
  }

  /** What separates printed definitions. */
  function Separator(config: PrintConfig): (s: string)
    ensures s == if config.newlinesAfterFunctions then "\n\n" else "\n"
  {
    if config.newlinesAfterFunctions then "\n\n" else "\n"
  }

  /** The definitions of `order`, each rendered and followed by the
      separator. */
  function AllRendered(nodes: seq<Ast>, strings: seq<string>, config: PrintConfig, defs: map<NameIdx, AstIdx>, order: seq<NameIdx>): string
    requires Walkable(nodes) && NamesInterned(nodes, |strings|)
    requires forall i :: 0 <= i < |order| ==> order[i] in defs && defs[order[i]] < |nodes|
    decreases |order|
  {
    if |order| == 0 then ""
    else
      var last := defs[order[|order| - 1]];
      AllRendered(nodes, strings, config, defs, order[..|order| - 1]) + Rendered(nodes, strings, config, last) + Separator(config)
  }

  // ---------------------------------------------------------------------
  // Collected names never change what is printed.

  lemma ParamListFaithful(names: map<Key, string>, names': map<Key, string>, current: Option<NameIdx>, current': Option<NameIdx>,
                          level: nat, count: nat, sep: string)
    requires Faithful(names) && Faithful(names')
    ensures ParamList(names, current, level, count, sep) == ParamList(names', current', level, count, sep)
    decreases count
  {
    if count > 0 {
      ParamListFaithful(names, names', current, current', level, count - 1, sep);
    }
  }

  /** A parameter's printed name depends only on its level and offset, so
      any two faithful name tables print a node the same way. */
  lemma {:induction false} PrintedFaithful(nodes: seq<Ast>, strings: seq<string>, config: PrintConfig,
                                           names: map<Key, string>, names': map<Key, string>,
                                           current: Option<NameIdx>, level: nat, idx: AstIdx, indentLevel: nat)
    requires Walkable(nodes) && NamesInterned(nodes, |strings|) && idx < |nodes|
    requires Faithful(names) && Faithful(names')
    ensures Printed(nodes, strings, config, names, current, level, idx, indentLevel) ==
            Printed(nodes, strings, config, names', current, level, idx, indentLevel)
    decreases idx + 1, 0
  {
    BelowParent(nodes, idx);
    match nodes[idx]
    case Lambda(paramCount, b) =>
      ParamListFaithful(names, names', current, current, level + 1, paramCount, " ");
      ParamListFaithful(names, names', None, None, 0, paramCount, " ");
      PrintedFaithful(nodes, strings, config, names, names', current, level + 1, b, indentLevel + 1);
    case Call(f, _) =>
      var cs := Children(nodes, idx).value;
      PrintedFaithful(nodes, strings, config, names, names', current, level, f, indentLevel);
      PrintedArgsFaithful(nodes, strings, config, names, names', current, level, cs, idx, indentLevel);
      if |cs| == 2 {
        PrintedFaithful(nodes, strings, config, names, names', current, level, cs[0], indentLevel);
        PrintedFaithful(nodes, strings, config, names, names', current, level, cs[1], indentLevel);
      }
    case FunctionDef(n, paramCount, b) =>
      ParamListFaithful(names, names', Some(n), Some(n), 0, paramCount, ", ");
      PrintedFaithful(nodes, strings, config, names, names', Some(n), 0, b, indentLevel + 1);
    case _ =>
  }

  lemma {:induction false} PrintedArgsFaithful(nodes: seq<Ast>, strings: seq<string>, config: PrintConfig,
                                               names: map<Key, string>, names': map<Key, string>,
                                               current: Option<NameIdx>, level: nat, cs: seq<AstIdx>, bound: nat, indentLevel: nat)
    requires Walkable(nodes) && NamesInterned(nodes, |strings|)
    requires forall i :: 0 <= i < |cs| ==> cs[i] < bound && cs[i] < |nodes|
    requires Faithful(names) && Faithful(names')
    ensures PrintedArgs(nodes, strings, config, names, current, level, cs, bound, indentLevel) ==
            PrintedArgs(nodes, strings, config, names', current, level, cs, bound, indentLevel)
    decreases bound, |cs|
  {
    if |cs| > 0 {
      PrintedArgsFaithful(nodes, strings, config, names, names', current, level, cs[..|cs| - 1], bound, indentLevel);
      PrintedFaithful(nodes, strings, config, names, names', current, level, cs[|cs| - 1], indentLevel);
    }
  }

  /** The text a lambda prints before its body. */
  function LambdaHead(names: map<Key, string>, current: Option<NameIdx>, level: nat, paramCount: nat): string {
    "lambda "
      + (if current.Some? then ParamList(names, current, level + 1, paramCount, " ")
         else ParamList(names, None, 0, paramCount, " "))
      + " { "
  }

  /** How a lambda prints: its parameter list, then its body one indent
      level and one lambda level further in. */
  lemma LambdaPrinted(nodes: seq<Ast>, strings: seq<string>, config: PrintConfig, names: map<Key, string>,
                      current: Option<NameIdx>, level: nat, idx: AstIdx, indentLevel: nat)
    requires Walkable(nodes) && NamesInterned(nodes, |strings|) && idx < |nodes| && nodes[idx].Lambda?
    ensures nodes[idx].bodyIdx < idx
    ensures Printed(nodes, strings, config, names, current, level, idx, indentLevel)
      == LambdaHead(names, current, level, nodes[idx].paramCount)
         + Printed(nodes, strings, config, names, current, level + 1, nodes[idx].bodyIdx, indentLevel + 1) + " }"
  {
    BelowParent(nodes, idx);
  }

  /** The lambda arm of the printer, as text appended to `output`: the
      head, then the body, then the closing brace. */
  lemma LambdaDone(nodes: seq<Ast>, strings: seq<string>, config: PrintConfig, names: map<Key, string>,
                   current: Option<NameIdx>, level: nat, idx: AstIdx, indentLevel: nat,
                   output: string, head: string, body: string)
    requires Walkable(nodes) && NamesInterned(nodes, |strings|) && idx < |nodes| && nodes[idx].Lambda?
    requires nodes[idx].bodyIdx < idx
    requires head == output + LambdaHead(names, current, level, nodes[idx].paramCount)
    requires body == head + Printed(nodes, strings, config, names, current, level + 1, nodes[idx].bodyIdx, indentLevel + 1)
    ensures body + " }" == output + Printed(nodes, strings, config, names, current, level, idx, indentLevel)
  {
    LambdaPrinted(nodes, strings, config, names, current, level, idx, indentLevel);
    Regroup(output, LambdaHead(names, current, level, nodes[idx].paramCount),
            Printed(nodes, strings, config, names, current, level + 1, nodes[idx].bodyIdx, indentLevel + 1), " }");
  }

  /** Concatenation regrouped, over plain strings. */
  lemma Regroup(output: string, head: string, inner: string, tail: string)
    ensures output + head + inner + tail == output + (head + inner + tail)
  {
  }

  /** How a definition prints: header, body one indent level in, closing
      brace at the definition's own indent. */
  lemma DefinitionPrinted(nodes: seq<Ast>, strings: seq<string>, config: PrintConfig, names: map<Key, string>,
                          current: Option<NameIdx>, level: nat, idx: AstIdx, indentLevel: nat)
    requires Walkable(nodes) && NamesInterned(nodes, |strings|) && idx < |nodes| && nodes[idx].FunctionDef?
    ensures nodes[idx].bodyIdx < idx && nodes[idx].nameIdx < |strings|
    ensures Printed(nodes, strings, config, names, current, level, idx, indentLevel)
      == DefHead(strings, config, names, nodes[idx].nameIdx, nodes[idx].paramCount, indentLevel)
         + Printed(nodes, strings, config, names, Some(nodes[idx].nameIdx), 0, nodes[idx].bodyIdx, indentLevel + 1)
         + DefTail(config, indentLevel)
  {
    BelowParent(nodes, idx);
  }

  /** The text a definition prints before its body: the indent, `fn`, the
      name, the parameter list and the opening brace, then the body's
      indent on the next line. */
  function DefHead(strings: seq<string>, config: PrintConfig, names: map<Key, string>,
                   n: NameIdx, paramCount: nat, indentLevel: nat): string
    requires n < |strings|
  {
    Indent(config, indentLevel) + "fn " + strings[n] + "("
    + ParamList(names, Some(n), 0, paramCount, ", ") + ") {\n"
    + Indent(config, indentLevel + 1)
  }

  /** The text a definition prints after its body. */
  function DefTail(config: PrintConfig, indentLevel: nat): string {
    "\n" + Indent(config, indentLevel) + "}"
  }

  /** The definition arm of the printer, as text appended to `output`. */
  lemma DefinitionDone(nodes: seq<Ast>, strings: seq<string>, config: PrintConfig, names: map<Key, string>,
                       current: Option<NameIdx>, level: nat, idx: AstIdx, indentLevel: nat,
                       output: string, head: string, body: string)
    requires Walkable(nodes) && NamesInterned(nodes, |strings|) && idx < |nodes| && nodes[idx].FunctionDef?
    requires nodes[idx].bodyIdx < idx && nodes[idx].nameIdx < |strings|
    requires head == output + DefHead(strings, config, names, nodes[idx].nameIdx, nodes[idx].paramCount, indentLevel)
    requires body == head + Printed(nodes, strings, config, names, Some(nodes[idx].nameIdx), 0, nodes[idx].bodyIdx, indentLevel + 1)
    ensures body + DefTail(config, indentLevel) == output + Printed(nodes, strings, config, names, current, level, idx, indentLevel)
  {
    DefinitionPrinted(nodes, strings, config, names, current, level, idx, indentLevel);
    Regroup(output, DefHead(strings, config, names, nodes[idx].nameIdx, nodes[idx].paramCount, indentLevel),
            Printed(nodes, strings, config, names, Some(nodes[idx].nameIdx), 0, nodes[idx].bodyIdx, indentLevel + 1),
            DefTail(config, indentLevel));
  }

  /** `PrettyPrinter`: the arena and string pool it reads, its
      configuration, the collected names, and the current function and
      lambda level. */
  class PrettyPrinter {
    const nodes: seq<Ast>
    const strings: seq<string>
    const config: PrintConfig
    var paramNames: map<Key, string>
    var currentFunction: Option<NameIdx>
    var currentLevel: nat

    /** `PrettyPrinter::new`: the default configuration. */
    constructor (nodes: seq<Ast>, strings: seq<string>)
      ensures this.nodes == nodes && this.strings == strings && config == DefaultConfig()
      ensures paramNames == map[] && currentFunction == None && currentLevel == 0
    {
      this.nodes := nodes;
      this.strings := strings;
      config := DefaultConfig();
      paramNames := map[];
      currentFunction := None;
      currentLevel := 0;
    }

    /** `PrettyPrinter::with_config`. */
    constructor WithConfig(nodes: seq<Ast>, strings: seq<string>, config: PrintConfig)
      ensures this.nodes == nodes && this.strings == strings && this.config == config
      ensures paramNames == map[] && currentFunction == None && currentLevel == 0
    {
      this.nodes := nodes;
      this.strings := strings;
      this.config := config;
      paramNames := map[];
      currentFunction := None;
      currentLevel := 0;
    }

    /** `get_param_name`. Like the source, it looks the name up under the
        current function and ignores `nameIdx`. */
    function GetParamName(nameIdx: NameIdx, level: nat, offset: nat): (s: string)
      reads this
      ensures Faithful(paramNames) ==> s == Fallback(level, offset)
    {
      ParamNameIn(paramNames, currentFunction, level, offset)
    }

    /** The insert loop of a definition or lambda: `count` generic names
        for `f` at `level`. */
    method NameParams(f: NameIdx, level: nat, count: nat)
      modifies this
      ensures paramNames == Named(old(paramNames), f, level, count)
      ensures currentFunction == old(currentFunction) && currentLevel == old(currentLevel)
    {
      for i := 0 to count
        invariant paramNames == Named(old(paramNames), f, level, i)
        invariant currentFunction == old(currentFunction) && currentLevel == old(currentLevel)
      {
        var name := if level == 0 then "p" + NatToString(i) else "l" + NatToString(level) + "p" + NatToString(i);
        paramNames := paramNames[(f, level, i) := name];
      }
    }

    /** `collect_param_names`: the first pass. */
    method CollectParamNames(idx: AstIdx)
      requires Walkable(nodes) && idx < |nodes|
      modifies this
      ensures paramNames == Collected(nodes, old(paramNames), old(currentFunction), old(currentLevel), idx)
      ensures currentFunction == old(currentFunction) && currentLevel == old(currentLevel)
      decreases idx
    {
      BelowParent(nodes, idx);
      match nodes[idx] {
        case FunctionDef(n, paramCount, b) =>
          var prevFunction, prevLevel := currentFunction, currentLevel;
          currentFunction, currentLevel := Some(n), 0;
          NameParams(n, 0, paramCount);
          CollectParamNames(b);
          currentFunction, currentLevel := prevFunction, prevLevel;
        case Lambda(paramCount, b) =>
          if currentFunction.Some? {
            var newLevel := currentLevel + 1;
            NameParams(currentFunction.value, newLevel, paramCount);
            var prevLevel := currentLevel;
            currentLevel := newLevel;
            CollectParamNames(b);
            currentLevel := prevLevel;
          }
        case Call(f, _) =>
          CollectParamNames(f);
          var children := Children(nodes, idx).value;
          ghost var start := paramNames;
          for i := 0 to |children|
            invariant paramNames == CollectedSeq(nodes, start, currentFunction, currentLevel, children[..i], idx)
            invariant currentFunction == old(currentFunction) && currentLevel == old(currentLevel)
          {
            assert children[..i + 1][..i] == children[..i];
            CollectParamNames(children[i]);
          }
          assert children[..|children|] == children;
        case _ =>
      }
    }

    /** The parameter loop of a definition or lambda header. */
    method PrintParams(level: nat, count: nat, sep: string, output: string) returns (out: string)
      ensures out == output + ParamList(paramNames, currentFunction, level, count, sep)
    {
      out := output;
      for i := 0 to count
        invariant out == output + ParamList(paramNames, currentFunction, level, i, sep)
      {
        var before := ParamList(paramNames, currentFunction, level, i, sep);
        if i > 0 {
          Appended(out, output, before, sep);
          out := out + sep;
          before := before + sep;
        }
        var name := GetParamName(0, level, i);
        Appended(out, output, before, name);
        out := out + name;
      }
    }

    /** The parameter loop of a lambda outside any definition. */
    method PrintPlainParams(count: nat, output: string) returns (out: string)
      ensures out == output + ParamList(paramNames, None, 0, count, " ")
    {
      out := output;
      for i := 0 to count
        invariant out == output + ParamList(paramNames, None, 0, i, " ")
      {
        var before := ParamList(paramNames, None, 0, i, " ");
        if i > 0 {
          Appended(out, output, before, " ");
          out := out + " ";
          before := before + " ";
        }
        var name := "p" + NatToString(i);
        assert name == ParamNameIn(paramNames, None, 0, i);
        Appended(out, output, before, name);
        out := out + name;
      }
    }

    /** `print_node_to_string`: the second pass, appending to `output`. */
    method PrintNodeToString(idx: AstIdx, indentLevel: nat, output: string) returns (out: string)
      requires Walkable(nodes) && NamesInterned(nodes, |strings|) && idx < |nodes|
      modifies this
      ensures paramNames == old(paramNames) && currentFunction == old(currentFunction) && currentLevel == old(currentLevel)
      ensures out == output + Printed(nodes, strings, config, paramNames, currentFunction, currentLevel, idx, indentLevel)
      decreases idx, 2
    {
      BelowParent(nodes, idx);
      match nodes[idx] {
        case Integer(v) => out := output + IntToString(v);
        case ParamRef(_, l, offset) =>
          if currentFunction.Some? {
            out := output + GetParamName(currentFunction.value, l, offset);
          } else {
            out := output + ("p" + NatToString(offset));
          }
        case PrimitiveFunc(p) => out := output + PrimitiveName(p);
        case UserFunc(n) => out := output + strings[n];
        case Lambda(_, _) => out := PrintLambda(idx, indentLevel, output);
        case Call(_, _) => out := PrintCall(idx, indentLevel, output);
        case FunctionDef(_, _, _) => out := PrintDefinition(idx, indentLevel, output);
      }
    }

    /** The lambda arm of `print_node_to_string`. */
    method PrintLambda(idx: AstIdx, indentLevel: nat, output: string) returns (out: string)
      requires Walkable(nodes) && NamesInterned(nodes, |strings|) && idx < |nodes| && nodes[idx].Lambda?
      modifies this
      ensures paramNames == old(paramNames) && currentFunction == old(currentFunction) && currentLevel == old(currentLevel)
      ensures out == output + Printed(nodes, strings, config, paramNames, currentFunction, currentLevel, idx, indentLevel)
      decreases idx, 1
    {
      ghost var names, current, level := paramNames, currentFunction, currentLevel;
      var head := PrintLambdaHead(nodes[idx].paramCount, output);
      var prevLevel := currentLevel;
      currentLevel := currentLevel + 1;
      BelowParent(nodes, idx);
      var body := PrintNodeToString(nodes[idx].bodyIdx, indentLevel + 1, head);
      currentLevel := prevLevel;
      LambdaDone(nodes, strings, config, names, current, level, idx, indentLevel, output, head, body);
      out := body + " }";
    }

    /** The head of a lambda: its parameters one level in, then the
        opening brace. */
    method PrintLambdaHead(paramCount: nat, output: string) returns (out: string)
      ensures out == output + LambdaHead(paramNames, currentFunction, currentLevel, paramCount)
    {
      out := output + "lambda ";
      ghost var text := "lambda ";
      var mark := out;
      ghost var params;
      if currentFunction.Some? {
        out := PrintParams(currentLevel + 1, paramCount, " ", out);
        params := ParamList(paramNames, currentFunction, currentLevel + 1, paramCount, " ");
      } else {
        out := PrintPlainParams(paramCount, out);
        params := ParamList(paramNames, None, 0, paramCount, " ");
      }
      Appended(mark, output, text, params);
      text := text + params;
      Appended(out, output, text, " { ");
      out := out + " { ";
    }

    /** The argument loop of a call: the arguments, joined by `", "`. */
    method PrintArgs(cs: seq<AstIdx>, bound: nat, indentLevel: nat, output: string) returns (out: string)
      requires Walkable(nodes) && NamesInterned(nodes, |strings|)
      requires forall i :: 0 <= i < |cs| ==> cs[i] < bound && cs[i] < |nodes|
      modifies this
      ensures paramNames == old(paramNames) && currentFunction == old(currentFunction) && currentLevel == old(currentLevel)
      ensures out == output + PrintedArgs(nodes, strings, config, paramNames, currentFunction, currentLevel, cs, bound, indentLevel)
      decreases bound, 0
    {
      out := output;
      for i := 0 to |cs|
        invariant paramNames == old(paramNames) && currentFunction == old(currentFunction) && currentLevel == old(currentLevel)
        invariant out == output + PrintedArgs(nodes, strings, config, paramNames, currentFunction, currentLevel, cs[..i], bound, indentLevel)
      {
        assert cs[..i + 1][..i] == cs[..i];
        ghost var text := PrintedArgs(nodes, strings, config, paramNames, currentFunction, currentLevel, cs[..i], bound, indentLevel);
        if i > 0 {
          Appended(out, output, text, ", ");
          out, text := out + ", ", text + ", ";
        }
        var mark := out;
        out := PrintNodeToString(cs[i], indentLevel, out);
        Appended(mark, output, text, Printed(nodes, strings, config, paramNames, currentFunction, currentLevel, cs[i], indentLevel));
      }
      assert cs[..|cs|] == cs;
    }

    /** The call arm of `print_node_to_string`: a primitive with two
        arguments prints infix, any other call prints its callee and the
        parenthesised arguments. */
    method PrintCall(idx: AstIdx, indentLevel: nat, output: string) returns (out: string)
      requires Walkable(nodes) && NamesInterned(nodes, |strings|) && idx < |nodes| && nodes[idx].Call?
      modifies this
      ensures paramNames == old(paramNames) && currentFunction == old(currentFunction) && currentLevel == old(currentLevel)
      ensures out == output + Printed(nodes, strings, config, paramNames, currentFunction, currentLevel, idx, indentLevel)
      decreases idx, 1
    {
      BelowParent(nodes, idx);
      var f := nodes[idx].funcIdx;
      var children := Children(nodes, idx).value;
      ghost var text;
      var mark;
      if nodes[f].PrimitiveFunc? {
        var func := nodes[f].func;
        if |children| != 2 {
          out, text := output + PrimitiveName(func), PrimitiveName(func);
          Appended(out, output, text, "(");
          out, text := out + "(", text + "(";
          mark := out;
          out := PrintArgs(children, idx, indentLevel, out);
          Appended(mark, output, text, PrintedArgs(nodes, strings, config, paramNames, currentFunction, currentLevel, children, idx, indentLevel));
          text := text + PrintedArgs(nodes, strings, config, paramNames, currentFunction, currentLevel, children, idx, indentLevel);
        } else {
          out, text := output + "(", "(";
          mark := out;
          out := PrintNodeToString(children[0], indentLevel, out);
          Appended(mark, output, text, Printed(nodes, strings, config, paramNames, currentFunction, currentLevel, children[0], indentLevel));
          text := text + Printed(nodes, strings, config, paramNames, currentFunction, currentLevel, children[0], indentLevel);
          Appended(out, output, text, OpText(config, func));
          out, text := out + OpText(config, func), text + OpText(config, func);
          mark := out;
          out := PrintNodeToString(children[1], indentLevel, out);
          Appended(mark, output, text, Printed(nodes, strings, config, paramNames, currentFunction, currentLevel, children[1], indentLevel));
          text := text + Printed(nodes, strings, config, paramNames, currentFunction, currentLevel, children[1], indentLevel);
        }
      } else {
        out := PrintNodeToString(f, indentLevel, output);
        text := Printed(nodes, strings, config, paramNames, currentFunction, currentLevel, f, indentLevel);
        Appended(out, output, text, "(");
        out, text := out + "(", text + "(";
        mark := out;
        out := PrintArgs(children, idx, indentLevel, out);
        Appended(mark, output, text, PrintedArgs(nodes, strings, config, paramNames, currentFunction, currentLevel, children, idx, indentLevel));
        text := text + PrintedArgs(nodes, strings, config, paramNames, currentFunction, currentLevel, children, idx, indentLevel);
      }
      Appended(out, output, text, ")");
      out, text := out + ")", text + ")";
      assert text == Printed(nodes, strings, config, paramNames, currentFunction, currentLevel, idx, indentLevel);
    }

    /** The definition arm of `print_node_to_string`. */
    method PrintDefinition(idx: AstIdx, indentLevel: nat, output: string) returns (out: string)
      requires Walkable(nodes) && NamesInterned(nodes, |strings|) && idx < |nodes| && nodes[idx].FunctionDef?
      modifies this
      ensures paramNames == old(paramNames) && currentFunction == old(currentFunction) && currentLevel == old(currentLevel)
      ensures out == output + Printed(nodes, strings, config, paramNames, currentFunction, currentLevel, idx, indentLevel)
      decreases idx, 1
    {
      ghost var names, current, level := paramNames, currentFunction, currentLevel;
      var n, b := nodes[idx].nameIdx, nodes[idx].bodyIdx;
      BelowParent(nodes, idx);
      var prevFunction, prevLevel := currentFunction, currentLevel;
      currentFunction, currentLevel := Some(n), 0;
      var head := PrintDefinitionHead(nodes[idx].paramCount, indentLevel, output);
      var body := PrintNodeToString(b, indentLevel + 1, head);
      currentFunction, currentLevel := prevFunction, prevLevel;
      DefinitionDone(nodes, strings, config, names, current, level, idx, indentLevel, output, head, body);
      out := body + DefTail(config, indentLevel);
    }

    /** The head of a definition, printed once `currentFunction` names it. */
    method PrintDefinitionHead(paramCount: nat, indentLevel: nat, output: string) returns (out: string)
      requires currentFunction.Some? && currentFunction.value < |strings|
      ensures out == output + DefHead(strings, config, paramNames, currentFunction.value, paramCount, indentLevel)
    {
      var n := currentFunction.value;
      var indent := Indent(config, indentLevel);
      out := output + indent;
      ghost var text := indent;
      Appended(out, output, text, "fn ");
      out, text := out + "fn ", text + "fn ";
      Appended(out, output, text, strings[n]);
      out, text := out + strings[n], text + strings[n];
      Appended(out, output, text, "(");
      out, text := out + "(", text + "(";
      var mark := out;
      out := PrintParams(0, paramCount, ", ", out);
      ghost var params := ParamList(paramNames, Some(n), 0, paramCount, ", ");
      Appended(mark, output, text, params);
      text := text + params;
      Appended(out, output, text, ") {\n");
      out, text := out + ") {\n", text + ") {\n";
      var inner := Indent(config, indentLevel + 1);
      Appended(out, output, text, inner);
      out := out + inner;
    }

    /** `print_node`: a fresh printer with this configuration collects the
        names under `idx`, then prints it. */
    method PrintNode(idx: AstIdx) returns (s: string)
      requires Walkable(nodes) && NamesInterned(nodes, |strings|) && idx < |nodes|
      ensures s == Rendered(nodes, strings, config, idx)
    {
      var printer := new PrettyPrinter.WithConfig(nodes, strings, config);
      printer.CollectParamNames(idx);
      s := printer.PrintNodeToString(idx, 0, "");
      PrintedFaithful(nodes, strings, config, printer.paramNames, map[], None, 0, idx, 0);
    }

    /** `print_all_functions`: a fresh printer collects the names of every
        definition, then prints each, in `order`, followed by the
        separator. `order` is the iteration order of `function_defs`. */
    method PrintAllFunctions(defs: map<NameIdx, AstIdx>, order: seq<NameIdx>) returns (s: string)
      requires Walkable(nodes) && NamesInterned(nodes, |strings|)
      requires forall i :: 0 <= i < |order| ==> order[i] in defs && defs[order[i]] < |nodes|
      ensures s == AllRendered(nodes, strings, config, defs, order)
    {
      var printer := new PrettyPrinter.WithConfig(nodes, strings, config);
      for i := 0 to |order|
        invariant printer.nodes == nodes && printer.strings == strings && printer.config == config
        invariant Faithful(printer.paramNames)
        invariant printer.currentFunction == None && printer.currentLevel == 0
      {
        printer.CollectParamNames(defs[order[i]]);
      }
      s := "";
      for i := 0 to |order|
        invariant printer.nodes == nodes && printer.strings == strings && printer.config == config
        invariant Faithful(printer.paramNames)
        invariant printer.currentFunction == None && printer.currentLevel == 0
        invariant s == AllRendered(nodes, strings, config, defs, order[..i])
      {
        assert order[..i + 1][..i] == order[..i];
        var before := s;
        s := printer.PrintNodeToString(defs[order[i]], 0, s);
        PrintedFaithful(nodes, strings, config, printer.paramNames, map[], None, 0, defs[order[i]], 0);
        if config.newlinesAfterFunctions {
          s := s + "\n\n";
        } else {
          s := s + "\n";
        }
      }
      assert order[..|order|] == order;
    }
  }

  // ---------------------------------------------------------------------
  // An arena printed.

  /** `add(1, 2)` as the parser lays it out. */
  function SumNodes(): seq<Ast> {
    [Integer(1), Integer(2), PrimitiveFunc(Add), Call(2, 2)]
  }

  lemma SumWalkable()
    ensures Walkable(SumNodes()) && NamesInterned(SumNodes(), 0)
    ensures SubtreeLen(SumNodes(), 3).Some? && Children(SumNodes(), 3) == Some([0, 1])
  {
    var nodes := SumNodes();
    SumArgs();
    assert SubtreeLen(nodes, 2) == Some(1);
    CallStep(nodes, 3, 1, Walked([0, 1], 0));
    assert forall i :: 0 <= i < 4 ==> SubtreeLen(nodes, i).Some?;
  }

  /** The backward walk from the callee of `(1 + 2)` takes both integers. */
  lemma SumArgs()
    ensures SubtreeLen(SumNodes(), 0) == Some(1) && SubtreeLen(SumNodes(), 1) == Some(1)
    ensures WalkBack(SumNodes(), 2, 2) == Some(Walked([0, 1], 0))
  {
    var nodes := SumNodes();
    assert SubtreeLen(nodes, 0) == Some(1) && SubtreeLen(nodes, 1) == Some(1);
    WalkStep(nodes, 1, 1, 1, Walked([], 0));
    assert [] + [0] == [0];
    WalkStep(nodes, 2, 2, 1, Walked([0], 0));
    assert [0] + [1] == [0, 1];
  }

  /** A primitive call with two arguments prints infix, in parentheses. */
  lemma PrintsSum()
    ensures Walkable(SumNodes()) && NamesInterned(SumNodes(), 0)
    ensures Rendered(SumNodes(), [], DefaultConfig(), 3) == "(1 + 2)"
  {
    SumWalkable();
    assert NatToString(1) == "1" && NatToString(2) == "2";
  }
}
