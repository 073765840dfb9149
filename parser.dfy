/** The productions of the strategy grammar (dsl_parser.py:4-33) as a
    recursive-descent parser over tokens, building the AST exactly as the
    ASTTransformer callbacks (dsl_parser.py:53-92) do. Each parser takes the
    unread tokens and returns the node with the tokens after it. */
module Parser {
  import opened Text
  import opened Ast
  import opened Lexer

  datatype ParseResult<T> = Parsed(value: T, rest: seq<Token>) | Unexpected(found: Option<Token>)

  /** The token a syntax error reports: the next one, or None at end of input. */
  function Next(ts: seq<Token>): (n: Option<Token>)
    ensures n.Some? <==> ts != []
    ensures n.Some? ==> n.value == ts[0] && n.value in ts
  {
    if ts == [] then None else Some(ts[0])
  }

  /** The tokens after the first one, each of them a token of `ts`. */
  function After(ts: seq<Token>): (r: seq<Token>)
    requires ts != []
    ensures |r| == |ts| - 1
    ensures forall t :: t in r ==> t in ts
  {
    ts[1..]
  }

  /** `value: indicator | SHIFT_EXPR | NAME | NUMBER` (dsl_parser.py:27-30) and
      `indicator: NAME "(" args ")"` (dsl_parser.py:32). */
  function ParseValue(ts: seq<Token>): (r: ParseResult<Value>)
    ensures r.Parsed? ==> |r.rest| < |ts| && WellFormedValue(r.value)
    ensures r.Parsed? ==> forall t :: t in r.rest ==> t in ts
    ensures r.Unexpected? && r.found.Some? ==> r.found.value in ts
    decreases |ts|, 0
  {
    if ts == [] then Unexpected(None)
    else match ts[0]
      case Ident(n) =>
        if |ts| > 1 && ts[1] == LParen then
          match ParseArgs(ts[2..])
          case Unexpected(f) => Unexpected(f)
          case Parsed(args, r) =>
            if r != [] && r[0] == RParen then
              LowerIdempotent(n);
              Parsed(Indicator(Lower(n), args), After(r))
            else Unexpected(Next(r))
        else Parsed(Name(n), ts[1..])
      case Num(l) => Parsed(Number(l), ts[1..])
      case ShiftRef(b, d) => Parsed(Shift(b, DecimalValue(d)), ts[1..])
      case _ => Unexpected(Some(ts[0]))
  }

  /** `args: value ("," value)*` (dsl_parser.py:33): one or more values. */
  function ParseArgs(ts: seq<Token>): (r: ParseResult<seq<Value>>)
    ensures r.Parsed? ==> |r.rest| < |ts| && |r.value| > 0
    ensures r.Parsed? ==> forall i :: 0 <= i < |r.value| ==> WellFormedValue(r.value[i])
    ensures r.Parsed? ==> forall t :: t in r.rest ==> t in ts
    ensures r.Unexpected? && r.found.Some? ==> r.found.value in ts
    decreases |ts|, 1
  {
    match ParseValue(ts)
    case Unexpected(f) => Unexpected(f)
    case Parsed(v, r) => ParseArgsTail([v], r)
  }

  function ParseArgsTail(acc: seq<Value>, ts: seq<Token>): (r: ParseResult<seq<Value>>)
    requires forall i :: 0 <= i < |acc| ==> WellFormedValue(acc[i])
    ensures r.Parsed? ==> |r.rest| <= |ts| && |r.value| >= |acc|
    ensures r.Parsed? ==> forall i :: 0 <= i < |r.value| ==> WellFormedValue(r.value[i])
    ensures r.Parsed? ==> forall t :: t in r.rest ==> t in ts
    ensures r.Unexpected? && r.found.Some? ==> r.found.value in ts
    decreases |ts|, 1
  {
    if ts != [] && ts[0] == Comma then
      match ParseValue(ts[1..])
      case Unexpected(f) => Unexpected(f)
      case Parsed(v, r) => ParseArgsTail(acc + [v], r)
    else Parsed(acc, ts)
  }

  /** `?atom: "(" expr ")" | comparison | cross_expr` (dsl_parser.py:18-25).
      A parenthesised expression adds no node of its own. */
  function ParseAtom(ts: seq<Token>): (r: ParseResult<Expr>)
    ensures r.Parsed? ==> |r.rest| < |ts| && WellFormedExpr(r.value)
    ensures r.Parsed? ==> forall t :: t in r.rest ==> t in ts
    ensures r.Unexpected? && r.found.Some? ==> r.found.value in ts
    decreases |ts|, 0
  {
    if ts == [] then Unexpected(None)
    else if ts[0] == LParen then
      match ParseExpr(ts[1..])
      case Unexpected(f) => Unexpected(f)
      case Parsed(e, r) =>
        if r != [] && r[0] == RParen then Parsed(e, After(r)) else Unexpected(Next(r))
    else if ts[0] == CrossKw then ParseCross(ts[1..])
    else ParseComparison(ts)
  }

  /** `comparison: value OP value` (dsl_parser.py:22): operands are values,
      never boolean sub-expressions, and comparisons do not chain. */
  function ParseComparison(ts: seq<Token>): (r: ParseResult<Expr>)
    ensures r.Parsed? ==> |r.rest| < |ts| && WellFormedExpr(r.value)
    ensures r.Parsed? ==> r.value.Cmp?
    ensures r.Parsed? ==> forall t :: t in r.rest ==> t in ts
    ensures r.Unexpected? && r.found.Some? ==> r.found.value in ts
  {
    match ParseValue(ts)
    case Unexpected(f) => Unexpected(f)
    case Parsed(lhs, r) =>
      if r != [] && r[0].OpTok? then
        match ParseValue(r[1..])
        case Unexpected(f) => Unexpected(f)
        case Parsed(rhs, r') => Parsed(Cmp(r[0].op, lhs, rhs), r')
      else Unexpected(Next(r))
  }

  /** `cross_expr: "CROSS" "(" value "," value ")"` after the CROSS keyword. */
  function ParseCross(ts: seq<Token>): (r: ParseResult<Expr>)
    ensures r.Parsed? ==> |r.rest| < |ts| && WellFormedExpr(r.value)
    ensures r.Parsed? ==> r.value.Cross?
    ensures r.Parsed? ==> forall t :: t in r.rest ==> t in ts
    ensures r.Unexpected? && r.found.Some? ==> r.found.value in ts
  {
    if ts == [] || ts[0] != LParen then Unexpected(Next(ts))
    else match ParseValue(After(ts))
      case Unexpected(f) => Unexpected(f)
      case Parsed(a, r) =>
        if r == [] || r[0] != Comma then Unexpected(Next(r))
        else match ParseValue(After(r))
          case Unexpected(f) => Unexpected(f)
          case Parsed(b, r') =>
            if r' != [] && r'[0] == RParen then Parsed(Cross(a, b), After(r')) else Unexpected(Next(r'))
  }

  /** `?and_expr: atom | and_expr "AND" atom -> and_op` (dsl_parser.py:15-16):
      left-associative. */
  function ParseAnd(ts: seq<Token>): (r: ParseResult<Expr>)
    ensures r.Parsed? ==> |r.rest| < |ts| && WellFormedExpr(r.value)
    ensures r.Parsed? ==> forall t :: t in r.rest ==> t in ts
    ensures r.Unexpected? && r.found.Some? ==> r.found.value in ts
    decreases |ts|, 1
  {
    match ParseAtom(ts)
    case Unexpected(f) => Unexpected(f)
    case Parsed(a, r) => ParseAndTail(a, r)
  }

  function ParseAndTail(acc: Expr, ts: seq<Token>): (r: ParseResult<Expr>)
    requires WellFormedExpr(acc)
    ensures r.Parsed? ==> |r.rest| <= |ts| && WellFormedExpr(r.value)
    ensures r.Parsed? ==> forall t :: t in r.rest ==> t in ts
    ensures r.Unexpected? && r.found.Some? ==> r.found.value in ts
    decreases |ts|, 1
  {
    if ts != [] && ts[0].AndKw? then
      match ParseAtom(ts[1..])
      case Unexpected(f) => Unexpected(f)
      case Parsed(a, r) => ParseAndTail(And(acc, a), r)
    else Parsed(acc, ts)
  }

  /** `?or_expr: and_expr | or_expr "OR" and_expr -> or_op` (dsl_parser.py:13-14):
      left-associative, looser than AND. */
  function ParseOr(ts: seq<Token>): (r: ParseResult<Expr>)
    ensures r.Parsed? ==> |r.rest| < |ts| && WellFormedExpr(r.value)
    ensures r.Parsed? ==> forall t :: t in r.rest ==> t in ts
    ensures r.Unexpected? && r.found.Some? ==> r.found.value in ts
    decreases |ts|, 2
  {
    match ParseAnd(ts)
    case Unexpected(f) => Unexpected(f)
    case Parsed(a, r) => ParseOrTail(a, r)
  }

  function ParseOrTail(acc: Expr, ts: seq<Token>): (r: ParseResult<Expr>)
    requires WellFormedExpr(acc)
    ensures r.Parsed? ==> |r.rest| <= |ts| && WellFormedExpr(r.value)
    ensures r.Parsed? ==> forall t :: t in r.rest ==> t in ts
    ensures r.Unexpected? && r.found.Some? ==> r.found.value in ts
    decreases |ts|, 2
  {
    if ts != [] && ts[0].OrKw? then
      var p := ParseAnd(ts[1..]);
      if p.Unexpected? then Unexpected(p.found)
      else
        ParseOrTail(Or(acc, p.value), p.rest)
    else Parsed(acc, ts)
  }

  /** `?expr: or_expr` (dsl_parser.py:12). */
  function ParseExpr(ts: seq<Token>): (r: ParseResult<Expr>)
    ensures r.Parsed? ==> |r.rest| < |ts| && WellFormedExpr(r.value)
    ensures r.Parsed? ==> forall t :: t in r.rest ==> t in ts
    ensures r.Unexpected? && r.found.Some? ==> r.found.value in ts
    decreases |ts|, 3
  {
    ParseOr(ts)
  }

  /** The tokens after any leading line breaks. */
  function SkipNewlines(ts: seq<Token>): (r: seq<Token>)
    ensures |r| <= |ts| && r == ts[|ts| - |r|..]
    ensures r == [] || r[0] != Newline
    ensures forall k :: 0 <= k < |ts| - |r| ==> ts[k] == Newline
  {
    if ts != [] && ts[0] == Newline then SkipNewlines(ts[1..]) else ts
  }

  /** Tokens that can begin an `expr`: "(", CROSS, NAME, NUMBER, SHIFT_EXPR. */
  predicate StartsExpr(t: Token)
  {
    t == LParen || t == CrossKw || t.Ident? || t.Num? || t.ShiftRef?
  }

  /** `section: ENTRY ":" _NL* expr? | EXIT ":" _NL* expr?` (dsl_parser.py:6-7).
      The line breaks after the colon are taken greedily, the way the LALR
      parser resolves its shift/reduce choice there, so a section without an
      expression can only end the text. */
  function ParseSection(ts: seq<Token>): (r: ParseResult<Section>)
    ensures r.Parsed? ==> |r.rest| < |ts|
    ensures r.Parsed? ==> ts[0].SectionKw? && r.value.keyword == ts[0].word
    ensures r.Parsed? ==> IsSectionWord(r.value.keyword)
    ensures r.Parsed? && r.value.body.Some? ==> WellFormedExpr(r.value.body.value)
    ensures r.Parsed? && r.value.body.None? ==> r.rest == [] || !StartsExpr(r.rest[0])
    ensures r.Parsed? ==> forall t :: t in r.rest ==> t in ts
    ensures r.Unexpected? && r.found.Some? ==> r.found.value in ts
  {
    if ts == [] || !ts[0].SectionKw? then Unexpected(Next(ts))
    else if |ts| < 2 || ts[1] != Colon then Unexpected(Next(ts[1..]))
    else
      var r := SkipNewlines(ts[2..]);
      if r != [] && StartsExpr(r[0]) then
        match ParseExpr(r)
        case Unexpected(f) => Unexpected(f)
        case Parsed(e, r') => Parsed(Section(ts[0].word, Some(e)), r')
      else Parsed(Section(ts[0].word, None), r)
  }

  /** What every parsed section satisfies: its keyword is ENTRY or EXIT in
      some case, and its body, if any, is well formed. */
  predicate SectionsOk(secs: seq<Section>)
  {
    forall i :: 0 <= i < |secs| ==>
      IsSectionWord(secs[i].keyword) && (secs[i].body.Some? ==> WellFormedExpr(secs[i].body.value))
  }

  /** `(_NL+ section)* _NL*` after the first section (dsl_parser.py:4). */
  function ParseSectionsTail(acc: seq<Section>, ts: seq<Token>): (r: ParseResult<seq<Section>>)
    requires SectionsOk(acc)
    ensures r.Parsed? ==> r.rest == [] && |r.value| >= |acc| && SectionsOk(r.value)
    ensures r.Unexpected? && r.found.Some? ==> r.found.value in ts
    decreases |ts|
  {
    if ts == [] then Parsed(acc, [])
    else if ts[0] != Newline then Unexpected(Some(ts[0]))
    else
      var r := SkipNewlines(ts);
      if r == [] then Parsed(acc, [])
      else match ParseSection(r)
        case Unexpected(f) => Unexpected(f)
        case Parsed(s, r') => ParseSectionsTail(acc + [s], r')
  }

  /** `start: _NL* section (_NL+ section)* _NL*` (dsl_parser.py:4): one or more
      sections, each after the first on a new line, and all tokens consumed. */
  function ParseStart(ts: seq<Token>): (r: ParseResult<seq<Section>>)
    ensures r.Parsed? ==> r.rest == [] && |r.value| >= 1 && SectionsOk(r.value)
    ensures r.Unexpected? && r.found.Some? ==> r.found.value in ts
  {
    match ParseSection(SkipNewlines(ts))
    case Unexpected(f) => Unexpected(f)
    case Parsed(s, r) => ParseSectionsTail([s], r)
  }
}
