/** The serialiser from strategy trees to pandas expression text
    (ast_python.py:17-41): value_to_code and expr_to_code. */
module Codegen {
  import opened Text
  import opened Ast

  /** The text between a pair of parentheses –– the `({...})` of the
      f-strings. */
  function Paren(s: string): (r: string)
    ensures |r| == |s| + 2 && r[0] == '(' && r[|r| - 1] == ')' && r[1..|r| - 1] == s
  {
    "(" + s + ")"
  }

  /** value_to_code (ast_python.py:17-27). A NUMBER node holds its lexeme;
      `num` is Python's `str(float(lexeme))`, which this model keeps
      abstract. */
  function ValueToCode(v: Value, num: string -> string): (r: string)
    ensures |r| > 0 || v.Number?
    ensures v.Name? || v.Shift? ==> |r| > 4 && r[..4] == "df['"
    ensures v.Indicator? || v.Shift? ==> |r| >= 2 && r[|r| - 1] == ')'
    decreases v, 1
  {
    match v
    case Name(c) => "df['" + c + "']"
    case Number(l) => num(l)
    case Indicator(n, args) => n + Paren(Join(ArgsToCode(args, num), ", "))
    case Shift(b, k) => "df['" + b + "'].shift" + Paren(NatToString(k))
  }

  /** The list comprehension `[value_to_code(a) for a in node["args"]]`:
      one code string per argument, in argument order. */
  function ArgsToCode(args: seq<Value>, num: string -> string): (r: seq<string>)
    ensures |r| == |args|
    ensures forall i :: 0 <= i < |args| ==> r[i] == ValueToCode(args[i], num)
    decreases args, 0
  {
    if args == [] then [] else [ValueToCode(args[0], num)] + ArgsToCode(args[1..], num)
  }

  /** The `cross` branch of value_to_code (ast_python.py:28-29), which
      expr_to_code hands its cross nodes to (ast_python.py:40-41). */
  function CrossToCode(a: Value, b: Value, num: string -> string): (r: string)
    ensures |r| > 14 && r[..12] == "cross_above(" && r[|r| - 1] == ')'
  {
    "cross_above" + Paren(ValueToCode(a, num) + ", " + ValueToCode(b, num))
  }

  /** expr_to_code on a present node (ast_python.py:34-41). Every result is
      a parenthesised group or a cross_above call. */
  function ExprCode(e: Expr, num: string -> string): (r: string)
    ensures |r| >= 2 && r[|r| - 1] == ')'
    ensures r[0] == '(' <==> !e.Cross?
  {
    match e
    case Cmp(op, a, b) => Paren(ValueToCode(a, num) + " " + Symbol(op) + " " + ValueToCode(b, num))
    case And(l, r) => Paren(ExprCode(l, num)) + " & " + Paren(ExprCode(r, num))
    case Or(l, r) => Paren(ExprCode(l, num)) + " | " + Paren(ExprCode(r, num))
    case Cross(a, b) => CrossToCode(a, b, num)
  }

  /** expr_to_code (ast_python.py:31-41): an absent clause is `False`. */
  function ExprToCode(e: Option<Expr>, num: string -> string): (r: string)
    ensures e.Some? ==> |r| >= 2 && r[|r| - 1] == ')'
  {
    if e.None? then "False" else ExprCode(e.value, num)
  }

  /** The generated text is `False` exactly for an absent clause. */
  lemma AbsentClauseIsFalse(e: Option<Expr>, num: string -> string)
    ensures ExprToCode(e, num) == "False" <==> e.None?
  {
    if e.Some? {
      var r := ExprCode(e.value, num);
      assert r[|r| - 1] != "False"[4];
    }
  }

  // ------------------------------------------------------------- leaves

  /** Free of parentheses. */
  predicate NoParens(s: string)
  {
    forall i :: 0 <= i < |s| ==> s[i] != '(' && s[i] != ')'
  }

  /** Free of the characters the generated structure is made of:
      parentheses and the `&` and `|` operators. */
  predicate Plain(s: string)
  {
    NoParens(s) && forall i :: 0 <= i < |s| ==> s[i] != '&' && s[i] != '|'
  }

  /** Column names, indicator names and formatted numbers are plain. */
  predicate PlainValue(v: Value, num: string -> string)
  {
    match v
    case Name(c) => Plain(c)
    case Number(l) => Plain(num(l))
    case Indicator(n, args) => Plain(n) && forall i :: 0 <= i < |args| ==> PlainValue(args[i], num)
    case Shift(b, _) => Plain(b)
  }

  predicate PlainExpr(e: Expr, num: string -> string)
  {
    match e
    case Cmp(_, a, b) => PlainValue(a, num) && PlainValue(b, num)
    case And(l, r) => PlainExpr(l, num) && PlainExpr(r, num)
    case Or(l, r) => PlainExpr(l, num) && PlainExpr(r, num)
    case Cross(a, b) => PlainValue(a, num) && PlainValue(b, num)
  }

  // ---------------------------------------------------------- balance

  /** Opening minus closing parentheses. */
  function Depth(s: string): int
  {
    Count(s, '(') - Count(s, ')')
  }

  /** Well parenthesised: no prefix closes more groups than it opened, and
      the whole text closes all it opens. */
  predicate Balanced(s: string)
  {
    Depth(s) == 0 && forall k :: 0 <= k <= |s| ==> Depth(s[..k]) >= 0
  }

  lemma DepthAppend(a: string, b: string)
    ensures Depth(a + b) == Depth(a) + Depth(b)
  {
    CountAppend(a, b, '(');
    CountAppend(a, b, ')');
  }

  lemma PlainBalanced(s: string)
    requires NoParens(s)
    ensures Balanced(s)
  {
    forall k | 0 <= k <= |s| ensures Depth(s[..k]) == 0 {
      CountAbsent(s[..k], '(');
      CountAbsent(s[..k], ')');
    }
    assert s[..|s|] == s;
  }

  lemma ConcatBalanced(a: string, b: string)
    requires Balanced(a) && Balanced(b)
    ensures Balanced(a + b)
  {
    DepthAppend(a, b);
    forall k | 0 <= k <= |a + b| ensures Depth((a + b)[..k]) >= 0 {
      if k <= |a| {
        assert (a + b)[..k] == a[..k];
      } else {
        assert (a + b)[..k] == a + b[..k - |a|];
        DepthAppend(a, b[..k - |a|]);
      }
    }
  }

  lemma ParenBalanced(s: string)
    requires Balanced(s)
    ensures Balanced(Paren(s))
  {
    var r := Paren(s);
    DepthAppend("(" + s, ")");
    DepthAppend("(", s);
    forall k | 0 <= k <= |r| ensures Depth(r[..k]) >= 0 {
      if 0 < k <= |s| + 1 {
        assert r[..k] == "(" + s[..k - 1];
        DepthAppend("(", s[..k - 1]);
      } else if k == |r| {
        assert r[..k] == r;
      }
    }
  }

  lemma Concat3Balanced(a: string, b: string, c: string)
    requires Balanced(a) && Balanced(b) && Balanced(c)
    ensures Balanced(a + b + c)
  {
    ConcatBalanced(a, b);
    ConcatBalanced(a + b, c);
  }

  lemma {:induction false} JoinBalanced(parts: seq<string>, sep: string)
    requires Plain(sep)
    requires forall i :: 0 <= i < |parts| ==> Balanced(parts[i])
    ensures Balanced(Join(parts, sep))
  {
    if parts == [] {
      PlainBalanced("");
    } else if |parts| > 1 {
      PlainBalanced(sep);
      JoinBalanced(parts[1..], sep);
      Concat3Balanced(parts[0], sep, Join(parts[1..], sep));
    }
  }

  /** The code of a value is well parenthesised when its names and numbers
      are plain. */
  lemma {:induction false} ValueCodeBalanced(v: Value, num: string -> string)
    requires PlainValue(v, num)
    ensures Balanced(ValueToCode(v, num))
    decreases v
  {
    match v
    case Name(c) =>
      assert Plain("df['" + c + "']");
      PlainBalanced("df['" + c + "']");
    case Number(l) =>
      PlainBalanced(num(l));
    case Indicator(n, args) =>
      var codes := ArgsToCode(args, num);
      forall i | 0 <= i < |codes| ensures Balanced(codes[i]) {
        ValueCodeBalanced(args[i], num);
      }
      assert Plain(", ");
      JoinBalanced(codes, ", ");
      ParenBalanced(Join(codes, ", "));
      PlainBalanced(n);
      ConcatBalanced(n, Paren(Join(codes, ", ")));
    case Shift(b, k) =>
      var head := "df['" + b + "'].shift";
      assert Plain(head);
      PlainBalanced(head);
      DigitsPlain(NatToString(k));
      PlainBalanced(NatToString(k));
      ParenBalanced(NatToString(k));
      ConcatBalanced(head, Paren(NatToString(k)));
  }

  lemma DigitsPlain(s: string)
    requires AllDigits(s)
    ensures Plain(s)
  {
  }

  /** The code of an expression is well parenthesised when its leaves are
      plain: every group expr_to_code opens it also closes. */
  lemma {:induction false} ExprCodeBalanced(e: Expr, num: string -> string)
    requires PlainExpr(e, num)
    ensures Balanced(ExprCode(e, num))
  {
    match e
    case Cmp(op, a, b) => ComparisonCodeBalanced(op, a, b, num);
    case And(l, r) =>
      ExprCodeBalanced(l, num);
      ExprCodeBalanced(r, num);
      JunctionBalanced(ExprCode(l, num), " & ", ExprCode(r, num));
    case Or(l, r) =>
      ExprCodeBalanced(l, num);
      ExprCodeBalanced(r, num);
      JunctionBalanced(ExprCode(l, num), " | ", ExprCode(r, num));
    case Cross(a, b) => CrossCodeBalanced(a, b, num);
  }

  lemma ComparisonCodeBalanced(op: CmpOp, a: Value, b: Value, num: string -> string)
    requires PlainValue(a, num) && PlainValue(b, num)
    ensures Balanced(ExprCode(Cmp(op, a, b), num))
  {
    ValueCodeBalanced(a, num);
    ValueCodeBalanced(b, num);
    SymbolPlain(op);
    ComparisonBalanced(ValueToCode(a, num), Symbol(op), ValueToCode(b, num));
  }

  lemma CrossCodeBalanced(a: Value, b: Value, num: string -> string)
    requires PlainValue(a, num) && PlainValue(b, num)
    ensures Balanced(ExprCode(Cross(a, b), num))
  {
    ValueCodeBalanced(a, num);
    ValueCodeBalanced(b, num);
    assert Plain(", ") && Plain("cross_above");
    GroupBalanced("cross_above", ValueToCode(a, num), ", ", ValueToCode(b, num));
  }

  lemma SymbolPlain(op: CmpOp)
    ensures Plain(Symbol(op))
  {
  }

  lemma ComparisonBalanced(a: string, sym: string, b: string)
    requires Balanced(a) && Balanced(b) && NoParens(sym)
    ensures Balanced(Paren(a + " " + sym + " " + b))
  {
    var mid := " " + sym + " ";
    assert NoParens(mid);
    PlainBalanced(mid);
    Concat3Balanced(a, mid, b);
    assert a + " " + sym + " " + b == a + mid + b;
    ParenBalanced(a + mid + b);
  }

  /** `head(a mid b)` with plain head and mid. */
  lemma GroupBalanced(head: string, a: string, mid: string, b: string)
    requires Plain(head) && Plain(mid) && Balanced(a) && Balanced(b)
    ensures Balanced(head + Paren(a + mid + b))
  {
    PlainBalanced(head);
    PlainBalanced(mid);
    Concat3Balanced(a, mid, b);
    ParenBalanced(a + mid + b);
    ConcatBalanced(head, Paren(a + mid + b));
  }

  lemma JunctionBalanced(l: string, mid: string, r: string)
    requires Balanced(l) && Balanced(r) && (mid == " & " || mid == " | ")
    ensures Balanced(Paren(l) + mid + Paren(r))
  {
    assert NoParens(mid);
    ParenBalanced(l);
    ParenBalanced(r);
    PlainBalanced(mid);
    Concat3Balanced(Paren(l), mid, Paren(r));
  }

  // ------------------------------------------------------ operator counts

  /** Free of the `&` and `|` operators. */
  predicate NoOps(s: string)
  {
    forall i :: 0 <= i < |s| ==> s[i] != '&' && s[i] != '|'
  }

  lemma NoOpsConcat(a: string, b: string)
    requires NoOps(a) && NoOps(b)
    ensures NoOps(a + b)
  {
    assert forall i :: 0 <= i < |a + b| ==> (a + b)[i] == if i < |a| then a[i] else b[i - |a|];
  }

  lemma {:induction false} JoinNoOps(parts: seq<string>, sep: string)
    requires NoOps(sep)
    requires forall i :: 0 <= i < |parts| ==> NoOps(parts[i])
    ensures NoOps(Join(parts, sep))
  {
    if |parts| > 1 {
      JoinNoOps(parts[1..], sep);
      NoOpsConcat(parts[0], sep);
      NoOpsConcat(parts[0] + sep, Join(parts[1..], sep));
    }
  }

  lemma ParenNoOps(s: string)
    requires NoOps(s)
    ensures NoOps(Paren(s))
  {
    NoOpsConcat("(", s);
    NoOpsConcat("(" + s, ")");
  }

  /** The code of a value with plain leaves holds no `&` or `|`. */
  lemma {:induction false} ValueCodeNoOps(v: Value, num: string -> string)
    requires PlainValue(v, num)
    ensures NoOps(ValueToCode(v, num))
    decreases v
  {
    match v
    case Name(c) =>
    case Number(l) =>
    case Indicator(n, args) =>
      var codes := ArgsToCode(args, num);
      forall i | 0 <= i < |codes| ensures NoOps(codes[i]) {
        ValueCodeNoOps(args[i], num);
      }
      JoinNoOps(codes, ", ");
      ParenNoOps(Join(codes, ", "));
      NoOpsConcat(n, Paren(Join(codes, ", ")));
    case Shift(b, k) =>
      DigitsPlain(NatToString(k));
      ParenNoOps(NatToString(k));
      NoOpsConcat("df['" + b + "'].shift", Paren(NatToString(k)));
  }

  lemma ParenCount(s: string, c: char)
    requires c != '(' && c != ')'
    ensures Count(Paren(s), c) == Count(s, c)
  {
    CountAppend("(", s, c);
    CountAppend("(" + s, ")", c);
  }

  lemma JunctionCount(l: string, mid: string, r: string, c: char)
    requires c != '(' && c != ')'
    ensures Count(Paren(l) + mid + Paren(r), c) == Count(l, c) + Count(mid, c) + Count(r, c)
  {
    CountAppend(Paren(l), mid, c);
    CountAppend(Paren(l) + mid, Paren(r), c);
    ParenCount(l, c);
    ParenCount(r, c);
  }

  lemma OperatorCounts()
    ensures Count(" & ", '&') == 1 && Count(" & ", '|') == 0
    ensures Count(" | ", '|') == 1 && Count(" | ", '&') == 0
  {
    assert " & "[1..] == "& " && " & "[1..][1..] == " ";
    assert " | "[1..] == "| " && " | "[1..][1..] == " ";
  }

  /** Each `and` node puts exactly one `&` in the generated code and each
      `or` node exactly one `|`, when the leaves hold neither. */
  lemma {:induction false} OperatorsMatchNodes(e: Expr, num: string -> string)
    requires PlainExpr(e, num)
    ensures Count(ExprCode(e, num), '&') == AndCount(e)
    ensures Count(ExprCode(e, num), '|') == OrCount(e)
  {
    match e
    case Cmp(op, a, b) => ComparisonNoOps(op, a, b, num);
    case And(l, r) =>
      OperatorsMatchNodes(l, num);
      OperatorsMatchNodes(r, num);
      AndNodeCounts(l, r, num);
    case Or(l, r) =>
      OperatorsMatchNodes(l, num);
      OperatorsMatchNodes(r, num);
      OrNodeCounts(l, r, num);
    case Cross(a, b) => CrossNoOps(a, b, num);
  }

  lemma AndNodeCounts(l: Expr, r: Expr, num: string -> string)
    requires Count(ExprCode(l, num), '&') == AndCount(l) && Count(ExprCode(l, num), '|') == OrCount(l)
    requires Count(ExprCode(r, num), '&') == AndCount(r) && Count(ExprCode(r, num), '|') == OrCount(r)
    ensures Count(ExprCode(And(l, r), num), '&') == AndCount(And(l, r))
    ensures Count(ExprCode(And(l, r), num), '|') == OrCount(And(l, r))
  {
    AndCodeCounts(ExprCode(l, num), ExprCode(r, num));
  }

  lemma OrNodeCounts(l: Expr, r: Expr, num: string -> string)
    requires Count(ExprCode(l, num), '&') == AndCount(l) && Count(ExprCode(l, num), '|') == OrCount(l)
    requires Count(ExprCode(r, num), '&') == AndCount(r) && Count(ExprCode(r, num), '|') == OrCount(r)
    ensures Count(ExprCode(Or(l, r), num), '&') == AndCount(Or(l, r))
    ensures Count(ExprCode(Or(l, r), num), '|') == OrCount(Or(l, r))
  {
    OrCodeCounts(ExprCode(l, num), ExprCode(r, num));
  }

  /** `(x) & (y)` holds the operators of x and y and one more `&`. */
  lemma AndCodeCounts(x: string, y: string)
    ensures Count(Paren(x) + " & " + Paren(y), '&') == Count(x, '&') + 1 + Count(y, '&')
    ensures Count(Paren(x) + " & " + Paren(y), '|') == Count(x, '|') + Count(y, '|')
  {
    OperatorCounts();
    JunctionCount(x, " & ", y, '&');
    JunctionCount(x, " & ", y, '|');
  }

  /** `(x) | (y)` holds the operators of x and y and one more `|`. */
  lemma OrCodeCounts(x: string, y: string)
    ensures Count(Paren(x) + " | " + Paren(y), '&') == Count(x, '&') + Count(y, '&')
    ensures Count(Paren(x) + " | " + Paren(y), '|') == Count(x, '|') + 1 + Count(y, '|')
  {
    OperatorCounts();
    JunctionCount(x, " | ", y, '&');
    JunctionCount(x, " | ", y, '|');
  }

  lemma ComparisonNoOps(op: CmpOp, a: Value, b: Value, num: string -> string)
    requires PlainValue(a, num) && PlainValue(b, num)
    ensures Count(ExprCode(Cmp(op, a, b), num), '&') == 0
    ensures Count(ExprCode(Cmp(op, a, b), num), '|') == 0
  {
    var x, y := ValueToCode(a, num), ValueToCode(b, num);
    ValueCodeNoOps(a, num);
    ValueCodeNoOps(b, num);
    SymbolPlain(op);
    NoOpsConcat(x, " ");
    NoOpsConcat(x + " ", Symbol(op));
    NoOpsConcat(x + " " + Symbol(op), " ");
    NoOpsConcat(x + " " + Symbol(op) + " ", y);
    ParenNoOps(x + " " + Symbol(op) + " " + y);
    CountAbsent(ExprCode(Cmp(op, a, b), num), '&');
    CountAbsent(ExprCode(Cmp(op, a, b), num), '|');
  }

  lemma CrossNoOps(a: Value, b: Value, num: string -> string)
    requires PlainValue(a, num) && PlainValue(b, num)
    ensures Count(ExprCode(Cross(a, b), num), '&') == 0
    ensures Count(ExprCode(Cross(a, b), num), '|') == 0
  {
    var x, y := ValueToCode(a, num), ValueToCode(b, num);
    ValueCodeNoOps(a, num);
    ValueCodeNoOps(b, num);
    NoOpsConcat(x, ", ");
    NoOpsConcat(x + ", ", y);
    ParenNoOps(x + ", " + y);
    NoOpsConcat("cross_above", Paren(x + ", " + y));
    CountAbsent(ExprCode(Cross(a, b), num), '&');
    CountAbsent(ExprCode(Cross(a, b), num), '|');
  }
}
