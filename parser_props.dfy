/** Properties of the strategy parser, stated against a token printer that
    writes every AST back as the fewest tokens the grammar needs (parentheses
    only around an OR or AND sub-expression where precedence or
    left-associativity demands them). Parsing what the printer writes gives
    back the AST, which fixes precedence, associativity and the meaning of
    parentheses for every expression. */
module ParserProps {
  import opened Text
  import opened Ast
  import opened Lexer
  import opened Parser

  // ------------------------------------------- sequence regrouping steps

  lemma DropFirst<T>(x: T, a: seq<T>, b: seq<T>)
    ensures ([x] + a + b)[1..] == a + b
  {
    assert [x] + a + b == [x] + (a + b);
  }

  lemma Regroup<T>(a: seq<T>, b: seq<T>, c: seq<T>, d: seq<T>)
    ensures a + b + c + d == a + (b + c + d)
  {
  }

  lemma SnocHead<T>(a: seq<T>, b: seq<T>)
    requires |b| > 0
    ensures a + [b[0]] + b[1..] == a + b
  {
    assert [b[0]] + b[1..] == b;
  }

  lemma Cons<T>(x: T, s: seq<T>)
    ensures ([x] + s)[0] == x && ([x] + s)[1..] == s
  {
  }

  lemma HeadTail<T>(s: seq<T>)
    requires |s| > 0
    ensures [s[0]] + s[1..] == s
  {
  }

  lemma HeadOfConcat<T>(a: seq<T>, b: seq<T>)
    requires |a| > 0
    ensures (a + b)[0] == a[0]
  {
  }

  lemma CrossShape<T>(k: T, lp: T, x: seq<T>, c: T, y: seq<T>, rp: T, z: seq<T>)
    ensures [k, lp] + x + [c] + y + [rp] + z == [k] + ([lp] + (x + ([c] + y + ([rp] + z))))
  {
    assert [k, lp] == [k] + [lp];
  }

  lemma CallShape<T>(x: T, lp: T, a: seq<T>, rp: T, z: seq<T>)
    ensures var ts := [x, lp] + a + [rp] + z;
      |ts| > 1 && ts[0] == x && ts[1] == lp && ts[2..] == a + ([rp] + z)
  {
    var ts := [x, lp] + a + [rp] + z;
    assert ts == [x, lp] + (a + ([rp] + z));
  }

  lemma Regroup3<T>(a: seq<T>, b: seq<T>, c: seq<T>)
    ensures a + b + c == a + (b + c)
  {
  }

  lemma Assoc<T>(a: seq<T>, b: seq<T>, c: seq<T>, d: seq<T>, e: seq<T>)
    ensures a + b + (c + d + e) == a + b + c + d + e
  {
  }

  lemma ParenShape<T>(lp: T, x: seq<T>, o: T, y: seq<T>, rp: T, k: T, z: seq<T>)
    ensures [lp] + (x + [o] + y) + [rp] + [k] + z == [lp] + x + [o] + y + [rp, k] + z
  {
    assert [rp] + [k] == [rp, k];
  }

  // ---------------------------------------------------------------- printer

  // The three printers call each other on the same expression one level
  // down (atom to or_expr for a parenthesised OR or AND, or_expr to and_expr,
  // and_expr to atom); these ranks order those calls for each constructor.
  function AtomRank(e: Expr): nat { if e.Or? then 1 else if e.And? then 2 else 0 }
  function AndRank(e: Expr): nat { if e.Or? then 2 else if e.And? then 0 else 1 }
  function OrRank(e: Expr): nat { if e.Or? then 0 else if e.And? then 1 else 2 }

  function ValueTokens(v: Value): (ts: seq<Token>)
    ensures |ts| > 0 && (ts[0].Ident? || ts[0].Num? || ts[0].ShiftRef?)
    decreases v
  {
    match v
    case Name(c) => [Ident(c)]
    case Number(l) => [Num(l)]
    case Shift(b, n) => [ShiftRef(b, NatToString(n))]
    case Indicator(n, args) => [Ident(n), LParen] + ArgsTokens(args) + [RParen]
  }

  /** `args`: the values separated by commas. */
  function ArgsTokens(args: seq<Value>): seq<Token>
    decreases args
  {
    if args == [] then []
    else if |args| == 1 then ValueTokens(args[0])
    else ValueTokens(args[0]) + [Comma] + ArgsTokens(args[1..])
  }

  /** An expression at `atom` level: OR and AND are parenthesised here. */
  function AtomTokens(e: Expr): seq<Token>
    decreases e, AtomRank(e)
  {
    match e
    case Cmp(op, a, b) => ValueTokens(a) + [OpTok(op)] + ValueTokens(b)
    case Cross(a, b) => [CrossKw, LParen] + ValueTokens(a) + [Comma] + ValueTokens(b) + [RParen]
    case _ => [LParen] + OrTokens(e) + [RParen]
  }

  /** An expression at `and_expr` level: the right operand of AND is an atom. */
  function AndTokens(e: Expr): seq<Token>
    decreases e, AndRank(e)
  {
    if e.And? then AndTokens(e.left) + [AndKw] + AtomTokens(e.right) else AtomTokens(e)
  }

  /** An expression at `or_expr` level: the right operand of OR is an and_expr. */
  function OrTokens(e: Expr): seq<Token>
    decreases e, OrRank(e)
  {
    if e.Or? then OrTokens(e.left) + [OrKw] + AndTokens(e.right) else AndTokens(e)
  }

  // ------------------------------------------------- values and arguments

  /** Parsing a printed value gives it back, provided the next token does not
      open an argument list. */
  lemma {:induction false} ValueRoundTrip(v: Value, rest: seq<Token>)
    requires WellFormedValue(v)
    requires rest == [] || rest[0] != LParen
    ensures ParseValue(ValueTokens(v) + rest) == Parsed(v, rest)
    decreases v, 0
  {
    match v
    case Name(c) =>
      assert ([Ident(c)] + rest)[1..] == rest;
    case Number(l) =>
      assert ([Num(l)] + rest)[1..] == rest;
    case Shift(b, n) =>
      assert ([ShiftRef(b, NatToString(n))] + rest)[1..] == rest;
    case Indicator(n, args) =>
      CallShape(Ident(n), LParen, ArgsTokens(args), RParen, rest);
      ArgsRoundTrip(args, [RParen] + rest);
  }

  lemma {:induction false} ArgsRoundTrip(args: seq<Value>, rest: seq<Token>)
    requires |args| > 0 && forall i :: 0 <= i < |args| ==> WellFormedValue(args[i])
    requires rest == [] || (rest[0] != LParen && rest[0] != Comma)
    ensures ParseArgs(ArgsTokens(args) + rest) == Parsed(args, rest)
    decreases args, 1
  {
    if |args| == 1 {
      ValueRoundTrip(args[0], rest);
      assert [args[0]] == args;
    } else {
      var after := [Comma] + ArgsTokens(args[1..]) + rest;
      assert ArgsTokens(args) + rest == ValueTokens(args[0]) + after;
      ValueRoundTrip(args[0], after);
      ArgsTailRoundTrip([args[0]], args[1..], rest);
      assert [args[0]] + args[1..] == args;
    }
  }

  /** One step of ParseArgsTail: a comma, then a value. */
  lemma ArgsTailStep(acc: seq<Value>, v: Value, after: seq<Token>)
    requires forall i :: 0 <= i < |acc| ==> WellFormedValue(acc[i])
    requires WellFormedValue(v)
    requires after == [] || after[0] != LParen
    ensures forall i :: 0 <= i < |acc + [v]| ==> WellFormedValue((acc + [v])[i])
    ensures ParseArgsTail(acc, [Comma] + ValueTokens(v) + after) == ParseArgsTail(acc + [v], after)
    decreases v, 1
  {
    Regroup3([Comma], ValueTokens(v), after);
    Cons(Comma, ValueTokens(v) + after);
    ValueRoundTrip(v, after);
  }

  lemma {:induction false} ArgsTailRoundTrip(acc: seq<Value>, args: seq<Value>, rest: seq<Token>)
    requires forall i :: 0 <= i < |acc| ==> WellFormedValue(acc[i])
    requires |args| > 0 && forall i :: 0 <= i < |args| ==> WellFormedValue(args[i])
    requires rest == [] || (rest[0] != LParen && rest[0] != Comma)
    ensures ParseArgsTail(acc, [Comma] + ArgsTokens(args) + rest) == Parsed(acc + args, rest)
    decreases args, 0
  {
    if |args| == 1 {
      ArgsTailStep(acc, args[0], rest);
      assert args == [args[0]];
    } else {
      var after := [Comma] + ArgsTokens(args[1..]) + rest;
      Regroup(ValueTokens(args[0]), [Comma], ArgsTokens(args[1..]), rest);
      Regroup3([Comma], ArgsTokens(args) , rest);
      assert [Comma] + ArgsTokens(args) + rest == [Comma] + ValueTokens(args[0]) + after;
      ArgsTailStep(acc, args[0], after);
      ArgsTailRoundTrip(acc + [args[0]], args[1..], rest);
      SnocHead(acc, args);
    }
  }

  // ------------------------------------------------------------ expressions

  function ExprSize(e: Expr): nat
  {
    match e
    case And(l, r) => 1 + ExprSize(l) + ExprSize(r)
    case Or(l, r) => 1 + ExprSize(l) + ExprSize(r)
    case _ => 1
  }

  /** The first operand of a chain of ANDs. */
  function AndLeft(e: Expr): (r: Expr)
    ensures !r.And? && ExprSize(r) <= ExprSize(e) && (e.And? ==> ExprSize(r) < ExprSize(e))
    ensures WellFormedExpr(e) ==> WellFormedExpr(r)
  {
    if e.And? then AndLeft(e.left) else e
  }

  /** The tokens of an and_expr after its first operand: "AND atom" for each
      further operand. */
  function AndRest(e: Expr): (ts: seq<Token>)
    ensures ts == [] || ts[0] == AndKw
  {
    if e.And? then AndRest(e.left) + [AndKw] + AtomTokens(e.right) else []
  }

  /** `e` with the first operand of its AND chain replaced by `acc`. */
  function AndGraft(acc: Expr, e: Expr): (r: Expr)
    ensures WellFormedExpr(acc) && WellFormedExpr(e) ==> WellFormedExpr(r)
  {
    if e.And? then And(AndGraft(acc, e.left), e.right) else acc
  }

  lemma {:induction false} AndSplit(e: Expr)
    ensures AndTokens(e) == AtomTokens(AndLeft(e)) + AndRest(e)
    ensures AndGraft(AndLeft(e), e) == e
  {
    if e.And? {
      AndSplit(e.left);
      assert AndTokens(e) == AndTokens(e.left) + [AndKw] + AtomTokens(e.right);
      Regroup(AtomTokens(AndLeft(e.left)), AndRest(e.left), [AndKw], AtomTokens(e.right));
    }
  }

  /** The first operand of a chain of ORs. */
  function OrLeft(e: Expr): (r: Expr)
    ensures !r.Or? && ExprSize(r) <= ExprSize(e) && (e.Or? ==> ExprSize(r) < ExprSize(e))
    ensures WellFormedExpr(e) ==> WellFormedExpr(r)
  {
    if e.Or? then OrLeft(e.left) else e
  }

  function OrRest(e: Expr): (ts: seq<Token>)
    ensures ts == [] || ts[0] == OrKw
  {
    if e.Or? then OrRest(e.left) + [OrKw] + AndTokens(e.right) else []
  }

  function OrGraft(acc: Expr, e: Expr): (r: Expr)
    ensures WellFormedExpr(acc) && WellFormedExpr(e) ==> WellFormedExpr(r)
  {
    if e.Or? then Or(OrGraft(acc, e.left), e.right) else acc
  }

  lemma {:induction false} OrSplit(e: Expr)
    ensures OrTokens(e) == AndTokens(OrLeft(e)) + OrRest(e)
    ensures OrGraft(OrLeft(e), e) == e
  {
    if e.Or? {
      OrSplit(e.left);
      assert OrTokens(e) == OrTokens(e.left) + [OrKw] + AndTokens(e.right);
      Regroup(AndTokens(OrLeft(e.left)), OrRest(e.left), [OrKw], AndTokens(e.right));
    }
  }

  lemma CmpRoundTrip(op: CmpOp, a: Value, b: Value, rest: seq<Token>)
    requires WellFormedValue(a) && WellFormedValue(b)
    requires rest == [] || rest[0] != LParen
    ensures ParseAtom(AtomTokens(Cmp(op, a, b)) + rest) == Parsed(Cmp(op, a, b), rest)
  {
    var ts := AtomTokens(Cmp(op, a, b)) + rest;
    var after := [OpTok(op)] + ValueTokens(b) + rest;
    Regroup(ValueTokens(a), [OpTok(op)], ValueTokens(b), rest);
    ValueRoundTrip(a, after);
    DropFirst(OpTok(op), ValueTokens(b), rest);
    ValueRoundTrip(b, rest);
    assert ParseComparison(ts) == Parsed(Cmp(op, a, b), rest);
  }

  lemma CrossArgsRoundTrip(a: Value, b: Value, rest: seq<Token>)
    requires WellFormedValue(a) && WellFormedValue(b)
    ensures ParseCross([LParen] + (ValueTokens(a) + ([Comma] + ValueTokens(b) + ([RParen] + rest))))
         == Parsed(Cross(a, b), rest)
  {
    var afterA := [Comma] + ValueTokens(b) + ([RParen] + rest);
    DropFirst(LParen, ValueTokens(a), afterA);
    ValueRoundTrip(a, afterA);
    DropFirst(Comma, ValueTokens(b), [RParen] + rest);
    ValueRoundTrip(b, [RParen] + rest);
  }

  lemma CrossRoundTrip(a: Value, b: Value, rest: seq<Token>)
    requires WellFormedValue(a) && WellFormedValue(b)
    ensures ParseAtom(AtomTokens(Cross(a, b)) + rest) == Parsed(Cross(a, b), rest)
  {
    var inner := [LParen] + (ValueTokens(a) + ([Comma] + ValueTokens(b) + ([RParen] + rest)));
    CrossShape(CrossKw, LParen, ValueTokens(a), Comma, ValueTokens(b), RParen, rest);
    Cons(CrossKw, inner);
    CrossArgsRoundTrip(a, b, rest);
  }

  /** Parsing a printed atom gives it back. */
  lemma {:induction false} AtomRoundTrip(e: Expr, rest: seq<Token>)
    requires WellFormedExpr(e)
    requires rest == [] || rest[0] != LParen
    ensures ParseAtom(AtomTokens(e) + rest) == Parsed(e, rest)
    decreases ExprSize(e), AtomRank(e) + 1
  {
    match e
    case Cmp(op, a, b) => CmpRoundTrip(op, a, b, rest);
    case Cross(a, b) => CrossRoundTrip(a, b, rest);
    case _ =>
      Regroup3([LParen] + OrTokens(e), [RParen], rest);
      DropFirst(LParen, OrTokens(e), [RParen] + rest);
      OrRoundTrip(e, [RParen] + rest);
  }

  lemma {:induction false} AndTailCompose(acc: Expr, l: Expr, more: seq<Token>)
    requires WellFormedExpr(acc) && WellFormedExpr(l)
    requires more == [] || more[0] != LParen
    ensures ParseAndTail(acc, AndRest(l) + more) == ParseAndTail(AndGraft(acc, l), more)
    decreases ExprSize(l), 0
  {
    if l.And? {
      var more' := [AndKw] + AtomTokens(l.right) + more;
      Regroup(AndRest(l.left), [AndKw], AtomTokens(l.right), more);
      AndTailCompose(acc, l.left, more');
      DropFirst(AndKw, AtomTokens(l.right), more);
      AtomRoundTrip(l.right, more);
    } else {
      assert AndRest(l) + more == more;
    }
  }

  /** Parsing a printed and_expr gives it back. */
  lemma {:induction false} AndRoundTrip(e: Expr, rest: seq<Token>)
    requires WellFormedExpr(e)
    requires rest == [] || (rest[0] != LParen && rest[0] != AndKw)
    ensures ParseAnd(AndTokens(e) + rest) == Parsed(e, rest)
    decreases ExprSize(e), AndRank(e) + 1
  {
    AndSplit(e);
    var first := AndLeft(e);
    Regroup3(AtomTokens(first), AndRest(e), rest);
    AtomRoundTrip(first, AndRest(e) + rest);
    if e.And? {
      AndTailCompose(first, e, rest);
    } else {
      assert AndRest(e) + rest == rest;
    }
  }

  lemma {:induction false} OrTailCompose(acc: Expr, l: Expr, more: seq<Token>)
    requires WellFormedExpr(acc) && WellFormedExpr(l)
    requires more == [] || (more[0] != LParen && more[0] != AndKw)
    ensures ParseOrTail(acc, OrRest(l) + more) == ParseOrTail(OrGraft(acc, l), more)
    decreases ExprSize(l), 0
  {
    if l.Or? {
      var more' := [OrKw] + AndTokens(l.right) + more;
      Regroup(OrRest(l.left), [OrKw], AndTokens(l.right), more);
      OrTailCompose(acc, l.left, more');
      DropFirst(OrKw, AndTokens(l.right), more);
      AndRoundTrip(l.right, more);
    } else {
      assert OrRest(l) + more == more;
    }
  }

  /** Parsing a printed expression gives it back, whatever follows it except
      a token that would continue it. */
  lemma {:induction false} OrRoundTrip(e: Expr, rest: seq<Token>)
    requires WellFormedExpr(e)
    requires rest == [] || (rest[0] != LParen && rest[0] != AndKw && rest[0] != OrKw)
    ensures ParseExpr(OrTokens(e) + rest) == Parsed(e, rest)
    decreases ExprSize(e), OrRank(e) + 1
  {
    OrSplit(e);
    var first := OrLeft(e);
    Regroup3(AndTokens(first), OrRest(e), rest);
    AndRoundTrip(first, OrRest(e) + rest);
    assert ParseExpr(OrTokens(e) + rest) == ParseOrTail(first, OrRest(e) + rest);
    if e.Or? {
      OrTailCompose(first, e, rest);
    } else {
      assert OrRest(e) + rest == rest;
    }
  }

  /** The full expression printer: an expression at or_expr level. */
  function ExprTokens(e: Expr): seq<Token>
  {
    OrTokens(e)
  }

  /** Every printed expression parses back to itself: the grammar's
      precedence and associativity are exactly those the printer relies on. */
  lemma ExprRoundTrip(e: Expr)
    requires WellFormedExpr(e)
    ensures ParseExpr(ExprTokens(e)) == Parsed(e, [])
  {
    OrRoundTrip(e, []);
    assert ExprTokens(e) + [] == ExprTokens(e);
  }

  // ---------------------------------------------- precedence, associativity

  /** An atom that is not itself an AND or an OR. */
  predicate Simple(e: Expr)
  {
    WellFormedExpr(e) && (e.Cmp? || e.Cross?)
  }

  lemma SimpleTokens(e: Expr)
    requires Simple(e)
    ensures OrTokens(e) == AtomTokens(e) && AndTokens(e) == AtomTokens(e)
  {
  }

  /** `A OR B AND C` is `or(A, and(B, C))`: AND binds tighter than OR. */
  lemma AndBindsTighterThanOr(a: Expr, b: Expr, c: Expr)
    requires Simple(a) && Simple(b) && Simple(c)
    ensures ParseExpr(AtomTokens(a) + [OrKw] + AtomTokens(b) + [AndKw] + AtomTokens(c))
         == Parsed(Or(a, And(b, c)), [])
  {
    SimpleTokens(a);
    SimpleTokens(b);
    assert AndTokens(And(b, c)) == AtomTokens(b) + [AndKw] + AtomTokens(c);
    assert OrTokens(Or(a, And(b, c))) == OrTokens(a) + [OrKw] + AndTokens(And(b, c));
    Assoc(AtomTokens(a), [OrKw], AtomTokens(b), [AndKw], AtomTokens(c));
    ExprRoundTrip(Or(a, And(b, c)));
  }

  /** `A AND B AND C` is `and(and(A, B), C)`. */
  lemma AndIsLeftAssociative(a: Expr, b: Expr, c: Expr)
    requires Simple(a) && Simple(b) && Simple(c)
    ensures ParseExpr(AtomTokens(a) + [AndKw] + AtomTokens(b) + [AndKw] + AtomTokens(c))
         == Parsed(And(And(a, b), c), [])
  {
    SimpleTokens(a);
    assert AndTokens(And(a, b)) == AtomTokens(a) + [AndKw] + AtomTokens(b);
    assert ExprTokens(And(And(a, b), c)) == AndTokens(And(And(a, b), c));
    ExprRoundTrip(And(And(a, b), c));
  }

  /** `A OR B OR C` is `or(or(A, B), C)`. */
  lemma OrIsLeftAssociative(a: Expr, b: Expr, c: Expr)
    requires Simple(a) && Simple(b) && Simple(c)
    ensures ParseExpr(AtomTokens(a) + [OrKw] + AtomTokens(b) + [OrKw] + AtomTokens(c))
         == Parsed(Or(Or(a, b), c), [])
  {
    SimpleTokens(a);
    SimpleTokens(b);
    SimpleTokens(c);
    assert OrTokens(Or(a, b)) == AtomTokens(a) + [OrKw] + AtomTokens(b);
    ExprRoundTrip(Or(Or(a, b), c));
  }

  /** `(A OR B) AND C` is `and(or(A, B), C)`. */
  lemma ParenthesesOverridePrecedence(a: Expr, b: Expr, c: Expr)
    requires Simple(a) && Simple(b) && Simple(c)
    ensures ParseExpr([LParen] + AtomTokens(a) + [OrKw] + AtomTokens(b) + [RParen, AndKw] + AtomTokens(c))
         == Parsed(And(Or(a, b), c), [])
  {
    SimpleTokens(a);
    SimpleTokens(b);
    assert OrTokens(Or(a, b)) == AtomTokens(a) + [OrKw] + AtomTokens(b);
    assert AndTokens(Or(a, b)) == AtomTokens(Or(a, b)) == [LParen] + OrTokens(Or(a, b)) + [RParen];
    assert OrTokens(And(Or(a, b), c)) == AndTokens(And(Or(a, b), c));
    assert ExprTokens(And(Or(a, b), c)) == AndTokens(Or(a, b)) + [AndKw] + AtomTokens(c);
    ParenShape(LParen, AtomTokens(a), OrKw, AtomTokens(b), RParen, AndKw, AtomTokens(c));
    ExprRoundTrip(And(Or(a, b), c));
  }

  /** A parenthesised expression is the AST of what is inside: `?atom`
      inlines it and adds no node. */
  lemma ParenthesesAddNoNode(ts: seq<Token>, e: Expr, rest: seq<Token>)
    requires ParseExpr(ts) == Parsed(e, [RParen] + rest)
    ensures ParseAtom([LParen] + ts) == Parsed(e, rest)
  {
    assert ([LParen] + ts)[1..] == ts;
  }

  /** A bare NAME is not an atom: without a comparison operator after it the
      expression is rejected (the form the translators emit for a section
      with no recognised phrase, `False`). */
  lemma BareNameRejected(n: string, rest: seq<Token>)
    requires rest == [] || !(rest[0].OpTok? || rest[0] == LParen)
    ensures ParseExpr([Ident(n)] + rest).Unexpected?
  {
    var ts := [Ident(n)] + rest;
    assert ts[1..] == rest;
    assert ParseValue(ts) == Parsed(Name(n), rest);
    assert ParseComparison(ts).Unexpected?;
    assert ParseAtom(ts).Unexpected?;
    assert ParseAnd(ts).Unexpected?;
    assert ParseOr(ts).Unexpected?;
  }

  /** An indicator call is stored under its name lower-cased, whatever the
      case it was written in, with its arguments in their written order. */
  lemma IndicatorNameLowered(n: string, args: seq<Value>, rest: seq<Token>)
    requires |args| > 0 && forall i :: 0 <= i < |args| ==> WellFormedValue(args[i])
    ensures ParseValue([Ident(n), LParen] + ArgsTokens(args) + [RParen] + rest)
         == Parsed(Indicator(Lower(n), args), rest)
  {
    var ts := [Ident(n), LParen] + ArgsTokens(args) + [RParen] + rest;
    assert ts[2..] == ArgsTokens(args) + ([RParen] + rest);
    ArgsRoundTrip(args, [RParen] + rest);
    assert ([RParen] + rest)[1..] == rest;
  }

  /** A bare name not followed by `(` is a name node and keeps its case. */
  lemma NameKeepsCase(n: string, rest: seq<Token>)
    requires rest == [] || rest[0] != LParen
    ensures ParseValue([Ident(n)] + rest) == Parsed(Name(n), rest)
  {
    assert ([Ident(n)] + rest)[1..] == rest;
  }

  /** `base.shift(d)` is a shift node whose count is the decimal value of d;
      the digits written back in decimal read as the same count. */
  lemma ShiftCount(b: string, d: Digits, rest: seq<Token>)
    ensures ParseValue([ShiftRef(b, d)] + rest) == Parsed(Shift(b, DecimalValue(d)), rest)
    ensures ParseValue([ShiftRef(b, NatToString(DecimalValue(d)))] + rest) == Parsed(Shift(b, DecimalValue(d)), rest)
  {
    assert ([ShiftRef(b, d)] + rest)[1..] == rest;
    assert ([ShiftRef(b, NatToString(DecimalValue(d)))] + rest)[1..] == rest;
  }

  // --------------------------------------------------------------- sections

  /** `ENTRY:` or `EXIT:` followed on the same line by the body, if any. */
  function SectionTokens(s: Section): seq<Token>
    requires IsSectionWord(s.keyword)
  {
    [SectionKw(s.keyword), Colon] + (if s.body.Some? then ExprTokens(s.body.value) else [])
  }

  /** Each further section on a new line. */
  function LaterSectionsTokens(ss: seq<Section>): seq<Token>
    requires forall i :: 0 <= i < |ss| ==> IsSectionWord(ss[i].keyword)
  {
    if ss == [] then [] else [Newline] + SectionTokens(ss[0]) + LaterSectionsTokens(ss[1..])
  }

  /** What the printer can write: one or more sections with well-formed
      bodies, of which only the last may lack an expression. */
  predicate Printable(secs: seq<Section>)
  {
    SectionsOk(secs) && forall i :: 0 <= i < |secs| - 1 ==> secs[i].body.Some?
  }

  lemma ExprTokensStart(e: Expr)
    ensures |ExprTokens(e)| > 0 && StartsExpr(ExprTokens(e)[0])
  {
    OrSplit(e);
    AndSplit(OrLeft(e));
  }

  lemma {:induction false} SectionRoundTrip(s: Section, rest: seq<Token>)
    requires IsSectionWord(s.keyword) && (s.body.Some? ==> WellFormedExpr(s.body.value))
    requires rest == [] || rest[0] == Newline
    requires s.body.None? ==> rest == []
    ensures ParseSection(SectionTokens(s) + rest) == Parsed(s, rest)
  {
    var ts := SectionTokens(s) + rest;
    if s.body.Some? {
      var e := s.body.value;
      ExprTokensStart(e);
      var body := ExprTokens(e) + rest;
      assert ts[2..] == body && body[0] == ExprTokens(e)[0];
      OrRoundTrip(e, rest);
      SectionOfParts(ts, s.keyword, body, e, rest);
    } else {
      assert ts[2..] == [];
    }
  }

  /** A keyword, a colon and an expression that parses make a section. */
  lemma SectionOfParts(ts: seq<Token>, k: string, body: seq<Token>, e: Expr, rest: seq<Token>)
    requires IsSectionWord(k)
    requires |ts| > 2 && ts[0] == SectionKw(k) && ts[1] == Colon && ts[2..] == body
    requires StartsExpr(body[0]) && ParseExpr(body) == Parsed(e, rest)
    ensures ParseSection(ts) == Parsed(Section(k, Some(e)), rest)
  {
    assert ts[0].SectionKw? && ts[0].word == k;
    assert body != [] && body[0] != Newline;
    assert SkipNewlines(ts[2..]) == body;
  }

  lemma SectionsOkSnoc(acc: seq<Section>, s: Section)
    requires SectionsOk(acc)
    requires IsSectionWord(s.keyword) && (s.body.Some? ==> WellFormedExpr(s.body.value))
    ensures SectionsOk(acc + [s])
  {
    assert forall i :: 0 <= i < |acc| ==> (acc + [s])[i] == acc[i];
  }

  lemma LaterStartsWithNewline(ss: seq<Section>)
    requires forall i :: 0 <= i < |ss| ==> IsSectionWord(ss[i].keyword)
    ensures LaterSectionsTokens(ss) == [] || LaterSectionsTokens(ss)[0] == Newline
  {
    if ss != [] {
      var x := SectionTokens(ss[0]) + LaterSectionsTokens(ss[1..]);
      Regroup3([Newline], SectionTokens(ss[0]), LaterSectionsTokens(ss[1..]));
      Cons(Newline, x);
    }
  }

  lemma SectionsOkTail(ss: seq<Section>)
    requires |ss| > 0 && SectionsOk(ss)
    ensures IsSectionWord(ss[0].keyword) && (ss[0].body.Some? ==> WellFormedExpr(ss[0].body.value))
    ensures SectionsOk(ss[1..])
  {
    assert forall i :: 0 <= i < |ss| - 1 ==> ss[1..][i] == ss[i + 1];
  }

  lemma SkipOneNewline(x: seq<Token>)
    requires x == [] || x[0] != Newline
    ensures SkipNewlines([Newline] + x) == x
  {
    assert ([Newline] + x)[1..] == x;
  }

  /** One step of the tail loop: a line break, then a section. */
  lemma LaterSectionStep(acc: seq<Section>, s: Section, later: seq<Token>)
    requires SectionsOk(acc)
    requires IsSectionWord(s.keyword) && (s.body.Some? ==> WellFormedExpr(s.body.value))
    requires later == [] || later[0] == Newline
    requires s.body.None? ==> later == []
    ensures SectionsOk(acc + [s])
    ensures ParseSectionsTail(acc, [Newline] + SectionTokens(s) + later)
         == ParseSectionsTail(acc + [s], later)
  {
    SectionsOkSnoc(acc, s);
    var x := SectionTokens(s) + later;
    Regroup3([Newline], SectionTokens(s), later);
    SkipOneNewline(x);
    SectionRoundTrip(s, later);
  }

  lemma {:induction false} LaterSectionsRoundTrip(acc: seq<Section>, ss: seq<Section>)
    requires SectionsOk(acc) && SectionsOk(ss)
    requires forall i :: 0 <= i < |ss| - 1 ==> ss[i].body.Some?
    ensures ParseSectionsTail(acc, LaterSectionsTokens(ss)) == Parsed(acc + ss, [])
    decreases |ss|
  {
    if ss == [] {
      assert acc + ss == acc;
    } else {
      var later := LaterSectionsTokens(ss[1..]);
      LaterStartsWithNewline(ss[1..]);
      SectionsOkTail(ss);
      LaterSectionStep(acc, ss[0], later);
      LaterSectionsRoundTrip(acc + [ss[0]], ss[1..]);
      SnocHead(acc, ss);
    }
  }

  /** Every printable strategy parses back to its sections: the `start`
      production accepts any sequence of sections on separate lines. */
  lemma StartRoundTrip(secs: seq<Section>)
    requires |secs| >= 1 && Printable(secs)
    ensures ParseStart(SectionTokens(secs[0]) + LaterSectionsTokens(secs[1..])) == Parsed(secs, [])
  {
    var later := LaterSectionsTokens(secs[1..]);
    var ts := SectionTokens(secs[0]) + later;
    LaterStartsWithNewline(secs[1..]);
    SectionsOkTail(secs);
    FirstSectionParses(secs[0], later);
    TailParses(secs);
    StartOfParts(ts, secs[0], later, secs);
  }

  /** The first section, printed without leading line breaks, parses back. */
  lemma FirstSectionParses(s: Section, later: seq<Token>)
    requires IsSectionWord(s.keyword) && (s.body.Some? ==> WellFormedExpr(s.body.value))
    requires later == [] || later[0] == Newline
    requires s.body.None? ==> later == []
    ensures SkipNewlines(SectionTokens(s) + later) == SectionTokens(s) + later
    ensures ParseSection(SectionTokens(s) + later) == Parsed(s, later)
  {
    HeadOfConcat(SectionTokens(s), later);
    SectionRoundTrip(s, later);
  }

  /** The sections after the first parse back through the tail loop. */
  lemma TailParses(secs: seq<Section>)
    requires |secs| >= 1 && Printable(secs)
    ensures ParseSectionsTail([secs[0]], LaterSectionsTokens(secs[1..])) == Parsed(secs, [])
  {
    SectionsOkTail(secs);
    LaterSectionsRoundTrip([secs[0]], secs[1..]);
    HeadTail(secs);
  }

  /** `start` is the first section and then the tail loop. */
  lemma StartOfParts(ts: seq<Token>, s: Section, later: seq<Token>, secs: seq<Section>)
    requires SkipNewlines(ts) == ts && ParseSection(ts) == Parsed(s, later)
    requires ParseSectionsTail([s], later) == Parsed(secs, [])
    ensures ParseStart(ts) == Parsed(secs, [])
  {
  }

  /** A section without an expression followed by another section is
      rejected: the line break after its colon has already been taken by
      that section's own `_NL*`, so nothing separates it from the next. */
  lemma EmptySectionMustBeLast(w1: SectionWord, w2: SectionWord, more: seq<Token>)
    ensures ParseStart([SectionKw(w1), Colon, Newline, SectionKw(w2), Colon] + more)
         == Unexpected(Some(SectionKw(w2)))
  {
    var r := [SectionKw(w2), Colon] + more;
    var ts := [SectionKw(w1), Colon, Newline] + r;
    assert ts == [SectionKw(w1), Colon, Newline, SectionKw(w2), Colon] + more;
    assert SkipNewlines(ts) == ts;
    EmptySectionParse(w1, r);
  }

  lemma EmptySectionParse(w: SectionWord, r: seq<Token>)
    requires r == [] || (r[0] != Newline && !StartsExpr(r[0]))
    ensures ParseSection([SectionKw(w), Colon, Newline] + r) == Parsed(Section(w, None), r)
  {
    var ts := [SectionKw(w), Colon, Newline] + r;
    assert ts[0] == SectionKw(w) && ts[1] == Colon;
    assert ts[2..] == [Newline] + r;
    SkipOneNewline(r);
    assert SkipNewlines(ts[2..]) == r;
    SectionWithoutBody(ts);
  }

  /** A keyword and colon followed, after the line breaks, by no expression
      make a section with no body. */
  lemma SectionWithoutBody(ts: seq<Token>)
    requires |ts| >= 2 && ts[0].SectionKw? && ts[1] == Colon
    requires SkipNewlines(ts[2..]) == [] || !StartsExpr(SkipNewlines(ts[2..])[0])
    ensures ParseSection(ts) == Parsed(Section(ts[0].word, None), SkipNewlines(ts[2..]))
  {
  }
}
