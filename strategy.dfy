/** The section fold of ASTTransformer.start (dsl_parser.py:46-51) and
    parse_dsl (dsl_parser.py:94-100): text to the strategy dictionary with
    the keys "entry" and "exit". */
module Strategy {
  import opened Text
  import opened Ast
  import opened Lexer
  import opened Parser
  import opened LexerProps

  datatype Outcome<T> =
    | Success(value: T)
    | LexFailure(pos: nat)                // no terminal matches at this character
    | SyntaxFailure(found: Option<Token>) // this token (None: end of input) is not allowed here

  /** The body of the LAST section whose keyword lower-cases to `k`, or None
      when no section has that key. */
  function LastBody(secs: seq<Section>, k: string): (r: Option<Option<Expr>>)
    ensures r.Some? ==> exists i :: 0 <= i < |secs| && Lower(secs[i].keyword) == k && secs[i].body == r.value
  {
    if secs == [] then None
    else if Lower(secs[|secs| - 1].keyword) == k then Some(secs[|secs| - 1].body)
    else LastBody(secs[..|secs| - 1], k)
  }

  /** LastBody finds a key exactly when some section carries it. */
  lemma {:induction false} LastBodyFindsKey(secs: seq<Section>, k: string)
    ensures LastBody(secs, k).Some? <==> exists i :: 0 <= i < |secs| && Lower(secs[i].keyword) == k
  {
    if secs != [] {
      var n := |secs| - 1;
      if Lower(secs[n].keyword) != k {
        var front := secs[..n];
        LastBodyFindsKey(front, k);
        assert forall i :: 0 <= i < n ==> front[i] == secs[i];
      }
    }
  }

  /** A section with key `k` after which no section carries `k` is the one
      whose body LastBody finds: a repeated keyword is won by its last
      occurrence. */
  lemma {:induction false} LastBodyIsLastOccurrence(secs: seq<Section>, k: string, i: nat)
    requires i < |secs| && Lower(secs[i].keyword) == k
    requires forall j :: i < j < |secs| ==> Lower(secs[j].keyword) != k
    ensures LastBody(secs, k) == Some(secs[i].body)
  {
    var n := |secs| - 1;
    if i < n {
      var front := secs[..n];
      assert front[i] == secs[i];
      assert forall j :: i < j < n ==> front[j] == secs[j];
      LastBodyIsLastOccurrence(front, k, i);
    }
  }

  /** Sections are tokens parsed by `start`. The lexer feeds the parser as it
      goes, so the error reported is the one met first in the text: a token
      the grammar rejects before the first unmatched character is a syntax
      error; the parser needing input past the tokens lexed so far meets
      that character, a lexical error. */
  function ParseSections(text: string): (r: Outcome<seq<Section>>)
    ensures r.SyntaxFailure? && r.found.Some? ==> r.found.value in Tokenize(text).toks
    ensures r.LexFailure? ==>
      Tokenize(text).bad == Some(r.pos) &&
      !(ParseStart(Tokenize(text).toks).Unexpected? && ParseStart(Tokenize(text).toks).found.Some?)
    ensures r.SyntaxFailure? && r.found.None? ==> Tokenize(text).bad.None?
    ensures r.Success? <==> Tokenize(text).bad.None? && ParseStart(Tokenize(text).toks).Parsed?
    ensures r.Success? ==> |r.value| >= 1 && SectionsOk(r.value)
  {
    var lexed := Tokenize(text);
    var parsed := ParseStart(lexed.toks);
    if parsed.Unexpected? && parsed.found.Some? then SyntaxFailure(parsed.found)
    else if lexed.bad.Some? then LexFailure(lexed.bad.value)
    else if parsed.Unexpected? then SyntaxFailure(None)
    else Success(parsed.value)
  }

  /** A syntax error earlier in the text wins over a later unmatched
      character: in "ENTRY : a b $" the second name is reported. */
  lemma SyntaxBeforeBadCharacter()
    ensures ParseSections("ENTRY : a b $") == SyntaxFailure(Some(Ident("b")))
  {
    EntryIsSectionWord();
    var ts := [SectionKw("ENTRY"), Colon, Ident("a"), Ident("b")];
    NamesWellFormed();
    PrintedTwoNames();
    assert "ENTRY : a b $" == Spaced(ts) + "$" + "";
    LexesUpToDollar(ts, "");
    NameThenName();
  }

  /** An unmatched character the parser reaches while a section is still
      incomplete is reported as a lexical error: "ENTRY : a $ b" fails at
      the '$'. */
  lemma BadCharacterBeforeSyntax()
    ensures ParseSections("ENTRY : a $ b") == LexFailure(10)
  {
    EntryIsSectionWord();
    var ts := [SectionKw("ENTRY"), Colon, Ident("a")];
    NamesWellFormed();
    PrintedOneName();
    assert "ENTRY : a $ b" == Spaced(ts) + "$" + " b";
    LexesUpToDollar(ts, " b");
    NameThenEnd();
  }

  /** ENTRY in capitals is a section keyword. */
  lemma EntryIsSectionWord()
    ensures IsSectionWord("ENTRY")
  {
    assert Lower("ENTRY") == "entry";
  }

  /** The names of the examples are NAME tokens. */
  lemma NamesWellFormed()
    ensures WellFormed(Ident("a")) && WellFormed(Ident("b"))
  {
    assert IsIdentifier("a") && !IsKeyword("a");
    assert IsIdentifier("b") && !IsKeyword("b");
  }

  /** The tokens of "ENTRY : a b", printed. */
  lemma PrintedTwoNames()
    requires IsSectionWord("ENTRY")
    ensures Spaced([SectionKw("ENTRY"), Colon, Ident("a"), Ident("b")]) == "ENTRY : a b "
  {
    var ts := [SectionKw("ENTRY"), Colon, Ident("a"), Ident("b")];
    assert Spaced([Ident("b")]) == "b ";
    assert Spaced(ts[2..]) == "a b ";
    assert Spaced(ts[1..]) == ": a b ";
  }

  /** The tokens of "ENTRY : a", printed. */
  lemma PrintedOneName()
    requires IsSectionWord("ENTRY")
    ensures Spaced([SectionKw("ENTRY"), Colon, Ident("a")]) == "ENTRY : a "
  {
    var ts := [SectionKw("ENTRY"), Colon, Ident("a")];
    assert Spaced(ts[2..]) == "a ";
    assert Spaced(ts[1..]) == ": a ";
  }

  /** Printed tokens and then a '$' lex to those tokens and stop at the '$'. */
  lemma LexesUpToDollar(ts: seq<Token>, after: string)
    requires forall k :: 0 <= k < |ts| ==> WellFormed(ts[k])
    ensures Tokenize(Spaced(ts) + "$" + after) == Lexed(ts, Some(|Spaced(ts)|))
  {
    var s := Spaced(ts) + "$" + after;
    var p := |Spaced(ts)|;
    assert s[..p] == Spaced(ts) && s[p] == '$';
    assert NextToken(s, p).None?;
    TokenizeStopsAt(s, ts, p);
  }

  /** `ENTRY : a b` is rejected at `b`: a name must be compared. */
  lemma NameThenName()
    ensures ParseStart([SectionKw("ENTRY"), Colon, Ident("a"), Ident("b")]) == Unexpected(Some(Ident("b")))
  {
    var ts := [SectionKw("ENTRY"), Colon, Ident("a"), Ident("b")];
    var rest := [Ident("b")];
    assert ts[2..] == [Ident("a")] + rest;
    BareName("a", rest);
    SectionFails(ts, Next(rest));
  }

  /** `ENTRY : a` runs out of tokens where an operator must follow. */
  lemma NameThenEnd()
    ensures ParseStart([SectionKw("ENTRY"), Colon, Ident("a")]) == Unexpected(None)
  {
    var ts := [SectionKw("ENTRY"), Colon, Ident("a")];
    var rest: seq<Token> := [];
    assert ts[2..] == [Ident("a")] + rest;
    BareName("a", rest);
    SectionFails(ts, Next(rest));
  }

  /** A name followed by neither "(" nor an operator is a value that is
      neither called nor compared: the expression fails at the token after
      it, or at the end of the input. */
  lemma BareName(n: string, rest: seq<Token>)
    requires rest == [] || (rest[0] != LParen && !rest[0].OpTok?)
    ensures ParseExpr([Ident(n)] + rest) == Unexpected(Next(rest))
  {
    var body := [Ident(n)] + rest;
    NameValue(n, rest);
    assert ParseComparison(body) == Unexpected(Next(rest));
    BareNameUp(body, Unexpected(Next(rest)));
  }

  /** A name not followed by "(" is a NAME value. */
  lemma NameValue(n: string, rest: seq<Token>)
    requires rest == [] || rest[0] != LParen
    ensures ParseValue([Ident(n)] + rest) == Parsed(Name(n), rest)
  {
    var body := [Ident(n)] + rest;
    assert body[0] == Ident(n) && body[1..] == rest;
  }

  /** The failure of a comparison passes up through atom, AND, OR and expr. */
  lemma BareNameUp(body: seq<Token>, failure: ParseResult<Expr>)
    requires body != [] && body[0] != LParen && body[0] != CrossKw
    requires ParseComparison(body) == failure && failure.Unexpected?
    ensures ParseExpr(body) == failure
  {
    assert ParseAtom(body) == failure;
    assert ParseAnd(body) == failure;
  }

  /** A first section whose expression fails makes `start` fail the same way. */
  lemma SectionFails(ts: seq<Token>, f: Option<Token>)
    requires |ts| > 2 && ts[0].SectionKw? && ts[1] == Colon && ts[2] != Newline && StartsExpr(ts[2])
    requires ParseExpr(ts[2..]) == Unexpected(f)
    ensures ParseStart(ts) == Unexpected(f)
  {
    assert SkipNewlines(ts) == ts;
    assert SkipNewlines(ts[2..]) == ts[2..];
    assert ParseSection(ts) == Unexpected(f);
  }

  /** ASTTransformer.start: for each section, in order, store its body (None
      when it has no expression) under its lower-cased keyword, overwriting
      any earlier value. */
  method BuildStrategy(secs: seq<Section>) returns (out: map<string, Option<Expr>>)
    ensures forall k :: k in out <==> LastBody(secs, k).Some?
    ensures forall k :: k in out ==> out[k] == LastBody(secs, k).value
  {
    out := map[];
    var i := 0;
    while i < |secs|
      invariant 0 <= i <= |secs|
      invariant forall k :: k in out <==> LastBody(secs[..i], k).Some?
      invariant forall k :: k in out ==> out[k] == LastBody(secs[..i], k).value
    {
      assert secs[..i + 1][..i] == secs[..i];
      out := out[Lower(secs[i].keyword) := secs[i].body];
      i := i + 1;
    }
    assert secs[..i] == secs;
  }

  lemma ExactlyEntryAndExit<V>(m: map<string, V>)
    requires "entry" in m && "exit" in m
    requires forall k :: k in m ==> k == "entry" || k == "exit"
    ensures m.Keys == {"entry", "exit"}
  {
  }

  /** The value `setdefault` leaves under a key: the stored body, or None. */
  function BodyOrNone(secs: seq<Section>, k: string): Option<Expr>
  {
    if LastBody(secs, k).Some? then LastBody(secs, k).value else None
  }

  /** The fold of ASTTransformer.start followed by the two `setdefault`
      calls of parse_dsl: exactly the keys "entry" and "exit", each holding
      the body of the last section with that keyword, or None. */
  method StrategyOf(secs: seq<Section>) returns (ast: map<string, Option<Expr>>)
    requires SectionsOk(secs)
    ensures ast.Keys == {"entry", "exit"}
    ensures forall k :: k in ast ==> ast[k] == BodyOrNone(secs, k)
  {
    ast := BuildStrategy(secs);
    forall k | k in ast ensures k == "entry" || k == "exit" {
      LastBodyFindsKey(secs, k);
      var i :| 0 <= i < |secs| && Lower(secs[i].keyword) == k;
      assert IsSectionWord(secs[i].keyword);
    }
    if "entry" !in ast { ast := ast["entry" := None]; }
    if "exit" !in ast { ast := ast["exit" := None]; }
    ExactlyEntryAndExit(ast);
  }

  /** parse_dsl (dsl_parser.py:94-100): a lexical or syntax error is
      reported as such; otherwise the strategy of the parsed sections. */
  method ParseDsl(text: string) returns (r: Outcome<map<string, Option<Expr>>>)
    ensures ParseSections(text).LexFailure? <==> r.LexFailure?
    ensures r.LexFailure? ==> r.pos == ParseSections(text).pos
    ensures ParseSections(text).SyntaxFailure? <==> r.SyntaxFailure?
    ensures r.SyntaxFailure? ==> r.found == ParseSections(text).found
    ensures r.Success? ==> ParseSections(text).Success?
    ensures r.Success? ==> r.value.Keys == {"entry", "exit"}
    ensures r.Success? ==> forall k :: k in r.value ==> r.value[k] == BodyOrNone(ParseSections(text).value, k)
  {
    var ps := ParseSections(text);
    match ps
    case LexFailure(p) => r := LexFailure(p);
    case SyntaxFailure(f) => r := SyntaxFailure(f);
    case Success(secs) =>
      var ast := StrategyOf(secs);
      r := Success(ast);
  }
}
