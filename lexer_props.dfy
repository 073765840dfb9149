/** The lexer read back against the grammar's spelling of each terminal:
    every well-formed token list, printed with a blank after each token,
    tokenises to exactly that list. */
module LexerProps {
  import opened Text
  import opened Ast
  import opened Lexer

  /** ENTRY and EXIT in any case are spelt with letters only. */
  lemma SectionWordIsIdentifier(w: string)
    requires IsSectionWord(w)
    ensures IsIdentifier(w)
  {
    assert |Lower(w)| == |w|;
    forall k | 0 <= k < |w|
      ensures IsLetter(w[k])
    {
      assert Lower(w)[k] == LowerChar(w[k]);
      assert 'a' <= Lower(w)[k] <= 'z';
    }
  }

  /** IdentEnd stops exactly at the first non-identifier character. */
  lemma IdentEndAt(s: string, i: nat, e: nat)
    requires i <= e < |s| && !IsIdentChar(s[e])
    requires forall x :: i <= x < e ==> IsIdentChar(s[x])
    ensures IdentEnd(s, i) == e
  {
  }

  /** A whole identifier followed by a character that cannot continue it
      scans as the token Classify gives it. */
  lemma WordOfText(s: string, i: nat, w: string)
    requires IsIdentifier(w) && i + |w| < |s| && s[i..i + |w|] == w && s[i + |w|] == ' '
    ensures IsIdentStart(s[i])
    ensures ScanWord(s, i) == (Classify(w), i + |w|)
  {
    IdentOfText(s, i, w);
  }

  /** An identifier in the text ends where its spelling ends, when the
      character after it cannot continue it. */
  lemma IdentOfText(s: string, i: nat, w: string)
    requires IsIdentifier(w) && i + |w| < |s| && s[i..i + |w|] == w && !IsIdentChar(s[i + |w|])
    ensures IsIdentStart(s[i]) && IdentEnd(s, i) == i + |w|
  {
    assert s[i] == w[0];
    forall x | i <= x < i + |w|
      ensures IsIdentChar(s[x])
    {
      assert s[x] == w[x - i];
    }
    IdentEndAt(s, i, i + |w|);
  }

  /** `name.shift(digits)` followed by a blank scans as that SHIFT_EXPR. */
  lemma ShiftOfText(s: string, i: nat, b: string, d: Digits)
    requires IsIdentifier(b)
    requires var n := |b + ShiftOpen + d + ")"|; i + n < |s| && s[i..i + n] == b + ShiftOpen + d + ")"
    ensures IsIdentStart(s[i])
    ensures ScanWord(s, i) == (ShiftRef(b, d), i + |b + ShiftOpen + d + ")"|)
  {
    ShiftTextAt(s, i, b, d);
  }

  /** The printed shift reference is a SHIFT_EXPR match ending where its text ends. */
  lemma ShiftTextAt(s: string, i: nat, b: string, d: Digits)
    requires IsIdentifier(b)
    requires var n := |b + ShiftOpen + d + ")"|; i + n < |s| && s[i..i + n] == b + ShiftOpen + d + ")"
    ensures IsIdentStart(s[i]) && IdentEnd(s, i) == i + |b|
    ensures ShiftAt(s, i, i + |b|, i + |b + ShiftOpen + d + ")"|)
    ensures s[i..i + |b|] == b && s[i + |b| + |ShiftOpen|..i + |b| + |ShiftOpen| + |d|] == d
  {
    var j := i + |b|;
    var o := j + |ShiftOpen|;
    var k := o + |d|;
    SliceOfFour(s, i, b, ShiftOpen, d, ")");
    assert s[j] == s[j..o][0];
    IdentOfText(s, i, b);
    assert s[k] == s[k..k + 1][0];
    assert j == i + |b|;
    assert k < |s|;
    assert s[i..j] == b;
    assert s[j..j + |ShiftOpen|] == ShiftOpen;
    assert s[j + |ShiftOpen|..k] == d;
    assert s[k] == ')';
    ShiftAtOfParts(s, i, j, k, b, d);
  }

  /** A name, `.shift(`, digits and `)` in a row form a SHIFT_EXPR match. */
  lemma ShiftAtOfParts(s: string, i: nat, j: nat, k: nat, b: string, d: Digits)
    requires j == i + |b| && k == j + |ShiftOpen| + |d| < |s|
    requires IsIdentifier(b) && s[i..j] == b
    requires s[j..j + |ShiftOpen|] == ShiftOpen && s[j + |ShiftOpen|..k] == d && s[k] == ')'
    ensures ShiftAt(s, i, j, k + 1)
  {
  }

  /** The slice holding four strings in a row holds each of them in turn. */
  lemma SliceOfFour(s: string, i: nat, a: string, b: string, c: string, d: string)
    requires i + |a + b + c + d| <= |s| && s[i..i + |a + b + c + d|] == a + b + c + d
    ensures s[i..i + |a|] == a && s[i + |a|..i + |a| + |b|] == b
    ensures s[i + |a| + |b|..i + |a| + |b| + |c|] == c
    ensures s[i + |a| + |b| + |c|..i + |a| + |b| + |c| + |d|] == d
  {
    SliceOfConcat(s, i, a + b + c, d);
    SliceOfConcat(s, i, a + b, c);
    SliceOfConcat(s, i, a, b);
  }

  /** A SIGNED_NUMBER followed by a blank scans as exactly that number. */
  lemma NumberOfText(s: string, i: nat, l: string)
    requires IsSignedNumber(l) && i + |l| < |s| && s[i..i + |l|] == l && s[i + |l|] == ' '
    ensures IsDigit(s[i]) || s[i] == '+' || s[i] == '-' || s[i] == '.'
    ensures NumberEnd(s, i) == i + |l|
  {
    var e := i + |l|;
    assert SameChars(l, s, i, 0, |l|) by {
      forall k | 0 <= k < |l|
        ensures s[k + i] == l[k]
      {
        assert s[i..e][k] == s[k + i];
      }
    }
    SignedNumberMoves(l, s, i, 0, |l|);
    assert SignedNumberAt(s, i, e);
    NumberChars(s, i, e);
    var j := NumberEnd(s, i);
    assert j != 0 && e <= j;
    NumberChars(s, i, j);
  }

  /** A keyword or a name followed by a blank is one token. */
  lemma WordTokenOfText(s: string, i: nat, t: Token)
    requires t.SectionKw? || t.AndKw? || t.OrKw? || t.CrossKw? || t.Ident?
    requires WellFormed(t)
    requires i + |TokenText(t)| < |s| && s[i..i + |TokenText(t)|] == TokenText(t) && s[i + |TokenText(t)|] == ' '
    ensures NextToken(s, i) == Some((Some(t), i + |TokenText(t)|))
  {
    WordTextClassifies(t);
    WordOfText(s, i, TokenText(t));
    WordBranch(s, i);
  }

  /** The text of a keyword or NAME token is an identifier classified as that token. */
  lemma WordTextClassifies(t: Token)
    requires t.SectionKw? || t.AndKw? || t.OrKw? || t.CrossKw? || t.Ident?
    requires WellFormed(t)
    ensures IsIdentifier(TokenText(t)) && Classify(TokenText(t)) == t
  {
    if t.SectionKw? {
      SectionWordIsIdentifier(t.word);
    }
  }

  /** At an identifier start, NextToken scans a word. */
  lemma WordBranch(s: string, i: nat)
    requires i < |s| && IsIdentStart(s[i])
    ensures NextToken(s, i) == Some((Some(ScanWord(s, i).0), ScanWord(s, i).1))
  {
    assert !IsSymbolChar(s[i]);
  }

  lemma ShiftTokenOfText(s: string, i: nat, t: Token)
    requires t.ShiftRef? && WellFormed(t)
    requires i + |TokenText(t)| < |s| && s[i..i + |TokenText(t)|] == TokenText(t) && s[i + |TokenText(t)|] == ' '
    ensures NextToken(s, i) == Some((Some(t), i + |TokenText(t)|))
  {
    ShiftOfText(s, i, t.base, t.digits);
    WordBranch(s, i);
  }

  lemma NumberTokenOfText(s: string, i: nat, t: Token)
    requires t.Num? && WellFormed(t)
    requires i + |TokenText(t)| < |s| && s[i..i + |TokenText(t)|] == TokenText(t) && s[i + |TokenText(t)|] == ' '
    ensures NextToken(s, i) == Some((Some(t), i + |TokenText(t)|))
  {
    var l := t.lexeme;
    NumberOfText(s, i, l);
    SymbolFree(s[i]);
    assert s[i..NumberEnd(s, i)] == l;
  }

  /** Punctuation, an operator or a line break followed by a blank is one token. */
  lemma SymbolTokenOfText(s: string, i: nat, t: Token)
    requires t.Colon? || t.LParen? || t.RParen? || t.Comma? || t.OpTok? || t.Newline?
    requires i + |TokenText(t)| < |s| && s[i..i + |TokenText(t)|] == TokenText(t) && s[i + |TokenText(t)|] == ' '
    ensures NextToken(s, i) == Some((Some(t), i + |TokenText(t)|))
  {
    var n := |TokenText(t)|;
    assert s[i] == s[i..i + n][0] == TokenText(t)[0];
    if t.OpTok? && n == 2 {
      assert s[i + 1] == s[i..i + n][1] == TokenText(t)[1];
    }
    assert IsSymbolChar(s[i]);
    assert NextToken(s, i) == SymbolToken(s, i);
  }

  /** A token's text followed by a blank scans back to that token. */
  lemma NextTokenOfText(s: string, i: nat, t: Token)
    requires WellFormed(t)
    requires i + |TokenText(t)| < |s| && s[i..i + |TokenText(t)|] == TokenText(t) && s[i + |TokenText(t)|] == ' '
    ensures NextToken(s, i) == Some((Some(t), i + |TokenText(t)|))
  {
    if t.SectionKw? || t.AndKw? || t.OrKw? || t.CrossKw? || t.Ident? {
      WordTokenOfText(s, i, t);
    } else if t.ShiftRef? {
      ShiftTokenOfText(s, i, t);
    } else if t.Num? {
      NumberTokenOfText(s, i, t);
    } else {
      SymbolTokenOfText(s, i, t);
    }
  }

  /** Digits, signs and points start neither blanks, punctuation, operators nor names. */
  lemma SymbolFree(c: char)
    requires IsDigit(c) || c == '+' || c == '-' || c == '.'
    ensures !IsSymbolChar(c) && !IsIdentStart(c)
  {
  }

  /** One step of Lex: a token, then the rest of the text. */
  lemma LexStep(s: string, i: nat, t: Token, j: nat)
    requires i < |s| && NextToken(s, i) == Some((Some(t), j))
    ensures Lex(s, i) == Lexed([t] + Lex(s, j).toks, Lex(s, j).bad)
  {
  }

  /** A blank is skipped. */
  lemma LexBlank(s: string, j: nat)
    requires j < |s| && s[j] == ' '
    ensures Lex(s, j) == Lex(s, j + 1)
  {
    assert IsSymbolChar(s[j]);
    assert NextToken(s, j).value == (None, j + 1);
    assert Lex(s, j).toks == [] + Lex(s, j + 1).toks;
  }

  /** The text of each token, in order. */
  function Texts(ts: seq<Token>): (ws: seq<string>)
    ensures |ws| == |ts|
  {
    if ts == [] then [] else [TokenText(ts[0])] + Texts(ts[1..])
  }

  /** Words, each followed by a blank. */
  function Blanked(ws: seq<string>): string
  {
    if ws == [] then "" else ws[0] + " " + Blanked(ws[1..])
  }

  /** Spaced prints the texts of the tokens, each followed by a blank. */
  lemma {:induction false} SpacedIsBlanked(ts: seq<Token>)
    ensures Spaced(ts) == Blanked(Texts(ts))
  {
    if ts != [] {
      SpacedIsBlanked(ts[1..]);
      assert Texts(ts)[1..] == Texts(ts[1..]);
    }
  }

  /** s[i..e] holds the words `ws`, each followed by a blank. */
  predicate WordsAt(s: string, i: nat, ws: seq<string>, e: nat)
    decreases ws
  {
    if ws == [] then i == e <= |s|
    else
      i + |ws[0]| < |s| && s[i..i + |ws[0]|] == ws[0] && s[i + |ws[0]|] == ' '
      && WordsAt(s, i + |ws[0]| + 1, ws[1..], e)
  }

  /** A slice holding blank-terminated words holds each word and its blank in turn. */
  lemma {:induction false} BlankedIsWords(s: string, i: nat, ws: seq<string>, e: nat)
    requires e == i + |Blanked(ws)| <= |s| && s[i..e] == Blanked(ws)
    ensures WordsAt(s, i, ws, e)
    decreases ws
  {
    if ws != [] {
      BlankSplit(s, i, ws[0], Blanked(ws[1..]));
      BlankedIsWords(s, i + |ws[0]| + 1, ws[1..], e);
    }
  }

  /** Lexing printed tokens yields those tokens and then goes on where the
      printed text ends. */
  lemma {:induction false} LexPrinted(s: string, i: nat, ts: seq<Token>, e: nat)
    requires forall k :: 0 <= k < |ts| ==> WellFormed(ts[k])
    requires WordsAt(s, i, Texts(ts), e)
    ensures e <= |s|
    ensures Lex(s, i) == Lexed(ts + Lex(s, e).toks, Lex(s, e).bad)
    decreases ts
  {
    if ts != [] {
      var k := PrintedStep(s, i, ts, e);
      LexPrinted(s, k + 1, ts[1..], e);
      Prepend(Lex(s, i), Lex(s, k + 1), Lex(s, e), ts);
    }
  }

  /** Lexing the first printed token: it is produced, and the rest of the
      tokens are printed after its blank. */
  lemma PrintedStep(s: string, i: nat, ts: seq<Token>, e: nat) returns (k: nat)
    requires ts != [] && forall k :: 0 <= k < |ts| ==> WellFormed(ts[k])
    requires WordsAt(s, i, Texts(ts), e)
    ensures k < |s| && Lex(s, i) == Lexed([ts[0]] + Lex(s, k + 1).toks, Lex(s, k + 1).bad)
    ensures forall k :: 0 <= k < |ts| - 1 ==> WellFormed(ts[1..][k])
    ensures WordsAt(s, k + 1, Texts(ts[1..]), e)
  {
    k := FirstWord(s, i, ts, e);
    TokenThenBlank(s, i, ts[0], k);
    AllWellFormedTail(ts);
  }

  /** The first printed token, and the printed tokens after it. */
  lemma FirstWord(s: string, i: nat, ts: seq<Token>, e: nat) returns (k: nat)
    requires ts != [] && WordsAt(s, i, Texts(ts), e)
    ensures k == i + |TokenText(ts[0])| < |s|
    ensures s[i..k] == TokenText(ts[0]) && s[k] == ' '
    ensures WordsAt(s, k + 1, Texts(ts[1..]), e)
  {
    var ws := Texts(ts);
    assert ws[0] == TokenText(ts[0]) && ws[1..] == Texts(ts[1..]);
    k := i + |ws[0]|;
  }

  /** The tokens after the first of well-formed tokens are well formed. */
  lemma AllWellFormedTail(ts: seq<Token>)
    requires ts != [] && forall k :: 0 <= k < |ts| ==> WellFormed(ts[k])
    ensures forall k :: 0 <= k < |ts| - 1 ==> WellFormed(ts[1..][k])
  {
    forall k | 0 <= k < |ts| - 1
      ensures WellFormed(ts[1..][k])
    {
      assert ts[1..][k] == ts[k + 1];
    }
  }

  /** A token in front of a result that continues with `ts[1..]`. */
  lemma Prepend(x: LexResult, y: LexResult, z: LexResult, ts: seq<Token>)
    requires ts != []
    requires x == Lexed([ts[0]] + y.toks, y.bad)
    requires y == Lexed(ts[1..] + z.toks, z.bad)
    ensures x == Lexed(ts + z.toks, z.bad)
  {
    assert ts == [ts[0]] + ts[1..];
  }

  /** The text Spaced prints holds the tokens' texts, each followed by a blank. */
  lemma SpacedIsPrinted(s: string, i: nat, ts: seq<Token>, e: nat)
    requires e == i + |Spaced(ts)| <= |s| && s[i..e] == Spaced(ts)
    ensures WordsAt(s, i, Texts(ts), e)
  {
    SpacedIsBlanked(ts);
    BlankedIsWords(s, i, Texts(ts), e);
  }

  /** A token's text and a blank: Lex yields the token and resumes after the blank. */
  lemma TokenThenBlank(s: string, i: nat, t: Token, k: nat)
    requires WellFormed(t)
    requires k == i + |TokenText(t)| < |s|
    requires s[i..k] == TokenText(t) && s[k] == ' '
    ensures Lex(s, i) == Lexed([t] + Lex(s, k + 1).toks, Lex(s, k + 1).bad)
  {
    NextTokenOfText(s, i, t);
    StepThenBlank(s, i, t, k);
  }

  /** A token that ends at a blank: Lex resumes after the blank. */
  lemma StepThenBlank(s: string, i: nat, t: Token, k: nat)
    requires i < k < |s| && s[k] == ' '
    requires NextToken(s, i) == Some((Some(t), k))
    ensures Lex(s, i) == Lexed([t] + Lex(s, k + 1).toks, Lex(s, k + 1).bad)
  {
    LexStep(s, i, t, k);
    LexBlank(s, k);
  }

  /** A slice holding `a`, a blank and `b` holds each of them in turn. */
  lemma BlankSplit(s: string, i: nat, a: string, b: string)
    requires i + |a| + 1 + |b| <= |s| && s[i..i + |a| + 1 + |b|] == a + " " + b
    ensures s[i..i + |a|] == a && s[i + |a|] == ' ' && s[i + |a| + 1..i + |a| + 1 + |b|] == b
  {
    assert a + " " + b == a + (" " + b);
    SliceOfConcat(s, i, a, " " + b);
    SliceOfConcat(s, i + |a|, " ", b);
    assert s[i + |a|] == s[i + |a|..i + |a| + 1][0];
  }

  /** The slice holding a concatenation holds each part in turn. */
  lemma SliceOfConcat(s: string, i: nat, a: string, b: string)
    requires i + |a + b| <= |s| && s[i..i + |a + b|] == a + b
    ensures s[i..i + |a|] == a && s[i + |a|..i + |a| + |b|] == b
  {
    var ab := s[i..i + |a + b|];
    assert s[i..i + |a|] == ab[..|a|];
    assert s[i + |a|..i + |a| + |b|] == ab[|a|..];
  }

  /** The lexer inverts printing: well-formed tokens, each followed by a
      blank, tokenise back to themselves with no character left unmatched. */
  lemma TokenizeSpaced(ts: seq<Token>)
    requires forall k :: 0 <= k < |ts| ==> WellFormed(ts[k])
    ensures Tokenize(Spaced(ts)) == Lexed(ts, None)
  {
    var s := Spaced(ts);
    assert s[0..|s|] == s;
    SpacedIsPrinted(s, 0, ts, |s|);
    LexPrinted(s, 0, ts, |s|);
  }

  /** Printed tokens followed by a character no terminal matches: Tokenize
      yields those tokens and reports that character. */
  lemma TokenizeStopsAt(s: string, ts: seq<Token>, p: nat)
    requires forall k :: 0 <= k < |ts| ==> WellFormed(ts[k])
    requires p == |Spaced(ts)| < |s| && s[..p] == Spaced(ts)
    requires NextToken(s, p).None?
    ensures Tokenize(s) == Lexed(ts, Some(p))
  {
    assert s[0..p] == s[..p];
    SpacedIsPrinted(s, 0, ts, p);
    LexPrinted(s, 0, ts, p);
    assert ts + [] == ts;
  }
}
