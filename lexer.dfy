/** The terminals of the strategy grammar (dsl_parser.py:9-42): the tokens and
    a deterministic scanner from text to tokens. Inline blanks (space, tab) are
    skipped as `%ignore WS_INLINE` does; anything no terminal matches is a
    lexing error at that position. */
module Lexer {
  import opened Text
  import opened Ast

  /** A section keyword as written: ENTRY or EXIT in any mix of cases. */
  type SectionWord = w: string | IsSectionWord(w) witness "entry"

  /** The digits inside `.shift(...)`: one or more decimal digits. */
  type Digits = d: string | |d| > 0 && AllDigits(d) witness "0"

  datatype Token =
    | SectionKw(word: SectionWord)  // ENTRY.2 /ENTRY/i and EXIT.2 /EXIT/i, as written
    | Colon
    | LParen
    | RParen
    | Comma
    | AndKw                       // "AND"
    | OrKw                        // "OR"
    | CrossKw                     // "CROSS"
    | OpTok(op: CmpOp)            // OP
    | Ident(name: string)         // NAME (CNAME)
    | Num(lexeme: string)         // NUMBER (SIGNED_NUMBER)
    | ShiftRef(base: string, digits: Digits)   // SHIFT_EXPR: base.shift(digits)
    | Newline                     // one line break of _NL

  /** The tokens of a text up to the first character no terminal matches,
      and that character's position (None when the whole text is read). */
  datatype LexResult = Lexed(toks: seq<Token>, bad: Option<nat>)

  predicate IsSectionWord(w: string)
  {
    Lower(w) == "entry" || Lower(w) == "exit"
  }

  /** Identifiers the grammar reserves: the section keywords in any case and
      the anonymous AND, OR and CROSS terminals exactly as written. */
  predicate IsKeyword(w: string)
  {
    IsSectionWord(w) || w == "AND" || w == "OR" || w == "CROSS"
  }

  /** What every token the scanner produces looks like. */
  predicate WellFormed(t: Token)
  {
    match t
    case Ident(n) => IsIdentifier(n) && !IsKeyword(n)
    case ShiftRef(b, _) => IsIdentifier(b)
    case Num(l) => IsSignedNumber(l)
    case _ => true
  }

  /** The token for a whole identifier: a keyword or a NAME. Section keywords
      are recognised whatever their case; AND, OR and CROSS only in capitals. */
  function Classify(w: string): (t: Token)
    requires IsIdentifier(w)
    ensures WellFormed(t)
    ensures t.SectionKw? <==> IsSectionWord(w)
    ensures t.SectionKw? ==> t.word == w
    ensures t.Ident? <==> !IsKeyword(w)
    ensures t.Ident? ==> t.name == w
    ensures t.AndKw? <==> w == "AND"
    ensures t.OrKw? <==> w == "OR"
    ensures t.CrossKw? <==> w == "CROSS"
  {
    if IsSectionWord(w) then SectionKw(w)
    else if w == "AND" then AndKw
    else if w == "OR" then OrKw
    else if w == "CROSS" then CrossKw
    else Ident(w)
  }

  /** End of the longest run of identifier characters from `i`. */
  function IdentEnd(s: string, i: nat): (j: nat)
    requires i <= |s|
    ensures i <= j <= |s|
    ensures forall k :: i <= k < j ==> IsIdentChar(s[k])
    ensures j == |s| || !IsIdentChar(s[j])
    decreases |s| - i
  {
    if i < |s| && IsIdentChar(s[i]) then IdentEnd(s, i + 1) else i
  }

  /** End of the longest run of decimal digits from `i`. */
  function DigitsEnd(s: string, i: nat): (j: nat)
    requires i <= |s|
    ensures i <= j <= |s|
    ensures forall k :: i <= k < j ==> IsDigit(s[k])
    ensures j == |s| || !IsDigit(s[j])
    decreases |s| - i
  {
    if i < |s| && IsDigit(s[i]) then DigitsEnd(s, i + 1) else i
  }


  // SIGNED_NUMBER as Lark's common grammar composes it, over the characters
  // s[a..b] of a text:
  //   INT: digits; DECIMAL: INT "." INT? | "." INT; _EXP: ("e"|"E") SIGNED_INT;
  //   NUMBER: FLOAT | INT with FLOAT: INT _EXP | DECIMAL _EXP?;
  //   SIGNED_NUMBER: ["+"|"-"] NUMBER.

  /** s[a..b] holds only decimal digits, possibly none. */
  predicate DigitSpan(s: string, a: int, b: int)
  {
    0 <= a <= b <= |s| && forall k :: a <= k < b ==> IsDigit(s[k])
  }

  /** INT: one or more digits. */
  predicate IntAt(s: string, a: int, b: int)
  {
    a < b && DigitSpan(s, a, b)
  }

  /** DECIMAL with its point at `d`: digits on at least one side of it. */
  predicate DecimalAt(s: string, a: int, d: int, b: int)
  {
    0 <= a <= d < b <= |s| && s[d] == '.' && DigitSpan(s, a, d) && DigitSpan(s, d + 1, b) && (a < d || d + 1 < b)
  }

  /** INT or DECIMAL: the part of a NUMBER before its exponent. */
  predicate MantissaAt(s: string, a: int, b: int)
  {
    IntAt(s, a, b) || exists d | a <= d < b :: DecimalAt(s, a, d, b)
  }

  /** SIGNED_INT: an optional sign, then an INT. */
  predicate SignedIntAt(s: string, a: int, b: int)
  {
    0 <= a < b <= |s| && if s[a] == '+' || s[a] == '-' then IntAt(s, a + 1, b) else IntAt(s, a, b)
  }

  /** _EXP: `e` or `E`, then a SIGNED_INT. */
  predicate ExponentAt(s: string, a: int, b: int)
  {
    0 <= a < |s| && (s[a] == 'e' || s[a] == 'E') && SignedIntAt(s, a + 1, b)
  }

  /** NUMBER: a mantissa, then an optional exponent. */
  predicate NumberAt(s: string, a: int, b: int)
  {
    exists m | a <= m <= b :: MantissaAt(s, a, m) && (m == b || ExponentAt(s, m, b))
  }

  /** SIGNED_NUMBER: an optional sign, then a NUMBER. */
  predicate SignedNumberAt(s: string, a: int, b: int)
  {
    0 <= a < b <= |s| && if s[a] == '+' || s[a] == '-' then NumberAt(s, a + 1, b) else NumberAt(s, a, b)
  }

  predicate IsSignedNumber(w: string)
  {
    SignedNumberAt(w, 0, |w|)
  }

  /** t holds the characters s[a..b], moved by `o`. */
  predicate SameChars(s: string, t: string, o: int, a: int, b: int)
  {
    0 <= a <= b <= |s| && 0 <= a + o && b + o <= |t| && forall k :: a <= k < b ==> t[k + o] == s[k]
  }

  lemma DigitSpanMoves(s: string, t: string, o: int, a: int, b: int, x: int, y: int)
    requires SameChars(s, t, o, a, b) && a <= x && y <= b && DigitSpan(s, x, y)
    ensures DigitSpan(t, x + o, y + o)
  {
    forall k | x + o <= k < y + o
      ensures IsDigit(t[k])
    {
      assert t[(k - o) + o] == s[k - o];
    }
  }

  lemma MantissaMoves(s: string, t: string, o: int, a: int, b: int, x: int, y: int)
    requires SameChars(s, t, o, a, b) && a <= x && y <= b && MantissaAt(s, x, y)
    ensures MantissaAt(t, x + o, y + o)
  {
    if IntAt(s, x, y) {
      DigitSpanMoves(s, t, o, a, b, x, y);
    } else {
      var d :| DecimalAt(s, x, d, y);
      assert DecimalAt(s, x, d, y);
      DigitSpanMoves(s, t, o, a, b, x, d);
      DigitSpanMoves(s, t, o, a, b, d + 1, y);
      assert t[d + o] == s[d];
      assert DecimalAt(t, x + o, d + o, y + o);
    }
  }

  lemma ExponentMoves(s: string, t: string, o: int, a: int, b: int, x: int, y: int)
    requires SameChars(s, t, o, a, b) && a <= x && y <= b && ExponentAt(s, x, y)
    ensures ExponentAt(t, x + o, y + o)
  {
    assert t[x + o] == s[x];
    assert t[x + 1 + o] == s[x + 1];
    if s[x + 1] == '+' || s[x + 1] == '-' {
      DigitSpanMoves(s, t, o, a, b, x + 2, y);
    } else {
      DigitSpanMoves(s, t, o, a, b, x + 1, y);
    }
  }

  lemma NumberMoves(s: string, t: string, o: int, a: int, b: int, x: int, y: int)
    requires SameChars(s, t, o, a, b) && a <= x && y <= b && NumberAt(s, x, y)
    ensures NumberAt(t, x + o, y + o)
  {
    var m :| x <= m <= y && MantissaAt(s, x, m) && (m == y || ExponentAt(s, m, y));
    assert MantissaAt(s, x, m);
    MantissaMoves(s, t, o, a, b, x, m);
    if m != y {
      ExponentMoves(s, t, o, a, b, m, y);
    }
  }

  /** Whether characters form a SIGNED_NUMBER depends on them alone, not on
      where they stand. */
  lemma SignedNumberMoves(s: string, t: string, o: int, a: int, b: int)
    requires SameChars(s, t, o, a, b) && SignedNumberAt(s, a, b)
    ensures SignedNumberAt(t, a + o, b + o)
  {
    assert t[a + o] == s[a];
    if s[a] == '+' || s[a] == '-' {
      NumberMoves(s, t, o, a, b, a + 1, b);
    } else {
      NumberMoves(s, t, o, a, b, a, b);
    }
  }

  /** A slice holds the characters it was cut from. */
  lemma SliceChars(s: string, i: int, j: int)
    requires 0 <= i <= j <= |s|
    ensures SameChars(s, s[i..j], -i, i, j)
  {
    forall k | i <= k < j
      ensures s[i..j][k + -i] == s[k]
    {
    }
  }

  /** The longest run of digits from `a` reaches past every run of digits from `a`. */
  lemma DigitsEndCovers(s: string, a: nat, b: int)
    requires DigitSpan(s, a, b)
    ensures b <= DigitsEnd(s, a)
  {
  }

  /** End of an optional exponent `[eE][+-]?digits` at `q`, the longest one;
      `q` itself when no exponent starts there. */
  function ExponentEnd(s: string, q: nat): (e: nat)
    requires q <= |s|
    ensures q <= e <= |s|
    ensures e != q ==> ExponentAt(s, q, e)
    ensures forall b :: ExponentAt(s, q, b) ==> b <= e
  {
    if q < |s| && (s[q] == 'e' || s[q] == 'E') then
      var r := if q + 1 < |s| && (s[q + 1] == '+' || s[q + 1] == '-') then q + 2 else q + 1;
      if r < |s| && IsDigit(s[r]) then
        var e := DigitsEnd(s, r);
        ExponentCovered(s, q, r, e);
        e
      else q
    else q
  }

  lemma ExponentCovered(s: string, q: nat, r: nat, e: nat)
    requires q < |s| && (s[q] == 'e' || s[q] == 'E')
    requires r == if q + 1 < |s| && (s[q + 1] == '+' || s[q + 1] == '-') then q + 2 else q + 1
    requires r <= |s| && e == DigitsEnd(s, r)
    ensures forall b :: ExponentAt(s, q, b) ==> b <= e
  {
    forall b | ExponentAt(s, q, b)
      ensures b <= e
    {
      DigitsEndCovers(s, r, b);
    }
  }

  /** End of the INT or DECIMAL at `p`, the longest one; 0 when none starts there. */
  function MantissaEnd(s: string, p: nat): (m: nat)
    requires p <= |s|
    ensures m != 0 ==> p < m <= |s| && MantissaAt(s, p, m)
    ensures m != 0 ==> forall k :: p <= k < m ==> IsDigit(s[k]) || s[k] == '.'
    ensures forall b :: MantissaAt(s, p, b) ==> m != 0 && b <= m
  {
    if p < |s| && IsDigit(s[p]) then
      var q := DigitsEnd(s, p);
      if q < |s| && s[q] == '.' then
        var m := DigitsEnd(s, q + 1);
        DecimalCovered(s, p, q, m);
        m
      else
        IntCovered(s, p, q);
        q
    else if p + 1 < |s| && s[p] == '.' && IsDigit(s[p + 1]) then
      var m := DigitsEnd(s, p + 1);
      FractionCovered(s, p, m);
      m
    else
      NoMantissa(s, p);
      0
  }

  lemma IntCovered(s: string, p: nat, q: nat)
    requires p < |s| && IsDigit(s[p]) && q == DigitsEnd(s, p)
    requires !(q < |s| && s[q] == '.')
    ensures MantissaAt(s, p, q)
    ensures forall b :: MantissaAt(s, p, b) ==> b <= q
  {
    assert IntAt(s, p, q);
    forall b | MantissaAt(s, p, b)
      ensures b <= q
    {
      if IntAt(s, p, b) {
        DigitsEndCovers(s, p, b);
      } else {
        var d :| DecimalAt(s, p, d, b);
        assert DecimalAt(s, p, d, b);
        DigitsEndCovers(s, p, d);
      }
    }
  }

  lemma DecimalCovered(s: string, p: nat, q: nat, m: nat)
    requires p < |s| && IsDigit(s[p]) && q == DigitsEnd(s, p)
    requires q < |s| && s[q] == '.' && m == DigitsEnd(s, q + 1)
    ensures MantissaAt(s, p, m)
    ensures forall b :: MantissaAt(s, p, b) ==> b <= m
  {
    assert DecimalAt(s, p, q, m);
    forall b | MantissaAt(s, p, b)
      ensures b <= m
    {
      if IntAt(s, p, b) {
        DigitsEndCovers(s, p, b);
      } else {
        var d :| DecimalAt(s, p, d, b);
        assert DecimalAt(s, p, d, b);
        DigitsEndCovers(s, p, d);
        DigitsEndCovers(s, d + 1, b);
      }
    }
  }

  lemma FractionCovered(s: string, p: nat, m: nat)
    requires p + 1 < |s| && s[p] == '.' && IsDigit(s[p + 1]) && m == DigitsEnd(s, p + 1)
    ensures MantissaAt(s, p, m)
    ensures forall b :: MantissaAt(s, p, b) ==> b <= m
  {
    assert DecimalAt(s, p, p, m);
    forall b | MantissaAt(s, p, b)
      ensures b <= m
    {
      var d :| DecimalAt(s, p, d, b);
      assert DecimalAt(s, p, d, b);
      DigitsEndCovers(s, p + 1, b);
    }
  }

  lemma NoMantissa(s: string, p: nat)
    requires p <= |s|
    requires !(p < |s| && IsDigit(s[p]))
    requires !(p + 1 < |s| && s[p] == '.' && IsDigit(s[p + 1]))
    ensures forall b :: !MantissaAt(s, p, b)
  {
  }

  /** End of a SIGNED_NUMBER starting at `i`, the longest one (the match the
      terminal's regular expression makes); 0 exactly when none starts there. */
  function NumberEnd(s: string, i: nat): (j: nat)
    requires i < |s|
    ensures j != 0 ==> i < j <= |s| && SignedNumberAt(s, i, j)
    ensures j != 0 ==> forall b :: j < b <= |s| ==> !SignedNumberAt(s, i, b)
    ensures j == 0 ==> forall b :: i < b <= |s| ==> !SignedNumberAt(s, i, b)
  {
    var p := if s[i] == '+' || s[i] == '-' then i + 1 else i;
    var m := MantissaEnd(s, p);
    if m == 0 then
      0
    else
      var j := ExponentEnd(s, m);
      LongestNumber(s, i, p, m, j);
      j
  }

  lemma LongestNumber(s: string, i: nat, p: nat, m: nat, j: nat)
    requires i < |s| && p == (if s[i] == '+' || s[i] == '-' then i + 1 else i)
    requires p <= |s| && m == MantissaEnd(s, p) && m != 0 && j == ExponentEnd(s, m)
    ensures SignedNumberAt(s, i, j)
    ensures forall b :: SignedNumberAt(s, i, b) ==> b <= j
  {
    assert NumberAt(s, p, j);
    forall b | SignedNumberAt(s, i, b)
      ensures b <= j
    {
      assert NumberAt(s, p, b);
      var m' :| MantissaAt(s, p, m') && (m' == b || ExponentAt(s, m', b));
      assert MantissaAt(s, p, m');
      assert m' <= m;
    }
  }

  /** Every character of a SIGNED_NUMBER is a digit, a sign, a point or an
      exponent mark; in particular it holds no blank. */
  lemma NumberChars(s: string, a: int, b: int)
    requires SignedNumberAt(s, a, b)
    ensures IsDigit(s[a]) || s[a] == '+' || s[a] == '-' || s[a] == '.'
    ensures forall k :: a <= k < b ==> IsDigit(s[k]) || s[k] == '+' || s[k] == '-' || s[k] == '.' || s[k] == 'e' || s[k] == 'E'
  {
    var p := if s[a] == '+' || s[a] == '-' then a + 1 else a;
    var m :| MantissaAt(s, p, m) && (m == b || ExponentAt(s, m, b));
    assert MantissaAt(s, p, m);
    if !IntAt(s, p, m) {
      var d :| DecimalAt(s, p, d, m);
      assert DecimalAt(s, p, d, m);
    }
  }

  const ShiftOpen: string := ".shift("

  /** SHIFT_EXPR `[a-zA-Z_][a-zA-Z0-9_]*\.shift\(\d+\)` fills s[i..k], its
      name ending at `e`. */
  predicate ShiftAt(s: string, i: int, e: int, k: int)
  {
    0 <= i < e && e + |ShiftOpen| < k - 1 && k <= |s|
    && IsIdentifier(s[i..e]) && s[e..e + |ShiftOpen|] == ShiftOpen
    && AllDigits(s[e + |ShiftOpen|..k - 1]) && s[k - 1] == ')'
  }

  /** A SHIFT_EXPR at `i` has the longest identifier there as its name and
      the longest digit run after `.shift(` as its count. */
  lemma ShiftAtIsForced(s: string, i: nat, e: int, k: int)
    requires ShiftAt(s, i, e, k)
    ensures e == IdentEnd(s, i) && DigitsEnd(s, e + |ShiftOpen|) == k - 1
  {
    forall x | i <= x < e
      ensures IsIdentChar(s[x])
    {
      assert s[i..e][x - i] == s[x];
    }
    assert s[e] == s[e..e + |ShiftOpen|][0] == '.';
    var d := e + |ShiftOpen|;
    forall x | d <= x < k - 1
      ensures IsDigit(s[x])
    {
      assert s[d..k - 1][x - d] == s[x];
    }
    DigitsEndCovers(s, d, k - 1);
  }

  lemma NoOtherShift(s: string, i: nat)
    requires i < |s|
    ensures forall e, k :: ShiftAt(s, i, e, k) ==> e == IdentEnd(s, i) && DigitsEnd(s, e + |ShiftOpen|) == k - 1
  {
    forall e, k | ShiftAt(s, i, e, k)
      ensures e == IdentEnd(s, i) && DigitsEnd(s, e + |ShiftOpen|) == k - 1
    {
      ShiftAtIsForced(s, i, e, k);
    }
  }

  /** End of the `.shift(digits)` that follows the name s[i..j], or 0 when
      none does; in that case no SHIFT_EXPR starts at `i` at all. */
  function ShiftEnd(s: string, i: nat, j: nat): (k: nat)
    requires i < j <= |s| && IsIdentStart(s[i]) && j == IdentEnd(s, i)
    ensures k != 0 ==> ShiftAt(s, i, j, k)
    ensures k == 0 ==> forall e, k :: !ShiftAt(s, i, e, k)
  {
    assert IsIdentifier(s[i..j]);
    var d := j + |ShiftOpen|;
    if d <= |s| && s[j..d] == ShiftOpen then
      var k := DigitsEnd(s, d);
      if d < k < |s| && s[k] == ')' then
        assert AllDigits(s[d..k]);
        k + 1
      else
        NoOtherShift(s, i);
        0
    else
      NoOtherShift(s, i);
      0
  }

  /** The identifier starting at `i`: the SHIFT_EXPR when one starts there
      (its longer match wins over NAME), otherwise the keyword or NAME of the
      whole identifier. */
  function ScanWord(s: string, i: nat): (r: (Token, nat))
    requires i < |s| && IsIdentStart(s[i])
    ensures i < r.1 <= |s| && WellFormed(r.0)
    ensures r.0.ShiftRef? ==> ShiftAt(s, i, IdentEnd(s, i), r.1)
    ensures r.0.ShiftRef? ==> r.0.base == s[i..IdentEnd(s, i)] && r.0.digits == s[IdentEnd(s, i) + |ShiftOpen|..r.1 - 1]
    ensures !r.0.ShiftRef? ==> forall e, k :: !ShiftAt(s, i, e, k)
    ensures !r.0.ShiftRef? ==> r.1 == IdentEnd(s, i) && r.0 == Classify(s[i..r.1])
  {
    var j := IdentEnd(s, i);
    var k := ShiftEnd(s, i, j);
    if k != 0 then (ShiftRef(s[i..j], s[j + |ShiftOpen|..k - 1]), k)
    else (Classify(s[i..j]), j)
  }

  /** The first characters of blanks, line breaks, punctuation and operators. */
  predicate IsSymbolChar(c: char)
  {
    c == ' ' || c == '\t' || c == '\n' || c == '\r' || c == ':' || c == '(' || c == ')' || c == ','
    || c == '>' || c == '<' || c == '='
  }

  /** The blanks, line breaks, punctuation and operators: the token at `i`
      (None for an ignored blank) and where the scan resumes; None when a
      lone `=` or a `\r` without `\n` matches no terminal. */
  function SymbolToken(s: string, i: nat): (r: Option<(Option<Token>, nat)>)
    requires i < |s| && IsSymbolChar(s[i])
    ensures r.Some? ==> i < r.value.1 <= |s|
    ensures r.Some? && r.value.0.Some? ==> !r.value.0.value.Ident? && !r.value.0.value.Num? && !r.value.0.value.ShiftRef?
    ensures r.None? ==> s[i] == '=' || s[i] == '\r'
    ensures r.None? && s[i] == '=' ==> !(i + 1 < |s| && s[i + 1] == '=')
    ensures r.None? && s[i] == '\r' ==> !(i + 1 < |s| && s[i + 1] == '\n')
  {
    var c := s[i];
    if c == ' ' || c == '\t' then Some((None, i + 1))
    else if c == '\n' then Some((Some(Newline), i + 1))
    else if c == '\r' then
      if i + 1 < |s| && s[i + 1] == '\n' then Some((Some(Newline), i + 2)) else None
    else if c == ':' then Some((Some(Colon), i + 1))
    else if c == '(' then Some((Some(LParen), i + 1))
    else if c == ')' then Some((Some(RParen), i + 1))
    else if c == ',' then Some((Some(Comma), i + 1))
    else if c == '>' || c == '<' then
      var orEqual := i + 1 < |s| && s[i + 1] == '=';
      var op := if c == '>' then (if orEqual then Ge else Gt) else (if orEqual then Le else Lt);
      Some((Some(OpTok(op)), if orEqual then i + 2 else i + 1))
    else
      if i + 1 < |s| && s[i + 1] == '=' then Some((Some(OpTok(Eq)), i + 2)) else None
  }

  /** The token that starts at `i` (None for an ignored blank) and where the
      scan resumes, or None when no terminal matches there. */
  function NextToken(s: string, i: nat): (r: Option<(Option<Token>, nat)>)
    requires i < |s|
    ensures r.Some? ==> i < r.value.1 <= |s|
    ensures r.Some? && r.value.0.Some? ==> WellFormed(r.value.0.value)
    ensures r.None? ==> !IsIdentStart(s[i]) && (IsSymbolChar(s[i]) ==> s[i] == '=' || s[i] == '\r')
    ensures r.None? && s[i] == '=' ==> !(i + 1 < |s| && s[i + 1] == '=')
    ensures r.None? && s[i] == '\r' ==> !(i + 1 < |s| && s[i + 1] == '\n')
    ensures r.None? ==> forall b :: i < b <= |s| ==> !SignedNumberAt(s, i, b)
  {
    if IsSymbolChar(s[i]) then
      NoNumberAt(s, i);
      SymbolToken(s, i)
    else if IsIdentStart(s[i]) then
      var (t, j) := ScanWord(s, i);
      Some((Some(t), j))
    else NumberToken(s, i)
  }

  /** The longest SIGNED_NUMBER at `i`, or None when none starts there. */
  function NumberToken(s: string, i: nat): (r: Option<(Option<Token>, nat)>)
    requires i < |s|
    ensures r.Some? ==> i < r.value.1 <= |s| && r.value == (Some(Num(s[i..r.value.1])), r.value.1)
    ensures r.Some? ==> IsSignedNumber(s[i..r.value.1])
    ensures r.Some? ==> forall b :: r.value.1 < b <= |s| ==> !SignedNumberAt(s, i, b)
    ensures r.None? ==> forall b :: i < b <= |s| ==> !SignedNumberAt(s, i, b)
  {
    var j := NumberEnd(s, i);
    if j == 0 then None
    else
      SliceChars(s, i, j);
      SignedNumberMoves(s, s[i..j], -(i as int), i, j);
      Some((Some(Num(s[i..j])), j))
  }

  /** No SIGNED_NUMBER starts at a character that is not a digit, a sign or a point. */
  lemma NoNumberAt(s: string, i: nat)
    requires i < |s| && !IsDigit(s[i]) && s[i] != '+' && s[i] != '-' && s[i] != '.'
    ensures forall b :: i < b <= |s| ==> !SignedNumberAt(s, i, b)
  {
    forall b | i < b <= |s| && SignedNumberAt(s, i, b)
      ensures false
    {
      NumberChars(s, i, b);
    }
  }

  /** Tokenises `s` from position `i`: the tokens up to the first character
      no terminal matches, and where that character is. */
  function Lex(s: string, i: nat): (r: LexResult)
    requires i <= |s|
    ensures r.bad.Some? ==> i <= r.bad.value < |s| && NextToken(s, r.bad.value).None?
    decreases |s| - i
  {
    if i == |s| then Lexed([], None)
    else
      match NextToken(s, i)
      case None => Lexed([], Some(i))
      case Some((t, j)) =>
        var rest := Lex(s, j);
        Lexed((if t.Some? then [t.value] else []) + rest.toks, rest.bad)
  }

  /** Every token Lex produces is well formed. */
  lemma {:induction false} LexWellFormed(s: string, i: nat)
    requires i <= |s|
    ensures forall k :: 0 <= k < |Lex(s, i).toks| ==> WellFormed(Lex(s, i).toks[k])
    decreases |s| - i
  {
    if i < |s| && NextToken(s, i).Some? {
      LexWellFormed(s, NextToken(s, i).value.1);
    }
  }

  function Tokenize(s: string): (r: LexResult)
    ensures forall k :: 0 <= k < |r.toks| ==> WellFormed(r.toks[k])
    ensures r.bad.Some? ==> r.bad.value < |s| && NextToken(s, r.bad.value).None?
  {
    LexWellFormed(s, 0);
    Lex(s, 0)
  }

  /** The text of a token as the grammar spells it. */
  function TokenText(t: Token): string
  {
    match t
    case SectionKw(w) => w
    case Colon => ":"
    case LParen => "("
    case RParen => ")"
    case Comma => ","
    case AndKw => "AND"
    case OrKw => "OR"
    case CrossKw => "CROSS"
    case OpTok(op) => Symbol(op)
    case Ident(n) => n
    case Num(l) => l
    case ShiftRef(b, d) => b + ShiftOpen + d + ")"
    case Newline => "\n"
  }

  /** Tokens printed one after another, each followed by a blank. */
  function Spaced(ts: seq<Token>): string
  {
    if ts == [] then "" else TokenText(ts[0]) + " " + Spaced(ts[1..])
  }
}
