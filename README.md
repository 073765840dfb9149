# TradeLang core in Dafny

TradeLang turns a trading strategy into signals and a backtest. A strategy is
written in a small language in two sections:

```
ENTRY:
CROSS(close, SMA(close,20)) AND volume > 1000000
EXIT:
RSI(close,14) > 70
```

The pipeline has these stages:

- A parser reads the text into a dictionary with the keys `entry` and `exit`.
  Each key holds an expression tree or None.
- A serialiser turns each tree into a pandas expression string.
- `cross_above` computes per-bar cross signals.
- A backtest walks the close prices bar by bar. It opens a position on an
  entry signal and closes it on an exit signal. It reports the total return
  in percent and the number of closed trades.
- Two natural-language translators produce strategy text from plain English
  requests by fixed substring tests.

This project models each stage and proves what it promises.

| file | module | models |
|---|---|---|
| `text.dfy` | `Text` | ASCII lower-casing, substring search, `sep.join`, decimal digits, character counts |
| `ast.dfy` | `Ast` | the value and expression trees the AST builder produces |
| `lexer.dfy` | `Lexer` | the grammar's terminals: keywords, names, numbers, `x.shift(n)`, operators, line breaks |
| `lexer_props.dfy` | `LexerProps` | printed tokens tokenise back to themselves |
| `parser.dfy` | `Parser` | the grammar's productions as a recursive-descent parser over tokens |
| `strategy.dfy` | `Strategy` | the section fold of `ASTTransformer.start` and `parse_dsl` |
| `parser_props.dfy` | `ParserProps` | printers from trees to tokens; round trips, precedence, associativity, sections |
| `codegen.dfy` | `Codegen` | `value_to_code` / `expr_to_code`; balanced parentheses; one operator per node |
| `signals.dfy` | `Signals` | `cross_above` over series of optional reals, where None stands for NaN |
| `backtest.dfy` | `Backtest` | `simple_backtest` as a loop, proved against a bar-by-bar state machine |
| `backtest_props.dfy` | `BacktestProps` | the trade schedule as first-signal jumps, alternation, closed-form equity, an example |
| `rules.dfy` | `Rules` | what both translators share: rule tables, `" AND "` joining, the template |
| `nl_dsl.dfy` | `NlDsl` | `nl_to_dsl` of `nl_dsl.py` |
| `nl_to_dsl.dfy` | `NlToDslDemo` | `nl_to_dsl` of `nl_to_dsl.py` |

## How the model reads the source

### Parsing

The grammar is run by an LALR parser. The model is a deterministic
recursive-descent parser with the same productions:

- `OR` binds looser than `AND`.
- Both operators are left-associative.
- `CROSS(v, v)` is an atom.
- A parenthesised expression is inlined by `?atom` and adds no node.

Each parse function takes the unread tokens and returns the node together with
the tokens after it, or the token it could not accept.

Two points follow the grammar's behaviour rather than a plain reading of it:

- `start` needs at least one section.
- After `ENTRY:` the section's own `_NL*` takes every line break. So a section
  with no expression is accepted only as the last section of the text
  (`ParserProps.EmptySectionMustBeLast`).

Keywords behave as follows:

- `ENTRY` and `EXIT` match in any case.
- `AND`, `OR` and `CROSS` are reserved exactly as written.
- Indicator names are stored lower-cased.
- Plain names keep their case.

### Lexing and errors

The lexer follows the terminals one by one:

- `SIGNED_NUMBER` is defined as Lark's common grammar composes it, and the
  lexer takes the longest match.
- `SHIFT_EXPR` wins over `NAME` when it matches, since its match is longer.
- Blanks and tabs are skipped; `\n` and `\r\n` are line breaks.

The LALR parser asks its lexer for one token at a time. So the error
reported is the first one met in the text (`Strategy.ParseSections`):

- a token the grammar rejects before the first unmatched character is a
  syntax error (`Strategy.SyntaxBeforeBadCharacter`);
- when the parser still needs input at that character, it is a lexical
  error (`Strategy.BadCharacterBeforeSyntax`).

### Numbers

A `NUMBER` node keeps its lexeme. The serialiser takes the Python
`str(float(...))` formatting as a parameter `num`.

### The backtest

`simple_backtest` is the method `Backtest.SimpleBacktest`. Its loop runs with
the source's own variables: `in_pos`, `entry_price`, `equity` and `trades`.

The loop invariant ties those variables to `Backtest.Machine`. Machine is a
pure two-state machine over the entry and exit signals, with states Flat and
Long(entry bar). The invariant also ties them to the list of closed trips and
their returns.

Three separate facts are proved: the trades the machine makes, how they
alternate, and what they earn. Prices and capital are real numbers.

### The translators

Both translators are written as the source writes them. The lower-cased
request goes through five (or four) conditional appends, then the join, then
the template. Each translator is proved equal to a table of rules
(`Rules.Fired`), and the table's properties are proved once for both.

## Model

| member | source | states |
|---|---|---|
| Text.Lower | nl_dsl.py:2 | lower-cases ASCII letters only and keeps length and every other character |
| Text.LowerIdempotent | nl_dsl.py:2 | lower-casing twice is lower-casing once |
| Text.NatToString | ast_python.py:27 | the decimal digits of n, without a leading zero, read back as n |
| Lexer.Classify | dsl_parser.py:9-10 | an identifier is a section keyword exactly when it lower-cases to `entry` or `exit`; `AND`, `OR` and `CROSS` are keywords exactly as written; any other word is a name |
| Lexer.IdentEnd | dsl_parser.py:39 | the end of a CNAME run: every character before it is an identifier character and the one at it is not |
| Lexer.DigitsEnd | dsl_parser.py:35 | the end of a digit run: every character before it is a digit and the one at it is not |
| Lexer.ExponentEnd | dsl_parser.py:40 | the end of the longest exponent `[eE][+-]?digits` at a position, or that position when none starts there |
| Lexer.MantissaEnd | dsl_parser.py:40 | the end of the longest INT or DECIMAL at a position; 0 exactly when none starts there |
| Lexer.NumberEnd | dsl_parser.py:40 | the end of the longest SIGNED_NUMBER at a position, and 0 exactly when no SIGNED_NUMBER starts there |
| Lexer.SignedNumberMoves | dsl_parser.py:40 | whether characters form a SIGNED_NUMBER depends on the characters alone, not on where they stand |
| Lexer.ShiftEnd | dsl_parser.py:35 | the end of the `.shift(digits)` after a name, or 0 when no SHIFT_EXPR starts at the name |
| Lexer.ScanWord | dsl_parser.py:35-39 | a SHIFT_EXPR at the position gives a shift token with that name and those digits; otherwise the whole identifier, classified as keyword or NAME |
| Lexer.SymbolToken | dsl_parser.py:23-42 | a blank is skipped or a punctuation, operator or line-break token is read, consuming at least one character; only a lone `=` or a `\r` without `\n` matches no terminal |
| Lexer.NumberToken | dsl_parser.py:40 | the NUMBER token holds exactly the longest SIGNED_NUMBER at the position, or there is none |
| Lexer.NextToken | dsl_parser.py:35-42 | the token at a position is well formed and consumes at least one character; no token means no terminal can start there |
| Lexer.Lex | dsl_parser.py:35-42 | lexing stops exactly at a character where no terminal matches |
| Lexer.Tokenize | dsl_parser.py:37 | tokenising yields well-formed tokens, or the position of a character no terminal matches |
| LexerProps.WordOfText | dsl_parser.py:39 | an identifier followed by a blank scans as its keyword or NAME token |
| LexerProps.ShiftOfText | dsl_parser.py:35 | `name.shift(digits)` followed by a blank scans as that shift token |
| LexerProps.NumberOfText | dsl_parser.py:40 | a SIGNED_NUMBER followed by a blank is read whole, as one number |
| LexerProps.NextTokenOfText | dsl_parser.py:35-42 | every well-formed token, printed and followed by a blank, scans back to itself |
| LexerProps.LexPrinted | dsl_parser.py:35-42 | lexing printed tokens yields those tokens and then goes on where the printed text ends |
| LexerProps.TokenizeSpaced | dsl_parser.py:35-42 | well-formed tokens printed with a blank after each tokenise back to exactly themselves |
| LexerProps.TokenizeStopsAt | dsl_parser.py:35-42 | printed tokens followed by a character no terminal matches tokenise to those tokens and report that character's position |
| Parser.ParseValue | dsl_parser.py:27-32 | a parsed value is well formed (an indicator has at least one argument and a lower-case name) and consumes tokens |
| Parser.ParseArgs | dsl_parser.py:33 | `args` yields at least one value, each well formed |
| Parser.ParseAtom | dsl_parser.py:18-20 | an atom is a parenthesised expression, a comparison or a cross, and is well formed |
| Parser.ParseComparison | dsl_parser.py:22 | a comparison is a cmp node of two well-formed values, and it consumes tokens |
| Parser.ParseCross | dsl_parser.py:25 | `CROSS(v, v)` gives a cross node of two well-formed values |
| Parser.ParseAnd | dsl_parser.py:15-16 | an `and_expr` is well formed and consumes tokens; a syntax error names a token of the input |
| Parser.ParseOr | dsl_parser.py:13-14 | an `or_expr` is well formed and consumes tokens; a syntax error names a token of the input |
| Parser.ParseExpr | dsl_parser.py:12-16 | an expression is well formed and consumes at least one token |
| Parser.SkipNewlines | dsl_parser.py:6-7 | drops exactly the leading line breaks |
| Parser.ParseSection | dsl_parser.py:6-7 | a section starts with its keyword, keeps it as written, and has no body only when no expression follows |
| Parser.ParseSectionsTail | dsl_parser.py:4 | the later sections, each after line breaks, are read to the end of the tokens, and each is well formed |
| Parser.ParseStart | dsl_parser.py:4 | `start` reads all the tokens and at least one section |
| Strategy.LastBody | dsl_parser.py:46-51 | a body found under a key is the body of some section with that key |
| Strategy.LastBodyFindsKey | dsl_parser.py:46-51 | a key is stored exactly when some section's keyword lower-cases to it |
| Strategy.LastBodyIsLastOccurrence | dsl_parser.py:48-50 | a repeated keyword keeps the body of its last occurrence |
| Strategy.BuildStrategy | dsl_parser.py:46-51 | the loop's dictionary maps each lower-cased keyword to the body of its last section, and holds no other key |
| Strategy.StrategyOf | dsl_parser.py:96-99 | after the two `setdefault` calls the keys are exactly `entry` and `exit`, and a missing one holds None |
| Strategy.ParseSections | dsl_parser.py:94-96 | parsing succeeds exactly when the whole text lexes and `start` accepts the tokens; a syntax error names a token lexed before any unmatched character; a lexical error is reported only when the tokens before it do not already fail |
| Strategy.SyntaxBeforeBadCharacter | dsl_parser.py:94-96 | in `ENTRY : a b $` the name `b` is reported, not the later `$` |
| Strategy.BadCharacterBeforeSyntax | dsl_parser.py:94-96 | in `ENTRY : a $ b` the `$` is reported, where the comparison still needs its operator |
| Strategy.BareName | dsl_parser.py:18-22 | a name followed by neither `(` nor an operator fails as an expression at the token after it |
| Strategy.ParseDsl | dsl_parser.py:94-100 | lexical and syntax errors are reported as such; otherwise the result has exactly the keys `entry` and `exit`, each with the last section's body or None |
| ParserProps.ValueRoundTrip | dsl_parser.py:27-32 | printing a well-formed value to tokens and parsing it gives the value back and leaves the rest |
| ParserProps.ArgsRoundTrip | dsl_parser.py:33 | printing an argument list and parsing it gives the list back |
| ParserProps.AtomRoundTrip | dsl_parser.py:18-25 | printing an atom and parsing it gives the tree back |
| ParserProps.AndRoundTrip | dsl_parser.py:15-16 | printing an `and_expr` and parsing it gives the tree back |
| ParserProps.OrRoundTrip | dsl_parser.py:13-14 | printing an `or_expr` and parsing it gives the tree back |
| ParserProps.ExprRoundTrip | dsl_parser.py:12-25 | every well-formed expression is parsed back from its printed tokens |
| ParserProps.AndBindsTighterThanOr | dsl_parser.py:12-16 | `a OR b AND c` is or(a, and(b, c)) |
| ParserProps.AndIsLeftAssociative | dsl_parser.py:15-16 | `a AND b AND c` is and(and(a, b), c) |
| ParserProps.OrIsLeftAssociative | dsl_parser.py:13-14 | `a OR b OR c` is or(or(a, b), c) |
| ParserProps.ParenthesesOverridePrecedence | dsl_parser.py:18 | `(a OR b) AND c` is and(or(a, b), c) |
| ParserProps.ParenthesesAddNoNode | dsl_parser.py:18 | a parenthesised expression is the tree of its inner expression, with no node added |
| ParserProps.BareNameRejected | dsl_parser.py:18-22 | a bare name not followed by an operator is not an expression; this covers the word `False` the translators emit |
| ParserProps.IndicatorNameLowered | dsl_parser.py:77-82 | an indicator call is stored with its name lower-cased and its arguments in order |
| ParserProps.NameKeepsCase | dsl_parser.py:71-72 | a bare name becomes a name node with its case unchanged |
| ParserProps.ShiftCount | dsl_parser.py:90-92 | `base.shift(d)` becomes a shift node whose count is the decimal value of d |
| ParserProps.SectionRoundTrip | dsl_parser.py:6-7 | printing a section and parsing it gives the section back, with or without a body |
| ParserProps.LaterSectionsRoundTrip | dsl_parser.py:4 | the sections after the first, each after a line break, are parsed back in order |
| ParserProps.StartRoundTrip | dsl_parser.py:4 | a printed strategy of one or more sections parses back to the same sections |
| ParserProps.EmptySectionMustBeLast | dsl_parser.py:4-7 | an empty section followed by another section is a syntax error at the second keyword |
| ParserProps.EmptySectionParse | dsl_parser.py:6-7 | a keyword, colon and line break with no expression after them is a section with no body |
| Codegen.ValueToCode | ast_python.py:17-27 | a name or shift is code over `df['`; an indicator or shift call ends in `)`; only a number's code may be empty |
| Codegen.CrossToCode | ast_python.py:28-41 | a cross node is a `cross_above(...)` call |
| Codegen.ArgsToCode | ast_python.py:24 | one code string per argument, in argument order |
| Codegen.ExprCode | ast_python.py:34-41 | the code of a present node ends in `)` and starts with `(` exactly when the node is not a cross |
| Codegen.ExprToCode | ast_python.py:31-41 | a present clause's code ends in `)` |
| Codegen.AbsentClauseIsFalse | ast_python.py:31-33 | the code is `False` exactly when the clause is absent |
| Codegen.ValueCodeBalanced | ast_python.py:17-29 | the code of a value has balanced parentheses when names and numbers hold none |
| Codegen.ExprCodeBalanced | ast_python.py:31-41 | the code of an expression has balanced parentheses when no name and no formatted number holds a parenthesis |
| Codegen.OperatorsMatchNodes | ast_python.py:36-39 | the code holds exactly one `&` per `and` node and one pipe character per `or` node |
| Signals.Shift1 | ast_python.py:15 | `shift(1)`: bar 0 undefined, each later bar holds the previous value |
| Signals.CrossAbove | ast_python.py:14-15 | one signal per bar, and none at bar 0 |
| Signals.CrossAboveAt | ast_python.py:14-15 | the signal is false at bar 0; at bar i > 0 it is true exactly when a was at or below b at i - 1 and is above it at i, all four values defined |
| Signals.UndefinedSilences | ast_python.py:14-15 | an undefined value at the bar or the bar before gives no signal |
| Signals.NoConsecutiveCrosses | ast_python.py:14-15 | two adjacent bars never both signal |
| Signals.NoSelfCross | ast_python.py:14-15 | a series never crosses itself |
| Signals.CrossIsAnUpwardChange | ast_python.py:14-15 | a signal at bar j means a was not above b at j - 1 and is above it at j |
| Backtest.ClosedBeforeMeans | backtest.py:11-18 | every trip opens before it closes and before the bound, and each trip closes before the next opens |
| Backtest.Step | backtest.py:11-18 | a bar only appends to the trips, at most one, and closes exactly when long with an exit signal; the state is long after it exactly when it opened (flat with an entry) or stayed long without an exit |
| Backtest.Machine | backtest.py:9-18 | after n bars there are at most n trips, and an open position was opened before bar n |
| Backtest.StepKeepsSchedule | backtest.py:11-18 | one bar keeps the trips ordered and the open position's entry bar before the next bar |
| Backtest.StepKeepsSignalled | backtest.py:11-18 | one bar opens only on an entry signal and closes only on an exit signal |
| Backtest.MachineSchedule | backtest.py:9-18 | after n bars, trips alternate open and close in bar order, and an open position was opened before bar n |
| Backtest.MachineSignalled | backtest.py:9-18 | every trip opened on an entry signal and closed on an exit signal, and so did an open position |
| Backtest.MachinePriced | backtest.py:13-15 | every trip's bars lie within the prices and its entry price is nonzero |
| Backtest.EquityIsScaledProduct | backtest.py:16 | compounding the returns is capital times the product of (1 + ret) |
| Backtest.CloseBar | backtest.py:14-18 | closing at bar i appends the trip and its return and multiplies equity by 1 + ret |
| Backtest.SimpleBacktest | backtest.py:3-24 | the trade count is the number of trips the machine closes, and the total return is computed from those trips' prices |
| BacktestProps.FirstSignal | backtest.py:11-14 | the first bar from `from` with the signal, or none when no bar before n has it |
| BacktestProps.MachineIsTrades | backtest.py:9-18 | the bar-by-bar machine equals the jump reference: wait for the first entry, then the first exit after it, and repeat |
| BacktestProps.FlatWithoutEntry | backtest.py:11 | without an entry signal a flat position stays flat and adds no trip |
| BacktestProps.LongWithoutExit | backtest.py:14 | without an exit signal an open position stays open, and entry signals are ignored |
| BacktestProps.OneTrip | backtest.py:11-18 | the first entry and the first exit after it make one trip, and the run continues flat after the exit |
| BacktestProps.OpenOnly | backtest.py:9-18 | an entry with no later exit leaves the position open, with no trip closed |
| BacktestProps.GoKeepsEarlierTrips | backtest.py:17 | trades are only appended: earlier trips are never changed |
| BacktestProps.TradesAtMostHalfTheBars | backtest.py:9-18 | n bars close at most n / 2 trips |
| BacktestProps.OpensMatchTrades | backtest.py:11-18 | the number of opens is the number of closed trips, plus one when a position is still open |
| BacktestProps.GrowthIsPriceRatioProduct | backtest.py:15-16 | the product of (1 + ret) is the product of exit price over entry price |
| BacktestProps.FinalEquityClosedForm | backtest.py:16 | final equity is capital times the product of exit over entry prices of the closed trips |
| BacktestProps.NoTripNoReturn | backtest.py:20 | with no closed trip the total return is 0 |
| BacktestProps.TotalReturnClosedForm | backtest.py:20 | the total return is (product of price ratios - 1) * 100, whatever the capital |
| BacktestProps.ExampleTrips | backtest.py:9-18 | on a ten-bar example the machine makes the trips (1, 4) and (6, 8); a second entry while open and an exit while flat are ignored |
| BacktestProps.ExampleReturn | backtest.py:15-20 | that example's total return is (105/102 · 107/106 - 1) · 100, between 3.91 and 3.92 percent |
| Rules.Fired | nl_dsl.py:7-20 | at most one part per rule |
| Rules.FiredIffHolds | nl_dsl.py:7-20 | with distinct parts, a rule's part is present exactly when its test holds |
| Rules.FiredKeepOrder | nl_dsl.py:7-20 | two parts that fire keep the order of their rules |
| Rules.FiredComeFromRules | nl_dsl.py:7-20 | every part present belongs to a rule whose test holds |
| Rules.NotFiredElsewhere | nl_dsl.py:7-20 | a part that no rule adds never appears |
| Rules.NothingFiredIsFalse | nl_dsl.py:22-23 | when no test holds the section reads `False` |
| Rules.Clause | nl_dsl.py:22-23 | no parts give `False`; otherwise the text starts with the first part, and one part is the text itself |
| Rules.Template | nl_dsl.py:25-29 | the text is `ENTRY:` and a line break, the entry section, a line break, `EXIT:` and a line break, the exit section and a final line break, in that order |
| Rules.ClauseOfTwo | nl_dsl.py:23 | two parts join as `a AND b` |
| Rules.ClauseOfThree | nl_dsl.py:22 | three parts join as `a AND b AND c` |
| Rules.ContainsIgnoringCase | nl_dsl.py:2 | a substring test on the lower-cased text is a substring test that ignores case |
| NlDsl.NlToDsl | nl_dsl.py:1-29 | the output is the template filled with the joined entry and exit parts |
| NlDsl.CollectParts | nl_dsl.py:4-20 | the conditional appends build exactly the parts of the rule tables, in table order |
| NlDsl.RuleTests | nl_dsl.py:7-20 | the tables' tests are the source's conditions, one by one |
| NlDsl.TranslationIgnoresCase | nl_dsl.py:2 | the output does not depend on the case of the request |
| NlDsl.EntryPartPresent | nl_dsl.py:7-17 | each entry part is present exactly when its test holds, and there are at most 3 |
| NlDsl.ExitPartPresent | nl_dsl.py:10-20 | each exit part is present exactly when its test holds, and there are at most 2 |
| NlDsl.EntryPartsInOrder | nl_dsl.py:7-17 | entry parts keep the source order |
| NlDsl.AllEntryParts | nl_dsl.py:7-22 | all three entry tests give `CROSS(close, SMA(close,20)) AND close > SMA(close,20) AND volume > 1000000` |
| NlDsl.AllExitParts | nl_dsl.py:10-23 | both exit tests give `CROSS(SMA(close,20), close) AND RSI(close,14) < 50` |
| NlDsl.NoMatchIsFalse | nl_dsl.py:22-29 | a request that matches nothing gives `ENTRY:\nFalse\nEXIT:\nFalse\n` |
| NlToDslDemo.NlToDsl | nl_to_dsl.py:3-28 | the output is the template filled with the joined entry and exit parts |
| NlToDslDemo.CollectParts | nl_to_dsl.py:6-19 | the conditional appends build exactly the parts of the rule tables, in table order |
| NlToDslDemo.RuleTests | nl_to_dsl.py:9-19 | the tables' tests are the source's conditions, one by one |
| NlToDslDemo.TranslationIgnoresCase | nl_to_dsl.py:4 | the output does not depend on the case of the request |
| NlToDslDemo.EntryPartPresent | nl_to_dsl.py:9-16 | each entry part is present exactly when its test holds, and there are at most 3 |
| NlToDslDemo.VolumeWordsAnywhere | nl_to_dsl.py:12-13 | `volume > 1000000` is present exactly when `volume` and either `above` or `greater` occur anywhere |
| NlToDslDemo.EntryPartsInOrder | nl_to_dsl.py:9-16 | entry parts keep the source order |
| NlToDslDemo.AllEntryParts | nl_to_dsl.py:9-21 | all three entry tests give `close > SMA(close,20) AND volume > 1000000 AND CROSS(close, high.shift(1))` |
| NlToDslDemo.ExitSection | nl_to_dsl.py:18-22 | the exit section is `RSI(close,14) < 30` when `rsi` and `below` occur, else `False` |
| NlToDslDemo.NoMatchIsFalse | nl_to_dsl.py:21-28 | a request that matches nothing gives `ENTRY:\nFalse\nEXIT:\nFalse\n` |

## Left out

- Lark's own machinery: LALR table construction, and lexer priority corner
  cases such as `ENTRY.2`/`EXIT.2` matching inside a longer word. The model
  reserves `ENTRY`/`EXIT` (any case) and `AND`/`OR`/`CROSS` (as written) as
  whole identifiers.
- LexerProps.TokenizeSpaced: the text-to-token round trip is stated for
  tokens printed with one blank after each. Texts that put tokens side by
  side without blanks are covered by the per-terminal contracts of
  `Lexer.NumberEnd` and `Lexer.ScanWord`, not by a round trip.
- Line breaks: `_NL` is one token per line break, with `\r\n` taken as one.
  The round trips print one line break between sections.
- A cross at value level (ast_python.py:28-29) is unreachable: the parser never
  builds one. Cross nodes are serialised at expression level.
- Codegen.ValueToCode: Python's `str(float(lexeme))` formatting of numbers is
  the parameter `num`, not modelled.
- `sma`, `rsi` and the `eval` in `generate_signal_function`
  (ast_python.py:4-12, 43-53) are left out. They are pandas arithmetic on
  floats plus dynamic execution; only the generated strings are modelled.
- Floating point: prices, capital and returns are exact reals.
- Backtest.SimpleBacktest: requires capital > 0 and a nonzero close at every
  entry signal. numpy would give inf or nan there instead.
- Backtest.SimpleBacktest: the price and signal tables are plain sequences
  (`close`, `entry`, `exit`) rather than data frames.
- Backtest.SimpleBacktest: requires at least as many entry and exit signals
  as prices. The caller in app.py:50-52 builds the signals on the price
  table's own index, so it always meets this.
- Backtest.SimpleBacktest: `capital` is an explicit parameter; the source's
  default value of 1.0 is not modelled.
- The backtest has no force-close of a final open position, no trade log, no
  equity curve and no drawdown. backtest.py has none of these; an open
  position at the end is simply not counted (`BacktestProps.OpenOnly`).
- Text.Lower: lower-casing is ASCII only, not Unicode `str.lower`.
- `app.py` (the Streamlit front end and random sample data) is not part of
  this model.
- `demo_test.py` (printing, random data, and a call into a module that does
  not exist) is not part of this model.
- Strategy.ParseDsl: the Lark parser's error objects are modelled as the
  position of the bad character or the unexpected token. The token that
  LALR reports is assumed to be the one a recursive-descent parser first
  rejects; both detect an error at the first token that cannot continue a
  valid prefix.
