/** What the two natural-language translators (nl_dsl.py, nl_to_dsl.py)
    share: a fixed list of substring tests, each adding one clause when it
    holds; the clauses of a section joined by " AND ", or `False` when
    there are none; and the strategy-text template. */
module Rules {
  import opened Text

  /** A test on the lower-cased input: a substring, or a conjunction or
      disjunction of tests. */
  datatype Test = Has(needle: string) | Both(l: Test, r: Test) | Either(l: Test, r: Test)

  predicate Holds(t: Test, text: string)
  {
    match t
    case Has(n) => Contains(text, n)
    case Both(l, r) => Holds(l, text) && Holds(r, text)
    case Either(l, r) => Holds(l, text) || Holds(r, text)
  }

  /** `if <test>: parts.append(<part>)`. */
  datatype Rule = Rule(test: Test, part: string)

  /** The parts of the rules whose tests hold, in the order of the rules. */
  function Fired(rules: seq<Rule>, text: string): (r: seq<string>)
    ensures |r| <= |rules|
  {
    if rules == [] then []
    else (if Holds(rules[0].test, text) then [rules[0].part] else []) + Fired(rules[1..], text)
  }

  /** No two rules add the same part. */
  predicate DistinctParts(rules: seq<Rule>)
  {
    forall i, j :: 0 <= i < j < |rules| ==> rules[i].part != rules[j].part
  }

  /** `" AND ".join(parts) if parts else "False"`. */
  function Clause(parts: seq<string>): (r: string)
    ensures parts == [] ==> r == "False"
    ensures parts != [] ==> |r| >= |parts[0]| && r[..|parts[0]|] == parts[0]
    ensures |parts| == 1 ==> r == parts[0]
  {
    if parts == [] then "False" else Join(parts, " AND ")
  }

  /** The returned f-string: both sections, each on its own line. */
  function Template(entry: string, exit: string): (r: string)
    ensures |r| == |entry| + |exit| + 15
    ensures r[..7] == "ENTRY:\n" && r[7..7 + |entry|] == entry
    ensures r[7 + |entry|..14 + |entry|] == "\nEXIT:\n" && r[14 + |entry|..|r| - 1] == exit
    ensures r[|r| - 1] == '\n'
  {
    "ENTRY:\n" + entry + "\nEXIT:\n" + exit + "\n"
  }

  // ------------------------------------------------------------- lemmas

  lemma ClauseOfTwo(a: string, b: string)
    ensures Clause([a, b]) == a + " AND " + b
  {
    assert [a, b][1..] == [b];
  }

  lemma ClauseOfThree(a: string, b: string, c: string)
    ensures Clause([a, b, c]) == a + " AND " + b + " AND " + c
  {
    assert [a, b, c][1..] == [b, c];
    assert [b, c][1..] == [c];
    assert Join([b, c], " AND ") == b + " AND " + c;
  }

  /** Every fired part is the part of some rule whose test holds. */
  lemma {:induction false} FiredComeFromRules(rules: seq<Rule>, text: string, a: nat)
    requires a < |Fired(rules, text)|
    ensures exists k :: 0 <= k < |rules| && rules[k].part == Fired(rules, text)[a] && Holds(rules[k].test, text)
  {
    var head := if Holds(rules[0].test, text) then [rules[0].part] else [];
    if a >= |head| {
      FiredComeFromRules(rules[1..], text, a - |head|);
      var k :| 0 <= k < |rules[1..]| && rules[1..][k].part == Fired(rules[1..], text)[a - |head|]
               && Holds(rules[1..][k].test, text);
      assert rules[k + 1] == rules[1..][k];
    }
  }

  /** A rule's part is produced exactly when its test holds. */
  lemma {:induction false} FiredIffHolds(rules: seq<Rule>, text: string, k: nat)
    requires k < |rules| && DistinctParts(rules)
    ensures rules[k].part in Fired(rules, text) <==> Holds(rules[k].test, text)
  {
    var head := if Holds(rules[0].test, text) then [rules[0].part] else [];
    assert Fired(rules, text) == head + Fired(rules[1..], text);
    if k == 0 {
      forall j | 0 <= j < |rules[1..]| ensures rules[1..][j].part != rules[0].part {
        assert rules[1..][j] == rules[j + 1];
      }
      NotFiredElsewhere(rules[1..], text, rules[0].part);
    } else {
      assert rules[1..][k - 1] == rules[k];
      assert DistinctParts(rules[1..]) by {
        forall i, j | 0 <= i < j < |rules[1..]| ensures rules[1..][i].part != rules[1..][j].part {
          assert rules[1..][i] == rules[i + 1] && rules[1..][j] == rules[j + 1];
        }
      }
      FiredIffHolds(rules[1..], text, k - 1);
      assert rules[0].part != rules[k].part;
    }
  }

  /** A part no rule adds is never fired. */
  lemma {:induction false} NotFiredElsewhere(rules: seq<Rule>, text: string, p: string)
    requires forall j :: 0 <= j < |rules| ==> rules[j].part != p
    ensures p !in Fired(rules, text)
  {
    if rules != [] {
      forall j | 0 <= j < |rules[1..]| ensures rules[1..][j].part != p {
        assert rules[1..][j] == rules[j + 1];
      }
      NotFiredElsewhere(rules[1..], text, p);
    }
  }

  /** Two fired rules keep their relative order. */
  lemma {:induction false} FiredKeepOrder(rules: seq<Rule>, text: string, i: nat, j: nat)
    requires i < j < |rules| && Holds(rules[i].test, text) && Holds(rules[j].test, text)
    ensures exists a, b :: 0 <= a < b < |Fired(rules, text)| &&
              Fired(rules, text)[a] == rules[i].part && Fired(rules, text)[b] == rules[j].part
  {
    var rest := Fired(rules[1..], text);
    assert rules[1..][j - 1] == rules[j];
    if i == 0 {
      FiredHasHolding(rules[1..], text, j - 1);
      var b :| 0 <= b < |rest| && rest[b] == rules[j].part;
      assert Fired(rules, text) == [rules[0].part] + rest;
      assert Fired(rules, text)[0] == rules[0].part && Fired(rules, text)[b + 1] == rules[j].part;
    } else {
      assert rules[1..][i - 1] == rules[i];
      FiredKeepOrder(rules[1..], text, i - 1, j - 1);
      var a, b :| 0 <= a < b < |rest| && rest[a] == rules[i].part && rest[b] == rules[j].part;
      var head := if Holds(rules[0].test, text) then [rules[0].part] else [];
      assert Fired(rules, text) == head + rest;
      assert Fired(rules, text)[a + |head|] == rules[i].part && Fired(rules, text)[b + |head|] == rules[j].part;
    }
  }

  /** A rule whose test holds has its part among the fired ones. */
  lemma {:induction false} FiredHasHolding(rules: seq<Rule>, text: string, k: nat)
    requires k < |rules| && Holds(rules[k].test, text)
    ensures exists a :: 0 <= a < |Fired(rules, text)| && Fired(rules, text)[a] == rules[k].part
  {
    var head := if Holds(rules[0].test, text) then [rules[0].part] else [];
    assert Fired(rules, text) == head + Fired(rules[1..], text);
    if k == 0 {
      assert Fired(rules, text)[0] == rules[0].part;
    } else {
      assert rules[1..][k - 1] == rules[k];
      FiredHasHolding(rules[1..], text, k - 1);
      var a :| 0 <= a < |Fired(rules[1..], text)| && Fired(rules[1..], text)[a] == rules[k].part;
      assert Fired(rules, text)[a + |head|] == rules[k].part;
    }
  }

  /** Nothing matches, nothing added: the section reads `False`. */
  lemma {:induction false} NothingFiredIsFalse(rules: seq<Rule>, text: string)
    requires forall k :: 0 <= k < |rules| ==> !Holds(rules[k].test, text)
    ensures Clause(Fired(rules, text)) == "False"
  {
    NothingFired(rules, text);
  }

  lemma {:induction false} NothingFired(rules: seq<Rule>, text: string)
    requires forall k :: 0 <= k < |rules| ==> !Holds(rules[k].test, text)
    ensures Fired(rules, text) == []
  {
    if rules != [] {
      assert forall k :: 0 <= k < |rules[1..]| ==> rules[1..][k] == rules[k + 1];
      NothingFired(rules[1..], text);
    }
  }

  // ------------------------------------------------ matching ignoring case

  /** `sub` occurs at `i` in `s` when upper and lower case letters of `s`
      are not told apart. */
  predicate MatchesAt(s: string, sub: string, i: int)
  {
    0 <= i <= |s| - |sub| && forall k :: 0 <= k < |sub| ==> LowerChar(s[i + k]) == sub[k]
  }

  /** Searching the lower-cased text for a lower-case needle is searching
      the original text ignoring case. */
  lemma LowerOccursAt(s: string, sub: string, i: int)
    ensures OccursAt(Lower(s), sub, i) <==> MatchesAt(s, sub, i)
  {
    if 0 <= i <= |s| - |sub| {
      var w := Lower(s)[i..i + |sub|];
      assert forall k :: 0 <= k < |sub| ==> w[k] == LowerChar(s[i + k]);
      if MatchesAt(s, sub, i) {
        assert w == sub;
      }
    }
  }

  /** `needle in text.lower()` holds exactly when the text holds the
      needle in some mix of cases. */
  lemma ContainsIgnoringCase(s: string, sub: string)
    ensures Contains(Lower(s), sub) <==> exists i | 0 <= i <= |s| :: MatchesAt(s, sub, i)
  {
    if Contains(Lower(s), sub) {
      var i :| 0 <= i <= |Lower(s)| && OccursAt(Lower(s), sub, i);
      LowerOccursAt(s, sub, i);
    }
    if exists i | 0 <= i <= |s| :: MatchesAt(s, sub, i) {
      var i :| 0 <= i <= |s| && MatchesAt(s, sub, i);
      LowerOccursAt(s, sub, i);
    }
  }
}
