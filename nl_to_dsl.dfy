/** nl_to_dsl of nl_to_dsl.py (nl_to_dsl.py:3-28), the translator the
    demo script uses: a different set of substring tests on the lower-cased
    request, filling the same template. */
module NlToDslDemo {
  import opened Text
  import opened Rules

  const AboveSmaPart := "close > SMA(close,20)"
  const VolumePart := "volume > 1000000"
  const BreakoutPart := "CROSS(close, high.shift(1))"
  const RsiPart := "RSI(close,14) < 30"

  /** The entry tests in source order (nl_to_dsl.py:9-16). */
  const EntryRules: seq<Rule> := [
    Rule(Either(Has("20-day moving average"), Has("20 day moving average")), AboveSmaPart),
    Rule(Both(Has("volume"), Either(Has("above"), Has("greater"))), VolumePart),
    Rule(Both(Has("crosses above yesterday"), Has("high")), BreakoutPart)
  ]

  /** The single exit test (nl_to_dsl.py:18-19). */
  const ExitRules: seq<Rule> := [
    Rule(Both(Has("rsi"), Has("below")), RsiPart)
  ]

  /** The strategy text for a request. */
  function Translation(nl: string): string
  {
    var t := Lower(nl);
    Template(Clause(Fired(EntryRules, t)), Clause(Fired(ExitRules, t)))
  }

  /** nl_to_dsl: collect the parts with conditional appends, then fill the
      template. */
  method NlToDsl(nl: string) returns (out: string)
    ensures out == Translation(nl)
  {
    var t := Lower(nl);
    var entryParts, exitParts := CollectParts(t);
    var entryExpr := if entryParts != [] then Join(entryParts, " AND ") else "False";
    var exitExpr := if exitParts != [] then Join(exitParts, " AND ") else "False";
    out := "ENTRY:\n" + entryExpr + "\nEXIT:\n" + exitExpr + "\n";
  }

  /** The conditional appends of nl_to_dsl.py:6-19, in source order, on the
      lower-cased request `t`. */
  method CollectParts(t: string) returns (entryParts: seq<string>, exitParts: seq<string>)
    ensures entryParts == Fired(EntryRules, t) && exitParts == Fired(ExitRules, t)
  {
    entryParts := [];
    exitParts := [];
    if Contains(t, "20-day moving average") || Contains(t, "20 day moving average") {
      entryParts := entryParts + [AboveSmaPart];
    }
    if Contains(t, "volume") && (Contains(t, "above") || Contains(t, "greater")) {
      entryParts := entryParts + [VolumePart];
    }
    if Contains(t, "crosses above yesterday") && Contains(t, "high") {
      entryParts := entryParts + [BreakoutPart];
    }
    if Contains(t, "rsi") && Contains(t, "below") {
      exitParts := exitParts + [RsiPart];
    }
    Assemble(t, entryParts, exitParts);
  }

  lemma Assemble(t: string, entryParts: seq<string>, exitParts: seq<string>)
    requires entryParts ==
      (if Contains(t, "20-day moving average") || Contains(t, "20 day moving average") then [AboveSmaPart] else []) +
      (if Contains(t, "volume") && (Contains(t, "above") || Contains(t, "greater")) then [VolumePart] else []) +
      (if Contains(t, "crosses above yesterday") && Contains(t, "high") then [BreakoutPart] else [])
    requires exitParts == (if Contains(t, "rsi") && Contains(t, "below") then [RsiPart] else [])
    ensures entryParts == Fired(EntryRules, t) && exitParts == Fired(ExitRules, t)
  {
    EntryFired(t);
    ExitFired(t);
    RuleTests(t);
  }

  /** The tests of the tables are the conditions of the source. */
  lemma RuleTests(t: string)
    ensures Holds(EntryRules[0].test, t) == (Contains(t, "20-day moving average") || Contains(t, "20 day moving average"))
    ensures Holds(EntryRules[1].test, t) == (Contains(t, "volume") && (Contains(t, "above") || Contains(t, "greater")))
    ensures Holds(EntryRules[2].test, t) == (Contains(t, "crosses above yesterday") && Contains(t, "high"))
    ensures Holds(ExitRules[0].test, t) == (Contains(t, "rsi") && Contains(t, "below"))
  {
    var aboveOrGreater := Either(Has("above"), Has("greater"));
    assert Holds(aboveOrGreater, t) == (Contains(t, "above") || Contains(t, "greater"));
  }

  lemma EntryFired(t: string)
    ensures Fired(EntryRules, t)
         == (if Holds(EntryRules[0].test, t) then [AboveSmaPart] else []) +
            (if Holds(EntryRules[1].test, t) then [VolumePart] else []) +
            (if Holds(EntryRules[2].test, t) then [BreakoutPart] else [])
  {
    var r := EntryRules;
    assert r[1..][1..][1..] == [];
    assert Fired(r[1..][1..], t) == (if Holds(r[2].test, t) then [BreakoutPart] else []) + [];
  }

  lemma ExitFired(t: string)
    ensures Fired(ExitRules, t) == (if Holds(ExitRules[0].test, t) then [RsiPart] else [])
  {
    var r := ExitRules;
    assert r[1..] == [];
    assert Fired(r, t) == (if Holds(r[0].test, t) then [RsiPart] else []) + [];
  }

  // ------------------------------------------------------------- lemmas

  /** Upper and lower case in the request make no difference. */
  lemma TranslationIgnoresCase(nl: string)
    ensures Translation(Lower(nl)) == Translation(nl)
  {
    LowerIdempotent(nl);
  }

  /** Each entry part is present exactly when its test holds, and there are
      at most three of them. */
  lemma EntryPartPresent(nl: string, k: nat)
    requires k < |EntryRules|
    ensures EntryRules[k].part in Fired(EntryRules, Lower(nl)) <==> Holds(EntryRules[k].test, Lower(nl))
    ensures |Fired(EntryRules, Lower(nl))| <= 3
  {
    FiredIffHolds(EntryRules, Lower(nl), k);
  }

  /** The volume clause needs "volume" and one of "above" or "greater"
      somewhere in the request; the words need not be adjacent or in that
      order. */
  lemma VolumeWordsAnywhere(nl: string)
    ensures VolumePart in Fired(EntryRules, Lower(nl)) <==>
            Contains(Lower(nl), "volume") && (Contains(Lower(nl), "above") || Contains(Lower(nl), "greater"))
  {
    FiredIffHolds(EntryRules, Lower(nl), 1);
    RuleTests(Lower(nl));
  }

  /** Entry parts keep the order of their tests. */
  lemma EntryPartsInOrder(nl: string, i: nat, j: nat)
    requires i < j < |EntryRules|
    requires Holds(EntryRules[i].test, Lower(nl)) && Holds(EntryRules[j].test, Lower(nl))
    ensures exists a, b :: 0 <= a < b < |Fired(EntryRules, Lower(nl))| &&
              Fired(EntryRules, Lower(nl))[a] == EntryRules[i].part && Fired(EntryRules, Lower(nl))[b] == EntryRules[j].part
  {
    FiredKeepOrder(EntryRules, Lower(nl), i, j);
  }

  /** With every entry test holding the parts come in source order. */
  lemma AllEntryParts(nl: string)
    requires forall k :: 0 <= k < |EntryRules| ==> Holds(EntryRules[k].test, Lower(nl))
    ensures Clause(Fired(EntryRules, Lower(nl))) == AboveSmaPart + " AND " + VolumePart + " AND " + BreakoutPart
  {
    EntryFired(Lower(nl));
    assert Holds(EntryRules[0].test, Lower(nl)) && Holds(EntryRules[1].test, Lower(nl))
        && Holds(EntryRules[2].test, Lower(nl));
    assert [AboveSmaPart] + [VolumePart] + [BreakoutPart] == [AboveSmaPart, VolumePart, BreakoutPart];
    ClauseOfThree(AboveSmaPart, VolumePart, BreakoutPart);
  }

  /** The exit section is the RSI clause when the request mentions both
      "rsi" and "below", and `False` otherwise. */
  lemma ExitSection(nl: string)
    ensures Clause(Fired(ExitRules, Lower(nl)))
         == if Contains(Lower(nl), "rsi") && Contains(Lower(nl), "below") then RsiPart else "False"
  {
    ExitFired(Lower(nl));
    RuleTests(Lower(nl));
  }

  /** A request that matches no test yields `False` for both sections. */
  lemma NoMatchIsFalse(nl: string)
    requires forall k :: 0 <= k < |EntryRules| ==> !Holds(EntryRules[k].test, Lower(nl))
    requires forall k :: 0 <= k < |ExitRules| ==> !Holds(ExitRules[k].test, Lower(nl))
    ensures Translation(nl) == Template("False", "False")
  {
    NothingFiredIsFalse(EntryRules, Lower(nl));
    NothingFiredIsFalse(ExitRules, Lower(nl));
  }
}
