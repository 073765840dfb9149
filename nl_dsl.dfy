/** nl_to_dsl of nl_dsl.py (nl_dsl.py:1-29), the translator the web front
    end uses: fixed substring tests on the lower-cased request, each adding
    one clause to the entry or the exit section. */
module NlDsl {
  import opened Text
  import opened Rules

  const CrossUpPart := "CROSS(close, SMA(close,20))"
  const AboveSmaPart := "close > SMA(close,20)"
  const VolumePart := "volume > 1000000"
  const CrossDownPart := "CROSS(SMA(close,20), close)"
  const RsiPart := "RSI(close,14) < 50"

  /** The entry tests in source order (nl_dsl.py:7-8, 13-17). */
  const EntryRules: seq<Rule> := [
    Rule(Both(Has("crosses above"), Has("moving average")), CrossUpPart),
    Rule(Has("close price is above the 20-day moving average"), AboveSmaPart),
    Rule(Has("volume is above"), VolumePart)
  ]

  /** The exit tests in source order (nl_dsl.py:10-11, 19-20). */
  const ExitRules: seq<Rule> := [
    Rule(Both(Has("crosses below"), Has("moving average")), CrossDownPart),
    Rule(Both(Has("rsi"), Has("below")), RsiPart)
  ]

  /** The strategy text for a request. */
  function Translation(nl: string): string
  {
    var t := Lower(nl);
    Template(Clause(Fired(EntryRules, t)), Clause(Fired(ExitRules, t)))
  }

  /** nl_to_dsl: collect the parts with conditional appends, then fill the
      template. */
  method NlToDsl(nl: string) returns (out: string)
    ensures out == Translation(nl)
  {
    var t := Lower(nl);
    var entryParts, exitParts := CollectParts(t);
    var entryExpr := if entryParts != [] then Join(entryParts, " AND ") else "False";
    var exitExpr := if exitParts != [] then Join(exitParts, " AND ") else "False";
    out := "ENTRY:\n" + entryExpr + "\nEXIT:\n" + exitExpr + "\n";
  }

  /** The conditional appends of nl_dsl.py:4-20, in source order, on the
      lower-cased request `t`. */
  method CollectParts(t: string) returns (entryParts: seq<string>, exitParts: seq<string>)
    ensures entryParts == Fired(EntryRules, t) && exitParts == Fired(ExitRules, t)
  {
    entryParts := [];
    exitParts := [];
    if Contains(t, "crosses above") && Contains(t, "moving average") {
      entryParts := entryParts + [CrossUpPart];
    }
    if Contains(t, "crosses below") && Contains(t, "moving average") {
      exitParts := exitParts + [CrossDownPart];
    }
    if Contains(t, "close price is above the 20-day moving average") {
      entryParts := entryParts + [AboveSmaPart];
    }
    if Contains(t, "volume is above") {
      entryParts := entryParts + [VolumePart];
    }
    if Contains(t, "rsi") && Contains(t, "below") {
      exitParts := exitParts + [RsiPart];
    }
    Assemble(t, entryParts, exitParts);
  }

  lemma Assemble(t: string, entryParts: seq<string>, exitParts: seq<string>)
    requires entryParts ==
      (if Contains(t, "crosses above") && Contains(t, "moving average") then [CrossUpPart] else []) +
      (if Contains(t, "close price is above the 20-day moving average") then [AboveSmaPart] else []) +
      (if Contains(t, "volume is above") then [VolumePart] else [])
    requires exitParts ==
      (if Contains(t, "crosses below") && Contains(t, "moving average") then [CrossDownPart] else []) +
      (if Contains(t, "rsi") && Contains(t, "below") then [RsiPart] else [])
    ensures entryParts == Fired(EntryRules, t) && exitParts == Fired(ExitRules, t)
  {
    EntryFired(t);
    ExitFired(t);
    RuleTests(t);
  }

  /** The tests of the tables are the conditions of the source. */
  lemma RuleTests(t: string)
    ensures Holds(EntryRules[0].test, t) == (Contains(t, "crosses above") && Contains(t, "moving average"))
    ensures Holds(EntryRules[1].test, t) == Contains(t, "close price is above the 20-day moving average")
    ensures Holds(EntryRules[2].test, t) == Contains(t, "volume is above")
    ensures Holds(ExitRules[0].test, t) == (Contains(t, "crosses below") && Contains(t, "moving average"))
    ensures Holds(ExitRules[1].test, t) == (Contains(t, "rsi") && Contains(t, "below"))
  {
  }

  lemma EntryFired(t: string)
    ensures Fired(EntryRules, t)
         == (if Holds(EntryRules[0].test, t) then [CrossUpPart] else []) +
            (if Holds(EntryRules[1].test, t) then [AboveSmaPart] else []) +
            (if Holds(EntryRules[2].test, t) then [VolumePart] else [])
  {
    var r := EntryRules;
    assert r[1..][1..][1..] == [];
    assert Fired(r[1..][1..], t) == (if Holds(r[2].test, t) then [VolumePart] else []) + [];
  }

  lemma ExitFired(t: string)
    ensures Fired(ExitRules, t)
         == (if Holds(ExitRules[0].test, t) then [CrossDownPart] else []) +
            (if Holds(ExitRules[1].test, t) then [RsiPart] else [])
  {
    var r := ExitRules;
    assert r[1..][1..] == [];
    assert Fired(r[1..], t) == (if Holds(r[1].test, t) then [RsiPart] else []) + [];
  }

  // ------------------------------------------------------------- lemmas

  /** Upper and lower case in the request make no difference. */
  lemma TranslationIgnoresCase(nl: string)
    ensures Translation(Lower(nl)) == Translation(nl)
  {
    LowerIdempotent(nl);
  }

  /** Each entry part is present exactly when its test holds, and there are
      at most three of them. */
  lemma EntryPartPresent(nl: string, k: nat)
    requires k < |EntryRules|
    ensures EntryRules[k].part in Fired(EntryRules, Lower(nl)) <==> Holds(EntryRules[k].test, Lower(nl))
    ensures |Fired(EntryRules, Lower(nl))| <= 3
  {
    FiredIffHolds(EntryRules, Lower(nl), k);
  }

  /** Each exit part is present exactly when its test holds, and there are
      at most two of them. */
  lemma ExitPartPresent(nl: string, k: nat)
    requires k < |ExitRules|
    ensures ExitRules[k].part in Fired(ExitRules, Lower(nl)) <==> Holds(ExitRules[k].test, Lower(nl))
    ensures |Fired(ExitRules, Lower(nl))| <= 2
  {
    FiredIffHolds(ExitRules, Lower(nl), k);
  }

  /** Entry parts keep the order of their tests. */
  lemma EntryPartsInOrder(nl: string, i: nat, j: nat)
    requires i < j < |EntryRules|
    requires Holds(EntryRules[i].test, Lower(nl)) && Holds(EntryRules[j].test, Lower(nl))
    ensures exists a, b :: 0 <= a < b < |Fired(EntryRules, Lower(nl))| &&
              Fired(EntryRules, Lower(nl))[a] == EntryRules[i].part && Fired(EntryRules, Lower(nl))[b] == EntryRules[j].part
  {
    FiredKeepOrder(EntryRules, Lower(nl), i, j);
  }

  /** With every entry test holding the parts come in source order. */
  lemma AllEntryParts(nl: string)
    requires forall k :: 0 <= k < |EntryRules| ==> Holds(EntryRules[k].test, Lower(nl))
    ensures Clause(Fired(EntryRules, Lower(nl))) == CrossUpPart + " AND " + AboveSmaPart + " AND " + VolumePart
  {
    EntryFired(Lower(nl));
    assert Holds(EntryRules[0].test, Lower(nl)) && Holds(EntryRules[1].test, Lower(nl))
        && Holds(EntryRules[2].test, Lower(nl));
    assert [CrossUpPart] + [AboveSmaPart] + [VolumePart] == [CrossUpPart, AboveSmaPart, VolumePart];
    ClauseOfThree(CrossUpPart, AboveSmaPart, VolumePart);
  }

  /** With every exit test holding the parts come in source order. */
  lemma AllExitParts(nl: string)
    requires forall k :: 0 <= k < |ExitRules| ==> Holds(ExitRules[k].test, Lower(nl))
    ensures Clause(Fired(ExitRules, Lower(nl))) == CrossDownPart + " AND " + RsiPart
  {
    ExitFired(Lower(nl));
    assert Holds(ExitRules[0].test, Lower(nl)) && Holds(ExitRules[1].test, Lower(nl));
    assert [CrossDownPart] + [RsiPart] == [CrossDownPart, RsiPart];
    ClauseOfTwo(CrossDownPart, RsiPart);
  }

  /** A request that matches no test yields `False` for both sections. */
  lemma NoMatchIsFalse(nl: string)
    requires forall k :: 0 <= k < |EntryRules| ==> !Holds(EntryRules[k].test, Lower(nl))
    requires forall k :: 0 <= k < |ExitRules| ==> !Holds(ExitRules[k].test, Lower(nl))
    ensures Translation(nl) == Template("False", "False")
  {
    NothingFiredIsFalse(EntryRules, Lower(nl));
    NothingFiredIsFalse(ExitRules, Lower(nl));
  }
}
