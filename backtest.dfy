/** simple_backtest (backtest.py:3-24): a forward-only, long-only,
    single-position simulation over closing prices. Prices and capital are
    exact reals. */
module Backtest {

  /** One closed trade: the bar it was opened on and the bar it was closed on. */
  datatype Trip = Trip(entryBar: nat, exitBar: nat)

  /** The machine state between bars: flat, or long since a bar. */
  datatype Pos = Flat | Long(entryBar: nat)

  /** The dictionary simple_backtest returns: exactly these two entries. */
  datatype BacktestResult = BacktestResult(totalReturnPct: real, trades: nat)

  /** Trips in bar order: each opened before it is closed, each opened
      after the one before it closed, and the last one closed before bar
      `bound`. */
  predicate ClosedBefore(trips: seq<Trip>, bound: int)
  {
    trips == [] ||
    (var t := trips[|trips| - 1];
     t.entryBar < t.exitBar < bound && ClosedBefore(trips[..|trips| - 1], t.entryBar))
  }

  /** The machine's history before bar `n`: the trips in bar order, and an
      open position opened after the last close. */
  predicate Schedule(trips: seq<Trip>, pos: Pos, n: nat)
  {
    match pos
    case Flat => ClosedBefore(trips, n)
    case Long(e) => e < n && ClosedBefore(trips, e)
  }

  lemma ClosedBeforeWeakens(trips: seq<Trip>, bound: int, bound': int)
    requires ClosedBefore(trips, bound) && bound <= bound'
    ensures ClosedBefore(trips, bound')
  {
  }

  /** What ClosedBefore means trip by trip: every trip opens before it
      closes, closes before `bound`, and closes before every later trip
      opens. */
  lemma {:induction false} ClosedBeforeMeans(trips: seq<Trip>, bound: int)
    requires ClosedBefore(trips, bound)
    ensures forall k :: 0 <= k < |trips| ==> trips[k].entryBar < trips[k].exitBar < bound
    ensures forall k, l :: 0 <= k < l < |trips| ==> trips[k].exitBar < trips[l].entryBar
  {
    if trips != [] {
      var front := trips[..|trips| - 1];
      var t := trips[|trips| - 1];
      ClosedBeforeMeans(front, t.entryBar);
      assert forall k :: 0 <= k < |front| ==> trips[k] == front[k];
    }
  }

  /** Every open happens on an entry signal and every close on an exit signal. */
  predicate Signalled(entry: seq<bool>, exit: seq<bool>, trips: seq<Trip>, pos: Pos)
  {
    (forall k :: 0 <= k < |trips| ==>
      trips[k].entryBar < |entry| && entry[trips[k].entryBar] &&
      trips[k].exitBar < |exit| && exit[trips[k].exitBar]) &&
    (pos.Long? ==> pos.entryBar < |entry| && entry[pos.entryBar])
  }

  /** The state after one bar: while flat an entry signal opens (and takes
      precedence over an exit signal on the same bar); while long an exit
      signal closes; every other signal is ignored (backtest.py:11-18). */
  function Step(trips: seq<Trip>, pos: Pos, i: nat, entering: bool, exiting: bool): (r: (seq<Trip>, Pos))
    ensures |trips| <= |r.0| <= |trips| + 1 && r.0[..|trips|] == trips
    ensures |r.0| == |trips| + 1 <==> pos.Long? && exiting
    ensures r.1.Long? <==> (pos.Flat? && entering) || (pos.Long? && !exiting)
  {
    if pos.Flat? && entering then (trips, Long(i))
    else if pos.Long? && exiting then (trips + [Trip(pos.entryBar, i)], Flat)
    else (trips, pos)
  }

  /** The trips closed and the state reached after bars 0 .. n - 1. */
  function Machine(entry: seq<bool>, exit: seq<bool>, n: nat): (r: (seq<Trip>, Pos))
    requires n <= |entry| && n <= |exit|
    ensures |r.0| <= n
    ensures r.1.Long? ==> r.1.entryBar < n
  {
    if n == 0 then ([], Flat)
    else
      var prev := Machine(entry, exit, n - 1);
      Step(prev.0, prev.1, n - 1, entry[n - 1], exit[n - 1])
  }

  lemma StepKeepsSchedule(trips: seq<Trip>, pos: Pos, i: nat, entering: bool, exiting: bool)
    requires Schedule(trips, pos, i)
    ensures Schedule(Step(trips, pos, i, entering, exiting).0, Step(trips, pos, i, entering, exiting).1, i + 1)
  {
    if pos.Flat? && entering {
    } else if pos.Long? && exiting {
      var all := trips + [Trip(pos.entryBar, i)];
      assert all[..|trips|] == trips;
    } else if pos.Flat? {
      ClosedBeforeWeakens(trips, i, i + 1);
    }
  }

  lemma StepKeepsSignalled(entry: seq<bool>, exit: seq<bool>, trips: seq<Trip>, pos: Pos, i: nat)
    requires i < |entry| && i < |exit|
    requires Signalled(entry, exit, trips, pos)
    ensures Signalled(entry, exit, Step(trips, pos, i, entry[i], exit[i]).0, Step(trips, pos, i, entry[i], exit[i]).1)
  {
    if !(pos.Flat? && entry[i]) && pos.Long? && exit[i] {
      var all := trips + [Trip(pos.entryBar, i)];
      assert forall k :: 0 <= k < |trips| ==> all[k] == trips[k];
      assert all[|trips|] == Trip(pos.entryBar, i);
    }
  }

  /** The machine opens before it closes, opens only on entry signals,
      closes only on exit signals, and never holds two positions. */
  lemma {:induction false} MachineSchedule(entry: seq<bool>, exit: seq<bool>, n: nat)
    requires n <= |entry| && n <= |exit|
    ensures Schedule(Machine(entry, exit, n).0, Machine(entry, exit, n).1, n)
  {
    if n > 0 {
      MachineSchedule(entry, exit, n - 1);
      var prev := Machine(entry, exit, n - 1);
      StepKeepsSchedule(prev.0, prev.1, n - 1, entry[n - 1], exit[n - 1]);
    }
  }

  lemma {:induction false} MachineSignalled(entry: seq<bool>, exit: seq<bool>, n: nat)
    requires n <= |entry| && n <= |exit|
    ensures Signalled(entry, exit, Machine(entry, exit, n).0, Machine(entry, exit, n).1)
  {
    if n > 0 {
      MachineSignalled(entry, exit, n - 1);
      var prev := Machine(entry, exit, n - 1);
      StepKeepsSignalled(entry, exit, prev.0, prev.1, n - 1);
    }
  }

  // -------------------------------------------------------------- money

  /** Every trip's bars are price bars and its entry price is not zero. */
  predicate Priced(close: seq<real>, trips: seq<Trip>)
  {
    forall k :: 0 <= k < |trips| ==>
      trips[k].entryBar < |close| && trips[k].exitBar < |close| && close[trips[k].entryBar] != 0.0
  }

  /** `price / entry_price - 1` of a trip (backtest.py:15). */
  function Ret(close: seq<real>, t: Trip): real
    requires t.entryBar < |close| && t.exitBar < |close| && close[t.entryBar] != 0.0
  {
    close[t.exitBar] / close[t.entryBar] - 1.0
  }

  /** The `trades` list: one return per closed trip, in order. */
  function Returns(close: seq<real>, trips: seq<Trip>): (r: seq<real>)
    requires Priced(close, trips)
    ensures |r| == |trips|
  {
    if trips == [] then []
    else Returns(close, trips[..|trips| - 1]) + [Ret(close, trips[|trips| - 1])]
  }

  /** The factor the updates `equity *= (1 + ret)` apply, in order. */
  function Product(rets: seq<real>): real
  {
    if rets == [] then 1.0 else Product(rets[..|rets| - 1]) * (1.0 + rets[|rets| - 1])
  }

  /** The factor by which the closed trips grow the equity. */
  function Growth(close: seq<real>, trips: seq<Trip>): real
    requires Priced(close, trips)
  {
    Product(Returns(close, trips))
  }

  /** The product of exit price over entry price across the trips. */
  function PriceRatioProduct(close: seq<real>, trips: seq<Trip>): real
    requires Priced(close, trips)
  {
    if trips == [] then 1.0
    else
      var t := trips[|trips| - 1];
      PriceRatioProduct(close, trips[..|trips| - 1]) * (close[t.exitBar] / close[t.entryBar])
  }

  /** `(equity - capital) / capital * 100` (backtest.py:20). */
  function PctReturn(capital: real, equity: real): real
    requires capital != 0.0
  {
    (equity - capital) / capital * 100.0
  }

  lemma ReturnsSnoc(close: seq<real>, trips: seq<Trip>, t: Trip)
    requires Priced(close, trips + [t])
    ensures Priced(close, trips)
    ensures t.entryBar < |close| && t.exitBar < |close| && close[t.entryBar] != 0.0
    ensures Returns(close, trips + [t]) == Returns(close, trips) + [Ret(close, t)]
  {
    var all := trips + [t];
    assert all[..|trips|] == trips;
    assert all[|trips|] == t;
    assert forall k :: 0 <= k < |trips| ==> all[k] == trips[k];
  }

  lemma ProductSnoc(rets: seq<real>, x: real)
    ensures Product(rets + [x]) == Product(rets) * (1.0 + x)
  {
    assert (rets + [x])[..|rets|] == rets;
  }

  /** The equity after starting from `capital` and applying
      `equity *= (1 + ret)` for each return in turn. */
  function Equity(capital: real, rets: seq<real>): real
  {
    if rets == [] then capital else Equity(capital, rets[..|rets| - 1]) * (1.0 + rets[|rets| - 1])
  }

  lemma EquitySnoc(capital: real, rets: seq<real>, x: real)
    ensures Equity(capital, rets + [x]) == Equity(capital, rets) * (1.0 + x)
  {
    assert (rets + [x])[..|rets|] == rets;
  }

  /** The compounded equity is the capital times the growth factor. */
  lemma {:induction false} EquityIsScaledProduct(capital: real, rets: seq<real>)
    ensures Equity(capital, rets) == capital * Product(rets)
  {
    if rets != [] {
      var front := rets[..|rets| - 1];
      var x := rets[|rets| - 1];
      EquityIsScaledProduct(capital, front);
      assert capital * (Product(front) * (1.0 + x)) == (capital * Product(front)) * (1.0 + x);
    }
  }

  /** The equity at the end of a run that closed `trips`. */
  function FinalEquity(close: seq<real>, trips: seq<Trip>, capital: real): real
    requires Priced(close, trips)
  {
    Equity(capital, Returns(close, trips))
  }

  /** The reported `total_return_pct` of a run that closed `trips`. */
  function TotalReturnPct(close: seq<real>, trips: seq<Trip>, capital: real): real
    requires Priced(close, trips) && capital != 0.0
  {
    PctReturn(capital, FinalEquity(close, trips, capital))
  }

  lemma MachineStep(entry: seq<bool>, exit: seq<bool>, i: nat)
    requires i < |entry| && i < |exit|
    ensures Machine(entry, exit, i + 1)
         == Step(Machine(entry, exit, i).0, Machine(entry, exit, i).1, i, entry[i], exit[i])
  {
  }

  lemma MachinePriced(close: seq<real>, entry: seq<bool>, exit: seq<bool>, n: nat)
    requires n <= |close| && |close| <= |entry| && |close| <= |exit|
    requires forall i :: 0 <= i < |close| && entry[i] ==> close[i] != 0.0
    ensures Priced(close, Machine(entry, exit, n).0)
  {
    var trips := Machine(entry, exit, n).0;
    MachineSchedule(entry, exit, n);
    MachineSignalled(entry, exit, n);
    if Machine(entry, exit, n).1.Long? {
      ClosedBeforeWeakens(trips, Machine(entry, exit, n).1.entryBar, n);
    }
    ClosedBeforeMeans(trips, n);
    forall k | 0 <= k < |trips|
      ensures trips[k].entryBar < |close| && trips[k].exitBar < |close| && close[trips[k].entryBar] != 0.0
    {
      assert entry[trips[k].entryBar];
    }
  }

  /** What the loop of simple_backtest keeps about the machine state
      `(trips, pos)` it has reached: the trips are priced, `in_pos` and
      `entry_price` describe the position, `trades` holds the trips'
      returns and `equity` their compounding. */
  ghost predicate Tracks(close: seq<real>, capital: real, trips: seq<Trip>, pos: Pos,
                         inPos: bool, entryPrice: real, trades: seq<real>, equity: real)
  {
    Priced(close, trips) &&
    (inPos <==> pos.Long?) &&
    (pos.Long? ==> pos.entryBar < |close| && entryPrice == close[pos.entryBar] && entryPrice != 0.0) &&
    trades == Returns(close, trips) &&
    equity == Equity(capital, trades)
  }

  lemma PricedSnoc(close: seq<real>, trips: seq<Trip>, t: Trip)
    requires Priced(close, trips)
    requires t.entryBar < |close| && t.exitBar < |close| && close[t.entryBar] != 0.0
    ensures Priced(close, trips + [t])
  {
    var all := trips + [t];
    assert forall k :: 0 <= k < |trips| ==> all[k] == trips[k];
  }

  /** An exit signal while long closes the trip, records its return and
      compounds the equity. */
  lemma CloseBar(close: seq<real>, capital: real, trips: seq<Trip>, e: nat, i: nat,
                 entryPrice: real, trades: seq<real>, equity: real, ret: real)
    requires i < |close|
    requires Tracks(close, capital, trips, Long(e), true, entryPrice, trades, equity)
    requires ret == close[i] / entryPrice - 1.0
    ensures Tracks(close, capital, trips + [Trip(e, i)], Flat, false, entryPrice, trades + [ret], equity * (1.0 + ret))
  {
    var t := Trip(e, i);
    PricedSnoc(close, trips, t);
    ReturnsSnoc(close, trips, t);
    EquitySnoc(capital, trades, ret);
  }

  /** simple_backtest: run the two-state machine over the bars, then report
      the percentage return of the final equity and the number of closed
      trades. */
  method SimpleBacktest(close: seq<real>, entry: seq<bool>, exit: seq<bool>, capital: real)
    returns (r: BacktestResult)
    requires capital > 0.0
    requires |entry| >= |close| && |exit| >= |close|
    requires forall i :: 0 <= i < |close| && entry[i] ==> close[i] != 0.0
    ensures Priced(close, Machine(entry, exit, |close|).0)
    ensures r.trades == |Machine(entry, exit, |close|).0|
    ensures r.totalReturnPct == TotalReturnPct(close, Machine(entry, exit, |close|).0, capital)
  {
    var inPos := false;
    var entryPrice: real := 0.0;
    var trades: seq<real> := [];
    var equity := capital;
    ghost var trips: seq<Trip> := [];
    ghost var pos := Flat;
    for i := 0 to |close|
      invariant (trips, pos) == Machine(entry, exit, i)
      invariant Tracks(close, capital, trips, pos, inPos, entryPrice, trades, equity)
    {
      MachineStep(entry, exit, i);
      var price := close[i];
      if !inPos && entry[i] {
        inPos := true;
        entryPrice := price;
        pos := Long(i);
      } else if inPos && exit[i] {
        var ret := price / entryPrice - 1.0;
        CloseBar(close, capital, trips, pos.entryBar, i, entryPrice, trades, equity, ret);
        equity := equity * (1.0 + ret);
        trades := trades + [ret];
        trips := trips + [Trip(pos.entryBar, i)];
        inPos := false;
        pos := Flat;
      }
    }
    var totalReturn := (equity - capital) / capital * 100.0;
    r := BacktestResult(totalReturn, |trades|);
  }
}
