/** Properties of simple_backtest (backtest.py:3-24): the bar-by-bar
    machine agrees with a description that jumps from signal to signal,
    the equity has a closed form in prices, and a worked run. */
module BacktestProps {
  import opened Ast
  import opened Backtest

  // ------------------------------------------------ a reference description

  /** The first bar in from .. n - 1 whose signal is set. */
  function FirstSignal(s: seq<bool>, from: nat, n: nat): (r: Option<nat>)
    requires n <= |s|
    ensures r.Some? ==> from <= r.value < n && s[r.value] && forall j :: from <= j < r.value ==> !s[j]
    ensures r.None? ==> forall j :: from <= j < n ==> !s[j]
    decreases n - from
  {
    if from >= n then None
    else if s[from] then Some(from)
    else FirstSignal(s, from + 1, n)
  }

  /** The trips of bars from .. n - 1 starting flat, told from signal to
      signal: a trip opens on the first entry signal, closes on the first
      exit signal after the bar it opened on, and the next trip is looked
      for from the bar after the close. */
  function Trades(entry: seq<bool>, exit: seq<bool>, from: nat, n: nat): (seq<Trip>, Pos)
    requires n <= |entry| && n <= |exit|
    decreases n - from
  {
    match FirstSignal(entry, from, n)
    case None => ([], Flat)
    case Some(e) =>
      match FirstSignal(exit, e + 1, n)
      case None => ([], Long(e))
      case Some(x) =>
        var rest := Trades(entry, exit, x + 1, n);
        ([Trip(e, x)] + rest.0, rest.1)
  }

  /** Bars from .. n - 1 applied to state `st`, first to last. */
  function Go(entry: seq<bool>, exit: seq<bool>, from: nat, n: nat, st: (seq<Trip>, Pos)): (seq<Trip>, Pos)
    requires from <= n <= |entry| && n <= |exit|
    decreases n - from
  {
    if from == n then st
    else Go(entry, exit, from + 1, n, Step(st.0, st.1, from, entry[from], exit[from]))
  }

  lemma {:induction false} GoSnoc(entry: seq<bool>, exit: seq<bool>, from: nat, n: nat, st: (seq<Trip>, Pos))
    requires from <= n < |entry| && n < |exit|
    ensures Go(entry, exit, from, n + 1, st)
         == Step(Go(entry, exit, from, n, st).0, Go(entry, exit, from, n, st).1, n, entry[n], exit[n])
    decreases n - from
  {
    if from < n {
      GoSnoc(entry, exit, from + 1, n, Step(st.0, st.1, from, entry[from], exit[from]));
    }
  }

  /** Machine, which adds one bar at a time to the end, is the forward
      run from bar 0. */
  lemma {:induction false} MachineIsGo(entry: seq<bool>, exit: seq<bool>, n: nat)
    requires n <= |entry| && n <= |exit|
    ensures Machine(entry, exit, n) == Go(entry, exit, 0, n, ([], Flat))
  {
    if n > 0 {
      MachineIsGo(entry, exit, n - 1);
      GoSnoc(entry, exit, 0, n - 1, ([], Flat));
    }
  }

  /** Bars from .. mid - 1 and then mid .. n - 1 are bars from .. n - 1. */
  lemma {:induction false} GoSplit(entry: seq<bool>, exit: seq<bool>, from: nat, mid: nat, n: nat, st: (seq<Trip>, Pos))
    requires from <= mid <= n <= |entry| && n <= |exit|
    ensures Go(entry, exit, from, n, st) == Go(entry, exit, mid, n, Go(entry, exit, from, mid, st))
    decreases mid - from
  {
    if from < mid {
      GoSplit(entry, exit, from + 1, mid, n, Step(st.0, st.1, from, entry[from], exit[from]));
    }
  }

  lemma StepKeepsEarlierTrips(done: seq<Trip>, pos: Pos, i: nat, entering: bool, exiting: bool)
    ensures Step(done, pos, i, entering, exiting) == (done + Step([], pos, i, entering, exiting).0, Step([], pos, i, entering, exiting).1)
  {
    if !(pos.Flat? && entering) && pos.Long? && exiting {
      assert [] + [Trip(pos.entryBar, i)] == [Trip(pos.entryBar, i)];
    } else {
      assert done + [] == done;
    }
  }

  /** Trips already closed are carried along unchanged. */
  lemma {:induction false} GoKeepsEarlierTrips(entry: seq<bool>, exit: seq<bool>, from: nat, n: nat,
                                               done: seq<Trip>, pos: Pos)
    requires from <= n <= |entry| && n <= |exit|
    ensures Go(entry, exit, from, n, (done, pos)).0 == done + Go(entry, exit, from, n, ([], pos)).0
    ensures Go(entry, exit, from, n, (done, pos)).1 == Go(entry, exit, from, n, ([], pos)).1
    decreases n - from
  {
    if from < n {
      var s := Step(done, pos, from, entry[from], exit[from]);
      var s0 := Step([], pos, from, entry[from], exit[from]);
      StepKeepsEarlierTrips(done, pos, from, entry[from], exit[from]);
      GoKeepsEarlierTrips(entry, exit, from + 1, n, done + s0.0, s0.1);
      GoKeepsEarlierTrips(entry, exit, from + 1, n, s0.0, s0.1);
      var g := Go(entry, exit, from + 1, n, ([], s0.1)).0;
      assert (done + s0.0) + g == done + (s0.0 + g);
    }
  }

  /** Without an entry signal a flat machine stays flat. */
  lemma {:induction false} FlatWithoutEntry(entry: seq<bool>, exit: seq<bool>, from: nat, n: nat, done: seq<Trip>)
    requires from <= n <= |entry| && n <= |exit|
    requires forall j :: from <= j < n ==> !entry[j]
    ensures Go(entry, exit, from, n, (done, Flat)) == (done, Flat)
    decreases n - from
  {
    if from < n {
      FlatWithoutEntry(entry, exit, from + 1, n, done);
    }
  }

  /** Without an exit signal a long machine stays long. */
  lemma {:induction false} LongWithoutExit(entry: seq<bool>, exit: seq<bool>, from: nat, n: nat, done: seq<Trip>, e: nat)
    requires from <= n <= |entry| && n <= |exit|
    requires forall j :: from <= j < n ==> !exit[j]
    ensures Go(entry, exit, from, n, (done, Long(e))) == (done, Long(e))
    decreases n - from
  {
    if from < n {
      LongWithoutExit(entry, exit, from + 1, n, done, e);
    }
  }

  /** One trip from a flat start at `from`: open on bar e, close on bar x. */
  lemma OneTrip(entry: seq<bool>, exit: seq<bool>, from: nat, e: nat, x: nat, n: nat)
    requires from <= e < x < n <= |entry| && n <= |exit|
    requires FirstSignal(entry, from, n) == Some(e) && FirstSignal(exit, e + 1, n) == Some(x)
    ensures Go(entry, exit, from, n, ([], Flat)) == Go(entry, exit, x + 1, n, ([Trip(e, x)], Flat))
  {
    GoSplit(entry, exit, from, e, n, ([], Flat));
    FlatWithoutEntry(entry, exit, from, e, []);
    GoSplit(entry, exit, e + 1, x, n, ([], Long(e)));
    LongWithoutExit(entry, exit, e + 1, x, [], e);
    assert [] + [Trip(e, x)] == [Trip(e, x)];
  }

  lemma TripThenRest(entry: seq<bool>, exit: seq<bool>, from: nat, e: nat, x: nat, n: nat)
    requires from <= e < x < n <= |entry| && n <= |exit|
    requires FirstSignal(entry, from, n) == Some(e) && FirstSignal(exit, e + 1, n) == Some(x)
    requires Go(entry, exit, x + 1, n, ([], Flat)) == Trades(entry, exit, x + 1, n)
    ensures Go(entry, exit, from, n, ([], Flat)) == Trades(entry, exit, from, n)
  {
    OneTrip(entry, exit, from, e, x, n);
    GoKeepsEarlierTrips(entry, exit, x + 1, n, [Trip(e, x)], Flat);
  }

  /** An open that never closes. */
  lemma OpenOnly(entry: seq<bool>, exit: seq<bool>, from: nat, e: nat, n: nat)
    requires from <= e < n <= |entry| && n <= |exit|
    requires FirstSignal(entry, from, n) == Some(e) && FirstSignal(exit, e + 1, n).None?
    ensures Go(entry, exit, from, n, ([], Flat)) == ([], Long(e))
  {
    GoSplit(entry, exit, from, e, n, ([], Flat));
    FlatWithoutEntry(entry, exit, from, e, []);
    LongWithoutExit(entry, exit, e + 1, n, [], e);
  }

  lemma {:induction false} GoIsTrades(entry: seq<bool>, exit: seq<bool>, from: nat, n: nat)
    requires from <= n <= |entry| && n <= |exit|
    ensures Go(entry, exit, from, n, ([], Flat)) == Trades(entry, exit, from, n)
    decreases n - from
  {
    match FirstSignal(entry, from, n)
    case None =>
      FlatWithoutEntry(entry, exit, from, n, []);
    case Some(e) =>
      match FirstSignal(exit, e + 1, n)
      case None =>
        OpenOnly(entry, exit, from, e, n);
      case Some(x) =>
        GoIsTrades(entry, exit, x + 1, n);
        TripThenRest(entry, exit, from, e, x, n);
  }

  /** The loop of simple_backtest trades greedily: each trip opens on the
      first entry signal after the previous close (or from bar 0) and
      closes on the first exit signal after the bar it opened on; a final
      open with no later exit signal stays open. */
  lemma MachineIsTrades(entry: seq<bool>, exit: seq<bool>, n: nat)
    requires n <= |entry| && n <= |exit|
    ensures Machine(entry, exit, n) == Trades(entry, exit, 0, n)
  {
    MachineIsGo(entry, exit, n);
    GoIsTrades(entry, exit, 0, n);
  }

  // ------------------------------------------------------------- counts

  /** Each trip takes two bars of its own. */
  lemma {:induction false} ClosedBeforeCount(trips: seq<Trip>, bound: int)
    requires ClosedBefore(trips, bound) && bound >= 0
    ensures 2 * |trips| <= bound
  {
    if trips != [] {
      var t := trips[|trips| - 1];
      var front := trips[..|trips| - 1];
      assert t.entryBar < t.exitBar < bound && ClosedBefore(front, t.entryBar);
      ClosedBeforeCount(front, t.entryBar);
    }
  }

  /** Over n bars at most n / 2 trades close. */
  lemma TradesAtMostHalfTheBars(entry: seq<bool>, exit: seq<bool>, n: nat)
    requires n <= |entry| && n <= |exit|
    ensures 2 * |Machine(entry, exit, n).0| <= n
  {
    MachineSchedule(entry, exit, n);
    var m := Machine(entry, exit, n);
    if m.1.Long? {
      ClosedBeforeWeakens(m.0, m.1.entryBar, n);
    }
    ClosedBeforeCount(m.0, n);
  }

  // -------------------------------------------------------------- money

  lemma OnePlusReturn(x: real, e: real)
    requires e != 0.0
    ensures 1.0 + (x / e - 1.0) == x / e
  {
  }

  lemma PctOfScaled(c: real, e: real, p: real)
    requires c != 0.0 && e == c * p
    ensures PctReturn(c, e) == (p - 1.0) * 100.0
  {
    var q := p - 1.0;
    var d := (c * p - c) / c;
    assert d * c == c * p - c;
    assert d * c == q * c;
    assert (d - q) * c == 0.0;
    assert d == q;
  }

  /** Compounding `1 + (exit / entry - 1)` is compounding `exit / entry`. */
  lemma {:induction false} GrowthIsPriceRatioProduct(close: seq<real>, trips: seq<Trip>)
    requires Priced(close, trips)
    ensures Growth(close, trips) == PriceRatioProduct(close, trips)
  {
    if trips != [] {
      var front := trips[..|trips| - 1];
      var t := trips[|trips| - 1];
      assert front + [t] == trips;
      ReturnsSnoc(close, front, t);
      ProductSnoc(Returns(close, front), Ret(close, t));
      GrowthIsPriceRatioProduct(close, front);
      OnePlusReturn(close[t.exitBar], close[t.entryBar]);
    }
  }

  /** The final equity is the capital times the product of exit price over
      entry price of the closed trips. */
  lemma FinalEquityClosedForm(close: seq<real>, trips: seq<Trip>, capital: real)
    requires Priced(close, trips)
    ensures FinalEquity(close, trips, capital) == capital * PriceRatioProduct(close, trips)
  {
    EquityIsScaledProduct(capital, Returns(close, trips));
    GrowthIsPriceRatioProduct(close, trips);
  }

  /** With no closed trip the reported return is zero, whatever position is
      still open at the end. */
  lemma NoTripNoReturn(close: seq<real>, trips: seq<Trip>, capital: real)
    requires capital != 0.0 && trips == []
    ensures TotalReturnPct(close, trips, capital) == 0.0
  {
  }

  /** The reported percentage in closed form. */
  lemma TotalReturnClosedForm(close: seq<real>, trips: seq<Trip>, capital: real)
    requires Priced(close, trips) && capital != 0.0
    ensures TotalReturnPct(close, trips, capital) == (PriceRatioProduct(close, trips) - 1.0) * 100.0
  {
    FinalEquityClosedForm(close, trips, capital);
    PctOfScaled(capital, FinalEquity(close, trips, capital), PriceRatioProduct(close, trips));
  }

  // ---------------------------------------------------- opens and closes

  /** The number of bars before `n` on which the machine opens a position. */
  function Opens(entry: seq<bool>, exit: seq<bool>, n: nat): nat
    requires n <= |entry| && n <= |exit|
  {
    if n == 0 then 0
    else Opens(entry, exit, n - 1) + (if Machine(entry, exit, n - 1).1.Flat? && entry[n - 1] then 1 else 0)
  }

  /** Opens and closes alternate: every open but possibly the last is
      closed, so there are as many opens as closed trips, or one more when
      a position is still open. */
  lemma {:induction false} OpensMatchTrades(entry: seq<bool>, exit: seq<bool>, n: nat)
    requires n <= |entry| && n <= |exit|
    ensures Opens(entry, exit, n) == |Machine(entry, exit, n).0| + (if Machine(entry, exit, n).1.Long? then 1 else 0)
  {
    if n > 0 {
      OpensMatchTrades(entry, exit, n - 1);
      MachineStep(entry, exit, n - 1);
    }
  }

  // ---------------------------------------------------------- a worked run

  const ExampleClose: seq<real> := [100.0, 102.0, 101.0, 103.0, 105.0, 104.0, 106.0, 108.0, 107.0, 109.0]
  const ExampleEntry: seq<bool> := [false, true, false, false, false, false, true, false, false, false]
  const ExampleExit: seq<bool> := [false, false, false, false, true, false, false, false, true, false]

  /** Ten bars with entry signals on bars 1 and 6 and exit signals on bars
      4 and 8: two trades, opened on bars 1 and 6 and closed on bars 4 and 8. */
  lemma ExampleTrips()
    ensures Machine(ExampleEntry, ExampleExit, 10) == ([Trip(1, 4), Trip(6, 8)], Flat)
  {
    var e, x := ExampleEntry, ExampleExit;
    assert Machine(e, x, 0) == ([], Flat);
    MachineStep(e, x, 0);
    MachineStep(e, x, 1);
    assert Machine(e, x, 2) == ([], Long(1));
    MachineStep(e, x, 2);
    MachineStep(e, x, 3);
    MachineStep(e, x, 4);
    assert [] + [Trip(1, 4)] == [Trip(1, 4)];
    assert Machine(e, x, 5) == ([Trip(1, 4)], Flat);
    MachineStep(e, x, 5);
    MachineStep(e, x, 6);
    assert Machine(e, x, 7) == ([Trip(1, 4)], Long(6));
    MachineStep(e, x, 7);
    MachineStep(e, x, 8);
    assert [Trip(1, 4)] + [Trip(6, 8)] == [Trip(1, 4), Trip(6, 8)];
    MachineStep(e, x, 9);
  }

  /** The two trades return 105 / 102 - 1 and 107 / 106 - 1; compounded
      from a capital of 1 the run reports about 3.91 percent. */
  lemma ExampleReturn()
    ensures Priced(ExampleClose, [Trip(1, 4), Trip(6, 8)])
    ensures TotalReturnPct(ExampleClose, [Trip(1, 4), Trip(6, 8)], 1.0)
         == ((105.0 / 102.0) * (107.0 / 106.0) - 1.0) * 100.0
    ensures 3.91 < TotalReturnPct(ExampleClose, [Trip(1, 4), Trip(6, 8)], 1.0) < 3.92
  {
    var trips := [Trip(1, 4), Trip(6, 8)];
    TotalReturnClosedForm(ExampleClose, trips, 1.0);
    assert trips[..1] == [Trip(1, 4)];
    assert trips[..1][..0] == [];
    assert PriceRatioProduct(ExampleClose, trips) == (105.0 / 102.0) * (107.0 / 106.0);
    assert (105.0 / 102.0) * (107.0 / 106.0) == 11235.0 / 10812.0;
  }
}
