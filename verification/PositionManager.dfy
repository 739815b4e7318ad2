/** Open positions, trailing stops and exits (cryptoswarms/position_manager.py). */
module PositionManager {
  import opened Common

  datatype Side = Long | Short

  datatype Reason = StopLoss | TakeProfit | TimeExit | RegimeChange | Manual | SignalReverse

  /** What never changes about a position. */
  datatype Terms = Terms(
    id: string, strategyId: string, symbol: string, side: Side, entry: real, sizeUsd: real, sizeTokens: real,
    target: real, maxHold: int, trail: real)

  datatype PositionState = PositionState(terms: Terms, stop: real, held: int, high: real, low: real)

  datatype Trade = Trade(terms: Terms, exitPrice: real, pnlUsd: real, pnlPct: real, fees: real, slippageBps: real, reason: Reason)

  datatype Order = Order(
    strategyId: string, symbol: string, side: string, entry: real, sizeUsd: real,
    stopPct: real, targetPct: real, maxHold: int, trail: real)

  const FEE_RATE := 0.001
  const SLIPPAGE_BPS := 5.0

  function Upper(s: string): string {
    seq(|s|, i requires 0 <= i < |s| => if 'a' <= s[i] <= 'z' then (s[i] as int - 32) as char else s[i])
  }

  function ParseSide(s: string): Side {
    if Upper(s) == "BUY" || Upper(s) == "LONG" then Long else Short
  }

  function InitialStop(side: Side, entry: real, stopPct: real): real {
    Times(entry, if side == Long then 1.0 - stopPct else 1.0 + stopPct)
  }

  function NewPosition(o: Order, id: string): PositionState
    requires o.entry != 0.0
  {
    var side := ParseSide(o.side);
    var target := Times(o.entry, if side == Long then 1.0 + o.targetPct else 1.0 - o.targetPct);
    PositionState(
      Terms(id, o.strategyId, o.symbol, side, o.entry, o.sizeUsd, o.sizeUsd / o.entry, target, o.maxHold, o.trail),
      InitialStop(side, o.entry, o.stopPct), 0, o.entry, o.entry)
  }

  /** One priced check, up to the decision to exit. */
  function Mark(p: PositionState, price: real): PositionState {
    var t := p.terms;
    var high, low := MaxReal(p.high, price), MinReal(p.low, price);
    var stop :=
      if t.trail > 0.0 then
        if t.side == Long then MaxReal(p.stop, Times(high, 1.0 - t.trail)) else MinReal(p.stop, Times(low, 1.0 + t.trail))
      else p.stop;
    PositionState(t, stop, p.held + 1, high, low)
  }

  /** The decision, on a position already marked with this price. */
  function ExitReason(p: PositionState, price: real): Option<Reason> {
    if p.terms.side == Long && price <= p.stop then Some(StopLoss)
    else if p.terms.side == Short && price >= p.stop then Some(StopLoss)
    else if p.terms.side == Long && price >= p.terms.target then Some(TakeProfit)
    else if p.terms.side == Short && price <= p.terms.target then Some(TakeProfit)
    else if p.held >= p.terms.maxHold then Some(TimeExit)
    else None
  }

  function ExitPrice(side: Side, price: real, slippageBps: real): real {
    Times(price, if side == Long then 1.0 - slippageBps / 10000.0 else 1.0 + slippageBps / 10000.0)
  }

  /** The relative profit, as a fraction of the entry price. */
  function ProfitRate(t: Terms, exit: real): real
    requires t.entry != 0.0
  {
    (if t.side == Long then exit - t.entry else t.entry - exit) / t.entry
  }

  function Closing(t: Terms, price: real, slippageBps: real, reason: Reason): Trade
    requires t.entry != 0.0
  {
    var exit := ExitPrice(t.side, price, slippageBps);
    var fees := Times(t.sizeUsd, FEE_RATE);
    Trade(t, exit, Times(ProfitRate(t, exit), t.sizeUsd) - fees, Times(ProfitRate(t, exit), 100.0), fees, slippageBps, reason)
  }

  // ---------------------------------------------------------------- what opening and closing mean

  /** "BUY" or "LONG", in any mixture of cases. */
  predicate SaysLong(side: string) {
    || (|side| == 3 && side[0] in "Bb" && side[1] in "Uu" && side[2] in "Yy")
    || (|side| == 4 && side[0] in "Ll" && side[1] in "Oo" && side[2] in "Nn" && side[3] in "Gg")
  }

  /** p is the position that the order opens: its fields, its limits on the right sides of the entry price, and no
      price seen yet but the entry. */
  predicate Opens(o: Order, id: string, p: PositionState) {
    var t := p.terms;
    && t.id == id && t.strategyId == o.strategyId && t.symbol == o.symbol
    && (t.side == Long <==> SaysLong(o.side))
    && t.entry == o.entry && t.sizeUsd == o.sizeUsd && t.sizeTokens * o.entry == o.sizeUsd
    && t.maxHold == o.maxHold && t.trail == o.trail
    && (t.side == Long ==> p.stop == o.entry * (1.0 - o.stopPct) && t.target == o.entry * (1.0 + o.targetPct))
    && (t.side == Short ==> p.stop == o.entry * (1.0 + o.stopPct) && t.target == o.entry * (1.0 - o.targetPct))
    && p.held == 0 && p.high == o.entry && p.low == o.entry
  }

  lemma UpperSaysLong(side: string)
    ensures Upper(side) == "BUY" || Upper(side) == "LONG" <==> SaysLong(side)
  {
    var u := Upper(side);
    assert u == "BUY" <==> |u| == 3 && u[0] == 'B' && u[1] == 'U' && u[2] == 'Y';
    assert u == "LONG" <==> |u| == 4 && u[0] == 'L' && u[1] == 'O' && u[2] == 'N' && u[3] == 'G';
  }

  lemma NewPositionOpens(o: Order, id: string)
    requires o.entry != 0.0
    ensures Opens(o, id, NewPosition(o, id))
  {
    UpperSaysLong(o.side);
    assert (o.sizeUsd / o.entry) * o.entry == o.sizeUsd;
  }

  /** The new limits lie on the two sides of a positive entry price: a long stops below and takes profit above. */
  lemma LimitsEncloseEntry(o: Order, id: string, p: PositionState)
    requires Opens(o, id, p) && o.entry > 0.0 && o.stopPct > 0.0 && o.targetPct > 0.0
    ensures SaysLong(o.side) ==> p.stop < o.entry < p.terms.target
    ensures !SaysLong(o.side) ==> p.terms.target < o.entry < p.stop
  {
    assert o.entry * o.stopPct > 0.0 && o.entry * o.targetPct > 0.0;
  }

  /** trade is what closing a position on these terms leaves: the price is worse by the slippage, the profit is the
      relative move times the size less 0.1% of the size in fees, and the percentage is that move alone. */
  predicate Closes(t: Terms, price: real, slippageBps: real, reason: Reason, trade: Trade) {
    && trade.terms == t && trade.reason == reason && trade.slippageBps == slippageBps
    && (t.side == Long ==> trade.exitPrice == price - price * slippageBps / 10000.0)
    && (t.side == Short ==> trade.exitPrice == price + price * slippageBps / 10000.0)
    && trade.fees * 1000.0 == t.sizeUsd
    && (t.side == Long ==>
          && trade.pnlPct * t.entry == (trade.exitPrice - t.entry) * 100.0
          && (trade.pnlUsd + trade.fees) * t.entry == (trade.exitPrice - t.entry) * t.sizeUsd)
    && (t.side == Short ==>
          && trade.pnlPct * t.entry == (t.entry - trade.exitPrice) * 100.0
          && (trade.pnlUsd + trade.fees) * t.entry == (t.entry - trade.exitPrice) * t.sizeUsd)
  }

  lemma ClosingCloses(t: Terms, price: real, slippageBps: real, reason: Reason)
    requires t.entry != 0.0
    ensures Closes(t, price, slippageBps, reason, Closing(t, price, slippageBps, reason))
  {
    var exit := ExitPrice(t.side, price, slippageBps);
    assert price * (slippageBps / 10000.0) == price * slippageBps / 10000.0;
    RateTimes(if t.side == Long then exit - t.entry else t.entry - exit, t.entry, t.sizeUsd);
    RateTimes(if t.side == Long then exit - t.entry else t.entry - exit, t.entry, 100.0);
  }

  lemma RateTimes(x: real, y: real, z: real)
    requires y != 0.0
    ensures Times(x / y, z) * y == x * z
  {
    var q := x / y;
    assert q * y == x;
    assert (q * z) * y == (q * y) * z;
  }

  /** Slippage never helps, whichever the side. */
  lemma SlippageNeverHelps(t: Terms, price: real, s1: real, s2: real, reason: Reason)
    requires t.entry > 0.0 && t.sizeUsd >= 0.0 && price >= 0.0 && s1 <= s2
    ensures Closing(t, price, s2, reason).pnlUsd <= Closing(t, price, s1, reason).pnlUsd
  {
    var a, b := ExitPrice(t.side, price, s1), ExitPrice(t.side, price, s2);
    if t.side == Long {
      Commute(price, 1.0 - s1 / 10000.0);
      Commute(price, 1.0 - s2 / 10000.0);
      TimesOrdered(1.0 - s2 / 10000.0, 1.0 - s1 / 10000.0, price);
    } else {
      Commute(price, 1.0 + s1 / 10000.0);
      Commute(price, 1.0 + s2 / 10000.0);
      TimesOrdered(1.0 + s1 / 10000.0, 1.0 + s2 / 10000.0, price);
    }
    ProfitRateOrdered(t, a, b);
    TimesOrdered(ProfitRate(t, b), ProfitRate(t, a), t.sizeUsd);
  }

  lemma Commute(x: real, y: real)
    ensures Times(x, y) == Times(y, x)
  {
  }

  lemma ProfitRateOrdered(t: Terms, a: real, b: real)
    requires t.entry > 0.0 && if t.side == Long then b <= a else a <= b
    ensures ProfitRate(t, b) <= ProfitRate(t, a)
  {
  }

  // ---------------------------------------------------------------- trailing stops

  function MarkAll(p: PositionState, prices: seq<real>): PositionState {
    if prices == [] then p else Mark(MarkAll(p, prices[..|prices| - 1]), prices[|prices| - 1])
  }

  function Highest(start: real, prices: seq<real>): real {
    if prices == [] then start else MaxReal(Highest(start, prices[..|prices| - 1]), prices[|prices| - 1])
  }

  function Lowest(start: real, prices: seq<real>): real {
    if prices == [] then start else MinReal(Lowest(start, prices[..|prices| - 1]), prices[|prices| - 1])
  }

  predicate Newly(p: PositionState) {
    p.held == 0 && p.high == p.low == p.terms.entry
  }

  lemma {:induction false} MarkAllBasics(p: PositionState, prices: seq<real>)
    requires Newly(p)
    ensures var q := MarkAll(p, prices);
      && q.terms == p.terms && q.held == |prices|
      && q.high == Highest(p.terms.entry, prices) && q.low == Lowest(p.terms.entry, prices)
      && (p.terms.trail <= 0.0 ==> q.stop == p.stop)
  {
    if prices != [] {
      MarkAllBasics(p, prices[..|prices| - 1]);
    }
  }

  /** An enabled trailing stop as a function of the extreme price: it follows the highest price of a long and the
      lowest price of a short, and never gives up the initial stop. */
  function TrailingValue(p: PositionState, prices: seq<real>): real {
    var t := p.terms;
    if t.side == Long then MaxReal(p.stop, Times(Highest(t.entry, prices), 1.0 - t.trail))
    else MinReal(p.stop, Times(Lowest(t.entry, prices), 1.0 + t.trail))
  }

  /** After one or more priced checks an enabled trailing stop depends on the extreme price only, not on
      the path -- for every short, and for a long whose percentage is at most one. */
  lemma {:induction false} TrailingStop(p: PositionState, prices: seq<real>)
    requires Newly(p) && prices != [] && p.terms.trail > 0.0
    requires p.terms.side == Long ==> p.terms.trail <= 1.0
    ensures MarkAll(p, prices).stop == TrailingValue(p, prices)
  {
    var before := prices[..|prices| - 1];
    var t := p.terms;
    MarkAllBasics(p, before);
    MarkAllBasics(p, prices);
    if before != [] {
      TrailingStop(p, before);
      if t.side == Long {
        TimesOrdered(Highest(t.entry, before), Highest(t.entry, prices), 1.0 - t.trail);
      } else {
        TimesOrdered(Lowest(t.entry, prices), Lowest(t.entry, before), 1.0 + t.trail);
      }
    }
  }

  /** The position is still open after every one of the prices. */
  predicate Survives(p: PositionState, prices: seq<real>) {
    prices == []
    || (&& Survives(p, prices[..|prices| - 1])
        && ExitReason(MarkAll(p, prices), prices[|prices| - 1]) == None)
  }

  /** A path of prices that checks can really apply: the position is still open when the last one arrives. */
  predicate RealPath(p: PositionState, prices: seq<real>) {
    prices != [] && Survives(p, prices[..|prices| - 1])
  }

  /** The lowest trail of a long over which its highest price can still rise. */
  function TrailFloor(t: Terms): real {
    Times(MaxReal(t.entry, 0.0), 1.0 - t.trail)
  }

  /** Shorts; longs whose percentage is at most one; and longs that never live to see a trail above one take
      effect: the initial stop is no lower, the first check closes them, or the target is no higher. */
  predicate TrailsExtreme(p: PositionState) {
    var t := p.terms;
    t.side == Short || t.trail <= 1.0 || TrailFloor(t) <= p.stop || t.maxHold <= 1 || t.target <= TrailFloor(t)
  }

  lemma {:induction false} FirstSurvives(p: PositionState, prices: seq<real>)
    requires prices != [] && Survives(p, prices)
    ensures ExitReason(Mark(p, prices[0]), prices[0]) == None
  {
    if |prices| > 1 {
      FirstSurvives(p, prices[..|prices| - 1]);
    } else {
      OneMark(p, prices);
    }
  }

  lemma OneMark(p: PositionState, prices: seq<real>)
    requires |prices| == 1
    ensures MarkAll(p, prices) == Mark(p, prices[0])
    ensures Highest(p.terms.entry, prices) == MaxReal(p.terms.entry, prices[0])
  {
    assert prices[..0] == [];
  }

  lemma {:induction false} HighestFromFirst(entry: real, prices: seq<real>)
    requires prices != []
    ensures Highest(entry, prices) >= MaxReal(entry, prices[0])
  {
    if |prices| > 1 {
      HighestFromFirst(entry, prices[..|prices| - 1]);
    } else {
      assert prices[..0] == [];
    }
  }

  /** A trail above one that starts below the initial stop never reaches it. */
  lemma {:induction false} StopStays(p: PositionState, prices: seq<real>)
    requires Newly(p) && p.terms.side == Long && p.terms.trail > 1.0 && prices != []
    requires Times(MaxReal(p.terms.entry, prices[0]), 1.0 - p.terms.trail) <= p.stop
    ensures MarkAll(p, prices).stop == p.stop == TrailingValue(p, prices)
  {
    var t := p.terms;
    MarkAllBasics(p, prices);
    HighestFromFirst(t.entry, prices);
    TimesReversed(MaxReal(t.entry, prices[0]), Highest(t.entry, prices), 1.0 - t.trail);
    if |prices| > 1 {
      StopStays(p, prices[..|prices| - 1]);
    } else {
      OneMark(p, prices);
    }
  }

  lemma TimesOfNegative(x: real, z: real)
    requires z < 0.0
    ensures x < 0.0 <==> Times(x, z) > 0.0
    ensures x > 0.0 <==> Times(x, z) < 0.0
  {
  }

  /** A price between its own trail and the target: the trail has then fallen at least to its floor, and the floor
      lies below the target. */
  lemma SurvivedPrice(entry: real, a: real, z: real, target: real)
    requires z < 0.0 && Times(MaxReal(entry, a), z) < a < target
    ensures Times(MaxReal(entry, a), z) <= Times(MaxReal(entry, 0.0), z) < target
  {
    var high, floor := MaxReal(entry, a), MaxReal(entry, 0.0);
    TimesOfNegative(high, z);
    TimesOfNegative(floor, z);
    assert high >= floor;
    TimesReversed(floor, high, z);
  }

  /** If a long survives its first price, the trail then lies at or below the initial stop. */
  lemma FirstTrail(p: PositionState, a: real)
    requires Newly(p) && p.terms.side == Long && p.terms.trail > 1.0 && TrailsExtreme(p)
    requires ExitReason(Mark(p, a), a) == None
    ensures Times(MaxReal(p.terms.entry, a), 1.0 - p.terms.trail) <= p.stop
  {
    SurvivedPrice(p.terms.entry, a, 1.0 - p.terms.trail, p.terms.target);
  }

  lemma RealPathFollows(p: PositionState, prices: seq<real>)
    requires Newly(p) && p.terms.trail > 0.0 && TrailsExtreme(p) && RealPath(p, prices)
    ensures MarkAll(p, prices).stop == TrailingValue(p, prices)
  {
    if p.terms.side == Short || p.terms.trail <= 1.0 {
      TrailingStop(p, prices);
    } else if |prices| == 1 {
      OneMark(p, prices);
    } else {
      FirstSurvives(p, prices[..|prices| - 1]);
      FirstTrail(p, prices[0]);
      StopStays(p, prices);
    }
  }

  /** A first price that the position survives with its trail above the initial stop, and then a higher one. */
  lemma TrailLeftBehind(p: PositionState, a: real)
    requires Newly(p) && p.terms.side == Long && p.terms.trail > 1.0 && p.terms.maxHold > 1
    requires p.stop < Times(MaxReal(p.terms.entry, a), 1.0 - p.terms.trail) < a < p.terms.target
    ensures var path := [a, MaxReal(p.terms.entry, a) + 1.0];
      RealPath(p, path) && MarkAll(p, path).stop != TrailingValue(p, path)
  {
    var h := MaxReal(p.terms.entry, a);
    TwoMarks(p, a, h + 1.0);
    StrictlyLess(h, 1.0 - p.terms.trail);
    var first := [a];
    assert [a, h + 1.0][..1] == first && first[..|first| - 1] == [];
    OneMark(p, first);
    assert Survives(p, []) && ExitReason(Mark(p, a), a) == None;
    assert Survives(p, first);
  }

  lemma StrictlyLess(x: real, z: real)
    requires z < 0.0
    ensures Times(x + 1.0, z) < Times(x, z)
  {
  }

  lemma TwoMarks(p: PositionState, a: real, b: real)
    ensures MarkAll(p, [a, b]) == Mark(Mark(p, a), b)
    ensures Highest(p.terms.entry, [a, b]) == MaxReal(MaxReal(p.terms.entry, a), b)
  {
    assert [a, b][..1] == [a] && [a][..0] == [];
    assert MarkAll(p, [a]) == Mark(MarkAll(p, []), a);
    assert Highest(p.terms.entry, [a]) == MaxReal(Highest(p.terms.entry, []), a);
  }

  /** Where the trail can come between the initial stop and the target, some price brings it there. */
  lemma FindFirstPrice(entry: real, stop: real, target: real, trail: real) returns (a: real)
    requires trail > 1.0 && stop < Times(MaxReal(entry, 0.0), 1.0 - trail) < target
    ensures stop < Times(MaxReal(entry, a), 1.0 - trail) < a < target
  {
    var floor := Times(MaxReal(entry, 0.0), 1.0 - trail);
    if entry > 0.0 {
      a := MinReal(entry, (floor + target) / 2.0);
      TimesOfNegative(entry, 1.0 - trail);
    } else {
      assert floor == 0.0;
      var y := stop / (1.0 - trail);
      assert y * (1.0 - trail) == stop;
      NegativeQuotient(stop, 1.0 - trail);
      a := MinReal(target, y) / 2.0;
      TimesOfNegative(a, 1.0 - trail);
      TimesReversed(a, y / 2.0, 1.0 - trail);
      assert Times(y / 2.0, 1.0 - trail) == stop / 2.0;
    }
  }

  lemma NegativeQuotient(x: real, z: real)
    requires x < 0.0 && z < 0.0
    ensures x / z > 0.0
  {
  }

  /** An enabled trailing stop follows the extreme price on every path that checks can really apply if and only if
      the position is a short, its percentage is at most one, or the trail can never come between stop and target. */
  lemma TrailingStopExactlyWhen(p: PositionState)
    requires Newly(p) && p.terms.trail > 0.0
    ensures (forall prices :: RealPath(p, prices) ==> MarkAll(p, prices).stop == TrailingValue(p, prices))
      <==> TrailsExtreme(p)
  {
    if TrailsExtreme(p) {
      forall prices | RealPath(p, prices) ensures MarkAll(p, prices).stop == TrailingValue(p, prices) {
        RealPathFollows(p, prices);
      }
    } else {
      var a := FindFirstPrice(p.terms.entry, p.stop, p.terms.target, p.terms.trail);
      TrailLeftBehind(p, a);
    }
  }

  /** A check only ever tightens the stop. */
  lemma StopOnlyTightens(p: PositionState, price: real)
    ensures p.terms.side == Long ==> p.stop <= Mark(p, price).stop
    ensures p.terms.side == Short ==> Mark(p, price).stop <= p.stop
  {
  }

  /** A marked position survives exactly when the price is strictly between stop and target and the
      time limit has not been reached; otherwise the stop goes before the target, the target before time. */
  lemma SurvivesExactlyWhen(p: PositionState, price: real)
    ensures var t := p.terms;
      var inside := if t.side == Long then p.stop < price < t.target else t.target < price < p.stop;
      var stopped := if t.side == Long then price <= p.stop else price >= p.stop;
      var reached := if t.side == Long then price >= t.target else price <= t.target;
      && (ExitReason(p, price) == None <==> inside && p.held < t.maxHold)
      && (ExitReason(p, price) == Some(StopLoss) <==> stopped)
      && (ExitReason(p, price) == Some(TakeProfit) <==> reached && !stopped)
      && (ExitReason(p, price) == Some(TimeExit) <==> inside && p.held >= t.maxHold)
  {
  }

  // ---------------------------------------------------------------- the book

  type Prices = map<string, real>

  /** What one check does to one position: None when it is closed. */
  function Checked(p: PositionState, prices: Prices): Option<PositionState> {
    if p.terms.symbol !in prices then Some(p)
    else
      var m := Mark(p, prices[p.terms.symbol]);
      if ExitReason(m, prices[p.terms.symbol]).None? then Some(m) else None
  }

  function Survivors(open: seq<PositionState>, prices: Prices): seq<PositionState> {
    if open == [] then []
    else
      var last := Checked(open[|open| - 1], prices);
      Survivors(open[..|open| - 1], prices) + if last.Some? then [last.value] else []
  }

  predicate Solvent(open: seq<PositionState>) {
    forall p :: p in open ==> p.terms.entry != 0.0
  }

  function Exits(open: seq<PositionState>, prices: Prices): seq<Trade>
    requires Solvent(open)
  {
    if open == [] then []
    else
      Exits(open[..|open| - 1], prices) + ExitOf(open[|open| - 1], prices)
  }

  datatype Book = Book(open: seq<PositionState>, closed: seq<Trade>)

  function Index(open: seq<PositionState>, id: string): (i: nat)
    ensures i <= |open| && (i < |open| ==> open[i].terms.id == id)
    ensures forall j :: 0 <= j < i ==> open[j].terms.id != id
  {
    if open == [] || open[0].terms.id == id then 0 else 1 + Index(open[1..], id)
  }

  function Clash(open: seq<PositionState>, symbol: string, strategyId: string): (i: nat)
    ensures i <= |open|
    ensures i < |open| ==> open[i].terms.symbol == symbol && open[i].terms.strategyId == strategyId
    ensures forall j :: 0 <= j < i ==> !(open[j].terms.symbol == symbol && open[j].terms.strategyId == strategyId)
  {
    if open == [] || (open[0].terms.symbol == symbol && open[0].terms.strategyId == strategyId) then 0
    else 1 + Clash(open[1..], symbol, strategyId)
  }

  /** `open_position` under the new id: an existing position for the symbol and strategy is returned
      instead, and a zero entry price raises. */
  function Opened(b: Book, o: Order, id: string): Book {
    if Clash(b.open, o.symbol, o.strategyId) < |b.open| || o.entry == 0.0 then b
    else b.(open := b.open + [NewPosition(o, id)])
  }

  function Closed(b: Book, id: string, price: real, slippageBps: real, reason: Reason): Book
    requires Solvent(b.open)
  {
    var i := Index(b.open, id);
    if i == |b.open| then b
    else Book(b.open[..i] + b.open[i + 1..], b.closed + [Closing(b.open[i].terms, price, slippageBps, reason)])
  }

  function CheckedBook(b: Book, prices: Prices): Book
    requires Solvent(b.open)
  {
    Book(Survivors(b.open, prices), b.closed + Exits(b.open, prices))
  }

  function Heat(open: seq<PositionState>): real {
    if open == [] then 0.0 else Heat(open[..|open| - 1]) + open[|open| - 1].terms.sizeUsd
  }

  function ClosedSize(closed: seq<Trade>): real {
    if closed == [] then 0.0 else ClosedSize(closed[..|closed| - 1]) + closed[|closed| - 1].terms.sizeUsd
  }

  function OpenIds(open: seq<PositionState>): multiset<string> {
    if open == [] then multiset{} else OpenIds(open[..|open| - 1]) + multiset{open[|open| - 1].terms.id}
  }

  function ClosedIds(closed: seq<Trade>): multiset<string> {
    if closed == [] then multiset{} else ClosedIds(closed[..|closed| - 1]) + multiset{closed[|closed| - 1].terms.id}
  }

  // ---------------------------------------------------------------- every run

  /** `everOpened` lists every position ever opened, as it was opened; `orders` has the order that opened it and
      `history` the prices it was checked at. */
  datatype System = System(
    book: Book, everOpened: seq<PositionState>, orders: map<string, Order>, history: map<string, seq<real>>)

  datatype Action =
    | Open(order: Order, id: string)
    | Close(id: string, price: real, slippageBps: real, reason: Reason)
    | Check(prices: Prices)

  const START := System(Book([], []), [], map[], map[])

  function Extended(open: seq<PositionState>, prices: Prices, history: map<string, seq<real>>): map<string, seq<real>> {
    map id | id in history ::
      var i := Index(open, id);
      if i < |open| && open[i].terms.symbol in prices then history[id] + [prices[open[i].terms.symbol]] else history[id]
  }

  /** A uuid is a fresh id: an order that comes with a used one is not an action of any run. */
  function Apply(s: System, a: Action): System
    requires Solvent(s.book.open)
  {
    match a
    case Open(o, id) =>
      if id in s.history then s
      else
        var b := Opened(s.book, o, id);
        if b == s.book then s
        else System(b, s.everOpened + [NewPosition(o, id)], s.orders[id := o], s.history[id := []])
    case Close(id, price, slip, reason) => s.(book := Closed(s.book, id, price, slip, reason))
    case Check(prices) => s.(book := CheckedBook(s.book, prices), history := Extended(s.book.open, prices, s.history))
  }

  /** What was ever opened is open or closed, ids and sizes alike. */
  ghost predicate Balanced(ever: seq<PositionState>, b: Book) {
    && OpenIds(ever) == OpenIds(b.open) + ClosedIds(b.closed)
    && Heat(ever) == Heat(b.open) + ClosedSize(b.closed)
  }

  /** No id was opened twice, and the history knows exactly the ids that were. */
  ghost predicate OpenedOnce(ever: seq<PositionState>, history: map<string, seq<real>>) {
    forall id :: OpenIds(ever)[id] == if id in history then 1 else 0
  }

  ghost predicate Conserved(s: System) {
    Balanced(s.everOpened, s.book) && OpenedOnce(s.everOpened, s.history)
  }

  ghost predicate NoTwins(open: seq<PositionState>) {
    forall i, j :: 0 <= i < j < |open| ==>
      !(open[i].terms.symbol == open[j].terms.symbol && open[i].terms.strategyId == open[j].terms.strategyId)
  }

  /** An open position is what its price history made of its order, and it survived every one of the prices. */
  ghost predicate Explained(s: System, p: PositionState) {
    var id := p.terms.id;
    && id in s.history && id in s.orders && s.orders[id].entry != 0.0
    && p == MarkAll(NewPosition(s.orders[id], id), s.history[id])
    && Survives(NewPosition(s.orders[id], id), s.history[id])
  }

  ghost predicate Inv(s: System) {
    && Conserved(s) && NoTwins(s.book.open)
    && (forall i :: 0 <= i < |s.book.open| ==> Explained(s, s.book.open[i]))
  }

  lemma {:induction false} ConcatOpen(a: seq<PositionState>, b: seq<PositionState>)
    ensures OpenIds(a + b) == OpenIds(a) + OpenIds(b) && Heat(a + b) == Heat(a) + Heat(b)
  {
    if b == [] {
      assert a + b == a;
    } else {
      ConcatOpen(a, b[..|b| - 1]);
      ConcatFront(a, b);
    }
  }

  lemma {:induction false} ConcatClosed(a: seq<Trade>, b: seq<Trade>)
    ensures ClosedIds(a + b) == ClosedIds(a) + ClosedIds(b) && ClosedSize(a + b) == ClosedSize(a) + ClosedSize(b)
  {
    if b == [] {
      assert a + b == a;
    } else {
      ConcatClosed(a, b[..|b| - 1]);
      ConcatFront(a, b);
    }
  }

  lemma OpenOne(p: PositionState)
    ensures OpenIds([p]) == multiset{p.terms.id} && Heat([p]) == p.terms.sizeUsd
  {
    assert [p][..0] == [];
  }

  lemma ClosedOne(t: Trade)
    ensures ClosedIds([t]) == multiset{t.terms.id} && ClosedSize([t]) == t.terms.sizeUsd
  {
    assert [t][..0] == [];
  }

  lemma CheckedTerms(p: PositionState, prices: Prices)
    ensures Checked(p, prices).Some? ==> Checked(p, prices).value.terms == p.terms
  {
  }

  /** The trade, if any, that a check adds for one position. */
  function ExitOf(p: PositionState, prices: Prices): (r: seq<Trade>)
    requires p.terms.entry != 0.0
    ensures |r| == if Checked(p, prices).None? then 1 else 0
    ensures r != [] ==> r[0].terms == p.terms
  {
    if Checked(p, prices).Some? then []
    else
      var price := prices[p.terms.symbol];
      [Closing(p.terms, price, SLIPPAGE_BPS, ExitReason(Mark(p, price), price).value)]
  }

  lemma AddToEither(a: multiset<string>, b: multiset<string>, x: multiset<string>)
    ensures (a + b) + x == (a + x) + b == a + (b + x)
  {
  }

  lemma {:induction false} CheckConserves(open: seq<PositionState>, prices: Prices)
    requires Solvent(open)
    ensures OpenIds(open) == OpenIds(Survivors(open, prices)) + ClosedIds(Exits(open, prices))
    ensures Heat(open) == Heat(Survivors(open, prices)) + ClosedSize(Exits(open, prices))
  {
    if open != [] {
      var rest, p := open[..|open| - 1], open[|open| - 1];
      CheckConserves(rest, prices);
      CheckedTerms(p, prices);
      if Checked(p, prices).Some? {
        ConcatOpen(Survivors(rest, prices), [Checked(p, prices).value]);
        OpenOne(Checked(p, prices).value);
        assert Exits(open, prices) == Exits(rest, prices);
      } else {
        ConcatClosed(Exits(rest, prices), ExitOf(p, prices));
        ClosedOne(ExitOf(p, prices)[0]);
        assert Survivors(open, prices) == Survivors(rest, prices);
      }
      AddToEither(OpenIds(Survivors(rest, prices)), ClosedIds(Exits(rest, prices)), multiset{p.terms.id});
    }
  }

  lemma {:induction false} SurvivorOrigin(open: seq<PositionState>, prices: Prices, i: nat) returns (j: nat)
    requires i < |Survivors(open, prices)|
    ensures j < |open| && Checked(open[j], prices) == Some(Survivors(open, prices)[i])
  {
    if i < |Survivors(open[..|open| - 1], prices)| {
      j := SurvivorOrigin(open[..|open| - 1], prices, i);
    } else {
      j := |open| - 1;
    }
  }

  /** Increasing positions in a list of length n. */
  ghost predicate Increasing(js: seq<nat>, n: nat) {
    && (forall i :: 0 <= i < |js| ==> js[i] < n)
    && (forall i, j :: 0 <= i < j < |js| ==> js[i] < js[j])
  }

  /** p, marked with its price, is still strictly inside its limits and its holding time. */
  predicate Stays(p: PositionState, prices: Prices) {
    p.terms.symbol in prices ==>
      var price := prices[p.terms.symbol];
      var m := Mark(p, price);
      && m.held < p.terms.maxHold
      && if p.terms.side == Long then m.stop < price < p.terms.target else p.terms.target < price < m.stop
  }

  /** The positions that stay, unpriced ones unchanged and priced ones marked, in the order of the book. */
  ghost predicate KeptFrom(open: seq<PositionState>, prices: Prices, kept: seq<nat>, survivors: seq<PositionState>) {
    && Increasing(kept, |open|) && |kept| == |survivors|
    && (forall i: nat :: i < |open| ==> (i in kept <==> Stays(open[i], prices)))
    && (forall k :: 0 <= k < |kept| ==> survivors[k] == Priced(open[kept[k]], prices))
  }

  /** One trade for each of the others, in the order of the book. */
  ghost predicate GoneFrom(open: seq<PositionState>, prices: Prices, gone: seq<nat>, exits: seq<Trade>) {
    && Increasing(gone, |open|) && |gone| == |exits|
    && (forall i: nat :: i < |open| ==> (i in gone <==> !Stays(open[i], prices)))
    && (forall k :: 0 <= k < |gone| ==> ExitsAs(open[gone[k]], prices, exits[k]))
  }

  function Priced(p: PositionState, prices: Prices): PositionState {
    if p.terms.symbol in prices then Mark(p, prices[p.terms.symbol]) else p
  }

  /** A list of positions extended by the last one exactly if it is wanted. */
  lemma NumberedOneMore(open: seq<PositionState>, prices: Prices, front: seq<nat>, js: seq<nat>, stays: bool)
    requires open != [] && Increasing(front, |open| - 1)
    requires forall i: nat :: i < |open| - 1 ==> (i in front <==> Stays(open[..|open| - 1][i], prices) == stays)
    requires js == if Stays(open[|open| - 1], prices) == stays then front + [|open| - 1] else front
    ensures Increasing(js, |open|)
    ensures forall i: nat :: i < |open| ==> (i in js <==> Stays(open[i], prices) == stays)
  {
    var n := |open| - 1;
    forall i: nat | i < |open| ensures i in js <==> Stays(open[i], prices) == stays {
      assert i < n ==> open[..n][i] == open[i];
      assert i in js <==> i in front || (i == n && Stays(open[n], prices) == stays);
    }
  }

  lemma {:induction false} SurvivorsAreKept(open: seq<PositionState>, prices: Prices) returns (kept: seq<nat>)
    requires Solvent(open)
    ensures KeptFrom(open, prices, kept, Survivors(open, prices))
  {
    kept := [];
    if open != [] {
      var n := |open| - 1;
      var front := SurvivorsAreKept(open[..n], prices);
      CheckOneSplits(open[n], prices);
      kept := if Stays(open[n], prices) then front + [n] else front;
      NumberedOneMore(open, prices, front, kept, true);
      KeptValues(open, prices, front, kept);
    }
  }

  lemma KeptValues(open: seq<PositionState>, prices: Prices, front: seq<nat>, kept: seq<nat>)
    requires open != [] && Solvent(open) && Increasing(front, |open| - 1) && Increasing(kept, |open|)
    requires KeptFrom(open[..|open| - 1], prices, front, Survivors(open[..|open| - 1], prices))
    requires kept == if Stays(open[|open| - 1], prices) then front + [|open| - 1] else front
    ensures |kept| == |Survivors(open, prices)|
    ensures forall k :: 0 <= k < |kept| ==> Survivors(open, prices)[k] == Priced(open[kept[k]], prices)
  {
    var n := |open| - 1;
    CheckOneSplits(open[n], prices);
    forall k | 0 <= k < |kept| ensures Survivors(open, prices)[k] == Priced(open[kept[k]], prices) {
      assert k < |front| ==> open[..n][front[k]] == open[front[k]];
    }
  }

  lemma {:induction false} ExitsAreGone(open: seq<PositionState>, prices: Prices) returns (gone: seq<nat>)
    requires Solvent(open)
    ensures GoneFrom(open, prices, gone, Exits(open, prices))
  {
    gone := [];
    if open != [] {
      var n := |open| - 1;
      var front := ExitsAreGone(open[..n], prices);
      CheckOneSplits(open[n], prices);
      gone := if Stays(open[n], prices) then front else front + [n];
      NumberedOneMore(open, prices, front, gone, false);
      GoneValues(open, prices, front, gone);
    }
  }

  lemma GoneValues(open: seq<PositionState>, prices: Prices, front: seq<nat>, gone: seq<nat>)
    requires open != [] && Solvent(open) && Increasing(front, |open| - 1) && Increasing(gone, |open|)
    requires GoneFrom(open[..|open| - 1], prices, front, Exits(open[..|open| - 1], prices))
    requires gone == if Stays(open[|open| - 1], prices) then front else front + [|open| - 1]
    ensures |gone| == |Exits(open, prices)|
    ensures forall k :: 0 <= k < |gone| ==> ExitsAs(open[gone[k]], prices, Exits(open, prices)[k])
  {
    var n := |open| - 1;
    CheckOneSplits(open[n], prices);
    forall k | 0 <= k < |gone| ensures ExitsAs(open[gone[k]], prices, Exits(open, prices)[k]) {
      assert k < |front| ==> open[..n][front[k]] == open[front[k]];
    }
  }

  /** A checked book, split into what stays and what goes. */
  lemma CheckSplits(b: Book, prices: Prices, after: Book, closed: seq<Trade>) returns (kept: seq<nat>, gone: seq<nat>)
    requires Solvent(b.open) && after == CheckedBook(b, prices) && after.closed == b.closed + closed
    ensures KeptFrom(b.open, prices, kept, after.open) && GoneFrom(b.open, prices, gone, closed)
  {
    kept := SurvivorsAreKept(b.open, prices);
    gone := ExitsAreGone(b.open, prices);
    assert (b.closed + closed)[|b.closed|..] == closed;
    assert (b.closed + Exits(b.open, prices))[|b.closed|..] == Exits(b.open, prices);
  }

  /** The trade of a position that a check closes: the stop goes before the target, the target before time. */
  predicate ExitsAs(p: PositionState, prices: Prices, trade: Trade) {
    && p.terms.symbol in prices
    && var price := prices[p.terms.symbol];
       var stop := Mark(p, price).stop;
       var stopped := if p.terms.side == Long then price <= stop else price >= stop;
       var reached := if p.terms.side == Long then price >= p.terms.target else price <= p.terms.target;
       Closes(p.terms, price, 5.0, if stopped then StopLoss else if reached then TakeProfit else TimeExit, trade)
  }

  lemma CheckOneSplits(p: PositionState, prices: Prices)
    requires p.terms.entry != 0.0
    ensures Checked(p, prices).Some? <==> Stays(p, prices)
    ensures Stays(p, prices) ==>
      Checked(p, prices).value == Priced(p, prices)
    ensures !Stays(p, prices) ==> |ExitOf(p, prices)| == 1 && ExitsAs(p, prices, ExitOf(p, prices)[0])
  {
    if p.terms.symbol in prices {
      var price := prices[p.terms.symbol];
      var m := Mark(p, price);
      SurvivesExactlyWhen(m, price);
      if ExitReason(m, price).Some? {
        ClosingCloses(p.terms, price, SLIPPAGE_BPS, ExitReason(m, price).value);
      }
    }
  }

  lemma {:induction false} IdCounted(open: seq<PositionState>, i: nat)
    requires i < |open|
    ensures open[i].terms.id in OpenIds(open)
  {
    if i < |open| - 1 {
      IdCounted(open[..|open| - 1], i);
    }
  }

  /** If no id is counted twice, different positions have different ids. */
  lemma {:induction false} DistinctIds(open: seq<PositionState>, i: nat, j: nat)
    requires i < j < |open| && forall id :: OpenIds(open)[id] <= 1
    ensures open[i].terms.id != open[j].terms.id
  {
    var rest := open[..|open| - 1];
    if j < |open| - 1 {
      assert forall id :: OpenIds(rest)[id] <= OpenIds(open)[id];
      DistinctIds(rest, i, j);
    } else {
      IdCounted(rest, i);
      assert OpenIds(open)[open[j].terms.id] == OpenIds(rest)[open[j].terms.id] + 1;
    }
  }

  lemma IndexFinds(open: seq<PositionState>, i: nat)
    requires i < |open| && forall id :: OpenIds(open)[id] <= 1
    ensures Index(open, open[i].terms.id) == i
  {
    var k := Index(open, open[i].terms.id);
    if k < i {
      DistinctIds(open, k, i);
    }
  }

  lemma MarkAllOneMore(q: PositionState, prices: seq<real>, price: real)
    ensures MarkAll(q, prices + [price]) == Mark(MarkAll(q, prices), price)
  {
    assert (prices + [price])[..|prices|] == prices;
  }

  lemma RemoveOne(open: seq<PositionState>, i: nat)
    requires i < |open|
    ensures OpenIds(open) == OpenIds(open[..i] + open[i + 1..]) + multiset{open[i].terms.id}
    ensures Heat(open) == Heat(open[..i] + open[i + 1..]) + open[i].terms.sizeUsd
  {
    SplitAt(open, i);
    ConcatOpen(open[..i], [open[i]] + open[i + 1..]);
    ConcatOpen([open[i]], open[i + 1..]);
    OpenOne(open[i]);
    ConcatOpen(open[..i], open[i + 1..]);
  }

  lemma MoveOne(open: seq<PositionState>, closed: seq<Trade>, i: nat, t: Trade)
    requires i < |open| && t.terms == open[i].terms
    ensures OpenIds(open) + ClosedIds(closed) == OpenIds(open[..i] + open[i + 1..]) + ClosedIds(closed + [t])
    ensures Heat(open) + ClosedSize(closed) == Heat(open[..i] + open[i + 1..]) + ClosedSize(closed + [t])
  {
    RemoveOne(open, i);
    ConcatClosed(closed, [t]);
    ClosedOne(t);
  }

  lemma CloseBalanced(ever: seq<PositionState>, b: Book, id: string, price: real, slippageBps: real, reason: Reason)
    requires Balanced(ever, b) && Solvent(b.open)
    ensures Balanced(ever, Closed(b, id, price, slippageBps, reason))
  {
    var i := Index(b.open, id);
    if i < |b.open| {
      MoveOne(b.open, b.closed, i, Closing(b.open[i].terms, price, slippageBps, reason));
    }
  }

  lemma CloseConserves(s: System, a: Action)
    requires Conserved(s) && Solvent(s.book.open) && a.Close?
    ensures Conserved(Apply(s, a))
  {
    CloseBalanced(s.everOpened, s.book, a.id, a.price, a.slippageBps, a.reason);
  }

  lemma RemoveNoTwins(open: seq<PositionState>, i: nat)
    requires NoTwins(open) && i < |open|
    ensures NoTwins(open[..i] + open[i + 1..])
  {
    var after := open[..i] + open[i + 1..];
    forall j, k | 0 <= j < k < |after|
      ensures !(after[j].terms.symbol == after[k].terms.symbol && after[j].terms.strategyId == after[k].terms.strategyId)
    {
      assert after[j] == open[if j < i then j else j + 1] && after[k] == open[if k < i then k else k + 1];
    }
  }

  lemma ExplainedStill(s: System, s': System, p: PositionState)
    requires Explained(s, p) && p.terms.id in s'.history && s'.history[p.terms.id] == s.history[p.terms.id]
    requires p.terms.id in s'.orders && s'.orders[p.terms.id] == s.orders[p.terms.id]
    ensures Explained(s', p)
  {
  }

  lemma CloseExplains(s: System, a: Action, k: nat)
    requires forall i :: 0 <= i < |s.book.open| ==> Explained(s, s.book.open[i])
    requires Solvent(s.book.open) && a.Close? && k < |Apply(s, a).book.open|
    ensures Explained(Apply(s, a), Apply(s, a).book.open[k])
  {
    var i := Index(s.book.open, a.id);
    var origin := if k < i then k else if i < |s.book.open| then k + 1 else k;
    assert Apply(s, a).book.open[k] == s.book.open[origin];
    assert Explained(s, s.book.open[origin]);
    ExplainedStill(s, Apply(s, a), s.book.open[origin]);
  }

  lemma CloseKeepsInv(s: System, a: Action)
    requires Inv(s) && Solvent(s.book.open) && a.Close?
    ensures Inv(Apply(s, a))
  {
    CloseConserves(s, a);
    if Index(s.book.open, a.id) < |s.book.open| {
      RemoveNoTwins(s.book.open, Index(s.book.open, a.id));
    }
    forall k | 0 <= k < |Apply(s, a).book.open| ensures Explained(Apply(s, a), Apply(s, a).book.open[k]) {
      CloseExplains(s, a, k);
    }
  }

  /** An order either changes nothing or appends one new position that has no twin. */
  lemma OpenCases(s: System, a: Action)
    requires Solvent(s.book.open) && a.Open?
    ensures Apply(s, a) == s || (
      && a.order.entry != 0.0 && a.id !in s.history
      && var p := NewPosition(a.order, a.id);
      && Apply(s, a) == System(Book(s.book.open + [p], s.book.closed), s.everOpened + [p], s.orders[a.id := a.order],
                               s.history[a.id := []])
      && forall j :: 0 <= j < |s.book.open| ==>
           !(s.book.open[j].terms.symbol == p.terms.symbol && s.book.open[j].terms.strategyId == p.terms.strategyId))
  {
  }

  lemma OpenBalanced(ever: seq<PositionState>, b: Book, p: PositionState)
    requires Balanced(ever, b)
    ensures Balanced(ever + [p], Book(b.open + [p], b.closed))
  {
    ConcatOpen(b.open, [p]);
    ConcatOpen(ever, [p]);
    OpenOne(p);
    AddToEither(OpenIds(b.open), ClosedIds(b.closed), multiset{p.terms.id});
  }

  lemma NewIdOnce(ever: seq<PositionState>, history: map<string, seq<real>>, p: PositionState)
    requires OpenedOnce(ever, history) && p.terms.id !in history
    ensures OpenedOnce(ever + [p], history[p.terms.id := []])
  {
    ConcatOpen(ever, [p]);
    OpenOne(p);
  }

  lemma OpenConserves(s: System, a: Action)
    requires Conserved(s) && Solvent(s.book.open) && a.Open?
    ensures Conserved(Apply(s, a))
  {
    OpenCases(s, a);
    if Apply(s, a) != s {
      OpenBalanced(s.everOpened, s.book, NewPosition(a.order, a.id));
      NewIdOnce(s.everOpened, s.history, NewPosition(a.order, a.id));
    }
  }

  lemma OpenExplains(s: System, a: Action, k: nat)
    requires forall i :: 0 <= i < |s.book.open| ==> Explained(s, s.book.open[i])
    requires Solvent(s.book.open) && a.Open? && k < |Apply(s, a).book.open|
    ensures Explained(Apply(s, a), Apply(s, a).book.open[k])
  {
    OpenCases(s, a);
    var s' := Apply(s, a);
    if k < |s.book.open| {
      assert Explained(s, s.book.open[k]);
      ExplainedStill(s, s', s.book.open[k]);
    } else {
      assert s'.book.open[k] == MarkAll(NewPosition(a.order, a.id), []);
    }
  }

  lemma OpenNoTwins(s: System, a: Action)
    requires NoTwins(s.book.open) && Solvent(s.book.open) && a.Open?
    ensures NoTwins(Apply(s, a).book.open)
  {
    OpenCases(s, a);
  }

  lemma OpenKeepsInv(s: System, a: Action)
    requires Inv(s) && Solvent(s.book.open) && a.Open?
    ensures Inv(Apply(s, a))
  {
    OpenConserves(s, a);
    OpenNoTwins(s, a);
    forall k | 0 <= k < |Apply(s, a).book.open| ensures Explained(Apply(s, a), Apply(s, a).book.open[k]) {
      OpenExplains(s, a, k);
    }
  }

  lemma OpenAtMostOnce(s: System)
    requires Conserved(s)
    ensures forall id :: OpenIds(s.book.open)[id] <= 1
  {
    forall id ensures OpenIds(s.book.open)[id] <= 1 {
      assert OpenIds(s.everOpened)[id] == OpenIds(s.book.open)[id] + ClosedIds(s.book.closed)[id];
    }
  }

  /** No id is open twice. */
  lemma OpenOnce(s: System, i: nat)
    requires Conserved(s) && i < |s.book.open|
    ensures Index(s.book.open, s.book.open[i].terms.id) == i
  {
    OpenAtMostOnce(s);
    IndexFinds(s.book.open, i);
  }

  lemma {:induction false} MarkAllTerms(p: PositionState, prices: seq<real>)
    ensures MarkAll(p, prices).terms == p.terms
  {
    if prices != [] {
      MarkAllTerms(p, prices[..|prices| - 1]);
    }
  }

  lemma SurvivesOneMore(q: PositionState, prices: seq<real>, price: real)
    requires Survives(q, prices) && ExitReason(Mark(MarkAll(q, prices), price), price) == None
    ensures Survives(q, prices + [price])
  {
    MarkAllOneMore(q, prices, price);
    assert (prices + [price])[..|prices|] == prices;
  }

  lemma CheckExplains(s: System, a: Action, k: nat)
    requires Inv(s) && Solvent(s.book.open) && a.Check? && k < |Survivors(s.book.open, a.prices)|
    ensures Explained(Apply(s, a), Survivors(s.book.open, a.prices)[k])
  {
    var j := SurvivorOrigin(s.book.open, a.prices, k);
    var p := s.book.open[j];
    assert Explained(s, p);
    OpenOnce(s, j);
    CheckedExplained(s, Apply(s, a), a.prices, p);
  }

  /** The step for one surviving position, given what the check did to its history. */
  lemma CheckedExplained(s: System, s': System, prices: Prices, p: PositionState)
    requires Explained(s, p) && s'.orders == s.orders && Checked(p, prices).Some?
    requires p.terms.id in s'.history
    requires s'.history[p.terms.id] == s.history[p.terms.id]
      + if p.terms.symbol in prices then [prices[p.terms.symbol]] else []
    ensures Explained(s', Checked(p, prices).value)
  {
    var id := p.terms.id;
    var q := NewPosition(s.orders[id], id);
    if p.terms.symbol in prices {
      var price := prices[p.terms.symbol];
      MarkAllOneMore(q, s.history[id], price);
      SurvivesOneMore(q, s.history[id], price);
    } else {
      assert s.history[id] + [] == s.history[id];
    }
  }

  lemma CheckBalanced(ever: seq<PositionState>, b: Book, prices: Prices)
    requires Balanced(ever, b) && Solvent(b.open)
    ensures Balanced(ever, CheckedBook(b, prices))
  {
    CheckConserves(b.open, prices);
    ConcatClosed(b.closed, Exits(b.open, prices));
    AddToEither(OpenIds(Survivors(b.open, prices)), ClosedIds(b.closed), ClosedIds(Exits(b.open, prices)));
  }

  lemma CheckConservesAll(s: System, a: Action)
    requires Conserved(s) && Solvent(s.book.open) && a.Check?
    ensures Conserved(Apply(s, a))
  {
    CheckBalanced(s.everOpened, s.book, a.prices);
    assert Apply(s, a).history.Keys == s.history.Keys;
  }

  lemma CheckNoTwins(open: seq<PositionState>, prices: Prices)
    requires NoTwins(open) && forall id :: OpenIds(Survivors(open, prices))[id] <= 1
    ensures NoTwins(Survivors(open, prices))
  {
    var after := Survivors(open, prices);
    forall i, j | 0 <= i < j < |after|
      ensures !(after[i].terms.symbol == after[j].terms.symbol && after[i].terms.strategyId == after[j].terms.strategyId)
    {
      DistinctIds(after, i, j);
      var i' := SurvivorOrigin(open, prices, i);
      var j' := SurvivorOrigin(open, prices, j);
      CheckedTerms(open[i'], prices);
      CheckedTerms(open[j'], prices);
    }
  }

  lemma CheckKeepsInv(s: System, a: Action)
    requires Inv(s) && Solvent(s.book.open) && a.Check?
    ensures Inv(Apply(s, a))
  {
    var s' := Apply(s, a);
    CheckConservesAll(s, a);
    OpenAtMostOnce(s');
    CheckNoTwins(s.book.open, a.prices);
    forall k | 0 <= k < |s'.book.open| ensures Explained(s', s'.book.open[k]) {
      CheckExplains(s, a, k);
    }
  }

  ghost predicate RunFrom(actions: seq<Action>, states: seq<System>) {
    && |states| == |actions| + 1 && states[0] == START
    && forall i :: 0 <= i < |actions| ==> Solvent(states[i].book.open) && states[i + 1] == Apply(states[i], actions[i])
  }

  lemma {:induction false} EveryRun(actions: seq<Action>, states: seq<System>, i: nat)
    requires RunFrom(actions, states) && i < |states|
    ensures Inv(states[i])
  {
    if i > 0 {
      EveryRun(actions, states, i - 1);
      var a := actions[i - 1];
      if a.Open? {
        OpenKeepsInv(states[i - 1], a);
      } else if a.Close? {
        CloseKeepsInv(states[i - 1], a);
      } else {
        CheckKeepsInv(states[i - 1], a);
      }
    }
  }

  /** A run never gets stuck: whatever is open has a nonzero entry price. */
  lemma InvIsSolvent(s: System)
    requires Inv(s)
    ensures Solvent(s.book.open)
  {
    forall p | p in s.book.open ensures p.terms.entry != 0.0 {
      var i :| 0 <= i < |s.book.open| && s.book.open[i] == p;
      assert Explained(s, s.book.open[i]);
      MarkAllTerms(NewPosition(s.orders[p.terms.id], p.terms.id), s.history[p.terms.id]);
    }
  }

  /** In every run each position ever opened is in exactly one place -- open once and never closed, or
      closed once and not open -- nothing else is in either, and the sizes add up. */
  lemma PartitionAndConservation(actions: seq<Action>, states: seq<System>, i: nat, id: string)
    requires RunFrom(actions, states) && i < |states|
    ensures var s := states[i];
      && (id in s.history ==> OpenIds(s.book.open)[id] + ClosedIds(s.book.closed)[id] == 1)
      && (id !in s.history ==> OpenIds(s.book.open)[id] == ClosedIds(s.book.closed)[id] == 0)
      && NoTwins(s.book.open)
      && Heat(s.everOpened) == Heat(s.book.open) + ClosedSize(s.book.closed)
  {
    EveryRun(actions, states, i);
  }

  /** In every run an open position is the one that its order opens, marked with its prices ps: it has the extremes of
      ps and the stop that the order's percentages and the extreme dictate, is strictly inside its limits at the last
      price, and has been checked fewer than maxHold times. */
  lemma OpenPositionsAreCurrent(actions: seq<Action>, states: seq<System>, i: nat, k: nat) returns (q: PositionState)
    requires RunFrom(actions, states) && i < |states| && k < |states[i].book.open|
    ensures var s := states[i];
      var p := s.book.open[k];
      var id := p.terms.id;
      && id in s.history && id in s.orders
      && var ps, o := s.history[id], s.orders[id];
      && Opens(o, id, q) && p.terms == q.terms
      && p.held == |ps| && p.high == Highest(o.entry, ps) && p.low == Lowest(o.entry, ps)
      && (o.trail <= 0.0 || ps == [] ==> p.stop == q.stop)
      && (o.trail > 0.0 && ps != [] && TrailsExtreme(q) ==>
            && (p.terms.side == Long ==> p.stop == MaxReal(q.stop, Times(Highest(o.entry, ps), 1.0 - o.trail)))
            && (p.terms.side == Short ==> p.stop == MinReal(q.stop, Times(Lowest(o.entry, ps), 1.0 + o.trail))))
      && (ps != [] ==>
            && |ps| <= o.maxHold - 1
            && (if p.terms.side == Long then p.stop < ps[|ps| - 1] < p.terms.target
                else p.terms.target < ps[|ps| - 1] < p.stop))
  {
    EveryRun(actions, states, i);
    var s := states[i];
    var p := s.book.open[k];
    assert Explained(s, p);
    var ps := s.history[p.terms.id];
    q := NewPosition(s.orders[p.terms.id], p.terms.id);
    NewPositionOpens(s.orders[p.terms.id], p.terms.id);
    CurrentPosition(q, p, ps);
  }

  lemma CurrentPosition(q: PositionState, p: PositionState, ps: seq<real>)
    requires Newly(q) && p == MarkAll(q, ps) && Survives(q, ps)
    ensures p.terms == q.terms
    ensures p.held == |ps| && p.high == Highest(q.terms.entry, ps) && p.low == Lowest(q.terms.entry, ps)
    ensures q.terms.trail <= 0.0 || ps == [] ==> p.stop == q.stop
    ensures q.terms.trail > 0.0 && ps != [] && TrailsExtreme(q) ==> p.stop == TrailingValue(q, ps)
    ensures ps != [] ==>
      && |ps| <= q.terms.maxHold - 1
      && (if q.terms.side == Long then p.stop < ps[|ps| - 1] < q.terms.target
          else q.terms.target < ps[|ps| - 1] < p.stop)
  {
    MarkAllBasics(q, ps);
    if ps != [] {
      SurvivesExactlyWhen(p, ps[|ps| - 1]);
      if q.terms.trail > 0.0 && TrailsExtreme(q) {
        RealPathFollows(q, ps);
      }
    }
  }

  // ---------------------------------------------------------------- the classes

  class Position {
    const terms: Terms
    var stop: real
    var held: int
    var high: real
    var low: real

    constructor (p: PositionState)
      ensures View() == p
    {
      terms := p.terms;
      stop, held, high, low := p.stop, p.held, p.high, p.low;
    }

    function View(): PositionState
      reads this
    {
      PositionState(terms, stop, held, high, low)
    }

    /** The in-place updates that `check_exits` makes before it decides. */
    method Touch(price: real)
      modifies this
      ensures View() == Mark(old(View()), price)
    {
      high := MaxReal(high, price);
      low := MinReal(low, price);
      held := held + 1;
      if terms.trail > 0.0 {
        if terms.side == Long {
          var newStop := Times(high, 1.0 - terms.trail);
          if newStop > stop {
            stop := newStop;
          }
        } else {
          var newStop := Times(low, 1.0 + terms.trail);
          if newStop < stop {
            stop := newStop;
          }
        }
      }
    }
  }

  function Views(ps: seq<Position>): seq<PositionState>
    reads ps
  {
    seq(|ps|, i requires 0 <= i < |ps| reads ps => ps[i].View())
  }

  predicate DistinctPositions(ps: seq<Position>) {
    forall i, j :: 0 <= i < j < |ps| ==> ps[i] != ps[j] && ps[i].terms.id != ps[j].terms.id
  }

  lemma RemovedDistinct(ps: seq<Position>, i: nat)
    requires DistinctPositions(ps) && i < |ps|
    ensures DistinctPositions(ps[..i] + ps[i + 1..])
    ensures forall p :: p in ps[..i] + ps[i + 1..] ==> p in ps
  {
    var rest := ps[..i] + ps[i + 1..];
    assert forall j :: 0 <= j < |rest| ==> rest[j] == ps[if j < i then j else j + 1];
  }

  lemma ViewsWithout(ps: seq<Position>, i: nat)
    requires i < |ps|
    ensures Views(ps[..i] + ps[i + 1..]) == Without(Views(ps), i)
  {
  }

  lemma IndexIs(ps: seq<Position>, i: nat)
    requires DistinctPositions(ps) && i < |ps|
    ensures Index(Views(ps), ps[i].terms.id) == i
  {
    FirstIndex(Views(ps), ps[i].terms.id, i) by {
      assert forall j :: 0 <= j < i ==> Views(ps)[j].terms.id == ps[j].terms.id;
    }
  }

  lemma FirstClash(open: seq<PositionState>, symbol: string, strategyId: string, i: nat)
    requires i <= |open|
    requires forall j :: 0 <= j < i ==> !(open[j].terms.symbol == symbol && open[j].terms.strategyId == strategyId)
    requires i < |open| ==> open[i].terms.symbol == symbol && open[i].terms.strategyId == strategyId
    ensures Clash(open, symbol, strategyId) == i
  {
  }

  lemma FirstIndex(open: seq<PositionState>, id: string, i: nat)
    requires i <= |open| && forall j :: 0 <= j < i ==> open[j].terms.id != id
    requires i < |open| ==> open[i].terms.id == id
    ensures Index(open, id) == i
  {
  }

  lemma ClosedFound(b: Book, id: string, i: nat, price: real, slippageBps: real, reason: Reason)
    requires Solvent(b.open) && i < |b.open| && Index(b.open, id) == i
    ensures b.open[i].terms.entry != 0.0
    ensures Closed(b, id, price, slippageBps, reason)
      == Book(Without(b.open, i), b.closed + [Closing(b.open[i].terms, price, slippageBps, reason)])
  {
  }

  lemma ViewsSolvent(ps: seq<Position>)
    requires forall p :: p in ps ==> p.terms.entry != 0.0
    ensures Solvent(Views(ps))
  {
    forall v | v in Views(ps) ensures v.terms.entry != 0.0 {
      var i :| 0 <= i < |ps| && Views(ps)[i] == v;
      assert ps[i] in ps;
    }
  }

  lemma SolventPrefix(open: seq<PositionState>, i: nat)
    requires Solvent(open) && i <= |open|
    ensures Solvent(open[..i])
  {
  }

  /** What a call to `open_position` gives: an exception for a zero entry price, else a position. */
  datatype OpenResult = DivisionByZero | Existing(position: Position) | Fresh(position: Position)

  class PositionManager {
    /** The dict of open positions, in insertion order; the key of an entry is its id. */
    var openPositions: seq<Position>
    var closedTrades: seq<Trade>

    constructor ()
      ensures Valid() && openPositions == [] && closedTrades == []
    {
      openPositions, closedTrades := [], [];
    }

    ghost predicate Valid()
      reads this
    {
      DistinctPositions(openPositions) && forall p :: p in openPositions ==> p.terms.entry != 0.0
    }

    ghost function View(): Book
      reads this, openPositions
    {
      Book(Views(openPositions), closedTrades)
    }

    /** `id` is the uuid the call draws. */
    method OpenPosition(o: Order, id: string) returns (r: OpenResult)
      requires Valid() && forall p :: p in openPositions ==> p.terms.id != id
      modifies this
      ensures Valid() && View() == Opened(old(View()), o, id)
      ensures var i := Clash(old(View()).open, o.symbol, o.strategyId);
        if i < |old(openPositions)| then r == Existing(old(openPositions)[i]) && openPositions == old(openPositions)
        else if o.entry == 0.0 then r == DivisionByZero && openPositions == old(openPositions)
        else r.Fresh? && fresh(r.position) && openPositions == old(openPositions) + [r.position]
      ensures r.Fresh? ==> Opens(o, id, r.position.View())
      ensures r.Existing? <==>
        exists p :: p in old(openPositions) && p.terms.symbol == o.symbol && p.terms.strategyId == o.strategyId
      ensures r.Existing? ==>
        && r.position in old(openPositions)
        && r.position.terms.symbol == o.symbol && r.position.terms.strategyId == o.strategyId
    {
      var i := 0;
      while i < |openPositions| && !(openPositions[i].terms.symbol == o.symbol
                                     && openPositions[i].terms.strategyId == o.strategyId)
        invariant 0 <= i <= |openPositions|
        invariant forall j :: 0 <= j < i ==>
          !(openPositions[j].terms.symbol == o.symbol && openPositions[j].terms.strategyId == o.strategyId)
      {
        i := i + 1;
      }
      FirstClash(Views(openPositions), o.symbol, o.strategyId, i);
      if i < |openPositions| {
        return Existing(openPositions[i]);
      }
      if o.entry == 0.0 {
        return DivisionByZero;
      }
      NewPositionOpens(o, id);
      var p := new Position(NewPosition(o, id));
      openPositions := openPositions + [p];
      assert Views(openPositions) == old(Views(openPositions)) + [NewPosition(o, id)];
      r := Fresh(p);
    }

    /** Removes the position and records the trade; None when the id is not open. */
    method ClosePosition(id: string, price: real, reason: Reason, slippageBps: Option<real>) returns (r: Option<Trade>)
      requires Valid()
      modifies this
      ensures Valid()
      ensures var i := Index(old(View()).open, id);
        && (r.Some? <==> i < |old(openPositions)|)
        && (r.None? ==> openPositions == old(openPositions) && closedTrades == old(closedTrades))
        && (r.Some? ==>
              && openPositions == old(openPositions)[..i] + old(openPositions)[i + 1..]
              && old(openPositions)[i].terms.id == id && old(openPositions)[i].terms.entry != 0.0
              && r.value == Closing(old(openPositions)[i].terms, price,
                                    if slippageBps.Some? then slippageBps.value else SLIPPAGE_BPS, reason)
              && Closes(old(openPositions)[i].terms, price,
                        if slippageBps.Some? then slippageBps.value else 5.0, reason, r.value)
              && closedTrades == old(closedTrades) + [r.value])
      ensures r.None? ==> forall p :: p in old(openPositions) ==> p.terms.id != id
      ensures Solvent(old(View()).open)
      ensures View() == Closed(old(View()), id, price, if slippageBps.Some? then slippageBps.value else SLIPPAGE_BPS, reason)
    {
      ViewsSolvent(openPositions);
      var i := 0;
      while i < |openPositions| && openPositions[i].terms.id != id
        invariant 0 <= i <= |openPositions|
        invariant forall j :: 0 <= j < i ==> openPositions[j].terms.id != id
      {
        i := i + 1;
      }
      FirstIndex(Views(openPositions), id, i);
      if i == |openPositions| {
        return None;
      }
      var p := openPositions[i];
      assert p in openPositions;
      var slippage := if slippageBps.Some? then slippageBps.value else SLIPPAGE_BPS;
      var trade := Closing(p.terms, price, slippage, reason);
      ClosingCloses(p.terms, price, slippage, reason);
      RemovedDistinct(openPositions, i);
      ViewsWithout(openPositions, i);
      ClosedFound(View(), id, i, price, if slippageBps.Some? then slippageBps.value else SLIPPAGE_BPS, reason);
      openPositions := openPositions[..i] + openPositions[i + 1..];
      closedTrades := closedTrades + [trade];
      r := Some(trade);
    }

    method TouchAt(p: Position, ghost i: nat, price: real)
      requires Valid() && i < |openPositions| && openPositions[i] == p
      modifies p
      ensures Valid() && Views(openPositions) == old(Views(openPositions))[i := Mark(old(p.View()), price)]
      ensures p.View() == Mark(old(p.View()), price) && old(View()).open[i] == old(p.View())
      ensures Index(Views(openPositions), p.terms.id) == i && p.terms.entry != 0.0
    {
      ghost var views := Views(openPositions);
      assert p in openPositions && forall k :: 0 <= k < |openPositions| && k != i ==> openPositions[k] != p;
      p.Touch(price);
      assert forall k :: 0 <= k < |views| && k != i ==> openPositions[k].View() == views[k];
      IndexIs(openPositions, i);
    }

    /** One position of `check_exits`: if it is priced, touch it, and close it if it hits a limit. */
    method CheckOne(p: Position, ghost i: nat, prices: Prices) returns (closed: seq<Trade>)
      requires Valid() && i < |openPositions| && openPositions[i] == p
      modifies this, p
      ensures Valid() && p.terms.entry != 0.0
      ensures old(View()).open[i] == old(p.View()) && View() == CheckedAt(old(View()), i, prices)
      ensures openPositions == if Checked(old(p.View()), prices).Some? then old(openPositions) else Without(old(openPositions), i)
      ensures closedTrades == old(closedTrades) + closed
    {
      closed := [];
      assert p in openPositions;
      ghost var b := View();
      ViewsSolvent(openPositions);
      if p.terms.symbol in prices {
        var price := prices[p.terms.symbol];
        CheckedInSteps(b, i, prices);
        TouchAt(p, i, price);
        assert View() == Book(b.open[i := Mark(b.open[i], price)], b.closed);
        closed := CloseIfDue(p, i, price);
      }
    }

    /** The decision of `check_exits` on a position that has just been touched. */
    method CloseIfDue(p: Position, ghost i: nat, price: real) returns (closed: seq<Trade>)
      requires Valid() && i < |openPositions| && openPositions[i] == p
      requires Index(Views(openPositions), p.terms.id) == i && Solvent(View().open)
      modifies this
      ensures Valid() && closedTrades == old(closedTrades) + closed
      ensures var reason := ExitReason(old(p.View()), price);
        if reason.None? then openPositions == old(openPositions) && closed == []
        else
          && openPositions == Without(old(openPositions), i)
          && View() == Closed(old(View()), p.terms.id, price, SLIPPAGE_BPS, reason.value)
    {
      closed := [];
      var reason := ExitReason(p.View(), price);
      if reason.Some? {
        var trade := ClosePosition(p.terms.id, price, reason.value, None);
        if trade.Some? {
          closed := [trade.value];
        }
      }
    }

    /** Every priced position is touched and, if it hits a limit, closed; the survivors keep their order. */
    method CheckExits(prices: Prices) returns (closed: seq<Trade>, ghost kept: seq<nat>, ghost gone: seq<nat>)
      requires Valid()
      modifies this, openPositions
      ensures Valid() && Solvent(old(View()).open) && View() == CheckedBook(old(View()), prices)
      ensures closedTrades == old(closedTrades) + closed
      ensures KeptFrom(old(View()).open, prices, kept, View().open)
      ensures GoneFrom(old(View()).open, prices, gone, closed)
    {
      closed := [];
      var toCheck := openPositions;
      ghost var b := View();
      ViewsSolvent(openPositions);
      ProgressEnds(b, prices);
      for i := 0 to |toCheck|
        invariant Valid() && Tail(openPositions, toCheck, Kept(b, i, prices), i)
        invariant forall p :: p in openPositions ==> p in toCheck
        invariant View() == Progress(b, i, prices)
        invariant closedTrades == b.closed + closed
      {
        var trades := CheckNext(b, toCheck, i, prices);
        Regroup(b.closed, closed, trades);
        closed := closed + trades;
      }
      kept, gone := CheckSplits(b, prices, View(), closed);
    }

    /** The body of that loop: the first i positions have been checked, and now the next one is. */
    method CheckNext(ghost b: Book, toCheck: seq<Position>, i: nat, prices: Prices) returns (trades: seq<Trade>)
      requires Valid() && Solvent(b.open) && i < |toCheck| == |b.open|
      requires Tail(openPositions, toCheck, Kept(b, i, prices), i) && View() == Progress(b, i, prices)
      modifies this, toCheck[i]
      ensures Valid() && Tail(openPositions, toCheck, Kept(b, i + 1, prices), i + 1)
      ensures forall p :: p in openPositions ==> p in old(openPositions)
      ensures View() == Progress(b, i + 1, prices) && closedTrades == old(closedTrades) + trades
    {
      ghost var n := Kept(b, i, prices);
      ProgressStep(b, i, prices);
      TailStep(openPositions, toCheck, n, i);
      trades := CheckOne(toCheck[i], n, prices);
    }
  }

  function CheckedAt(b: Book, n: nat, prices: Prices): Book
    requires n < |b.open| && b.open[n].terms.entry != 0.0
  {
    var q := Checked(b.open[n], prices);
    Book(if q.Some? then b.open[n := q.value] else Without(b.open, n), b.closed + ExitOf(b.open[n], prices))
  }

  /** Checking a priced position is marking it and, if that gives a reason to exit, closing it. */
  lemma CheckedInSteps(b: Book, n: nat, prices: Prices)
    requires n < |b.open| && b.open[n].terms.entry != 0.0 && b.open[n].terms.symbol in prices
    requires Solvent(b.open)
    ensures var p := b.open[n];
      var price := prices[p.terms.symbol];
      var marked := Book(b.open[n := Mark(p, price)], b.closed);
      var reason := ExitReason(Mark(p, price), price);
      && Solvent(marked.open)
      && (reason.None? ==> CheckedAt(b, n, prices) == marked)
      && (reason.Some? && Index(marked.open, p.terms.id) == n ==>
            CheckedAt(b, n, prices) == Closed(marked, p.terms.id, price, SLIPPAGE_BPS, reason.value))
  {
    var price := prices[b.open[n].terms.symbol];
    var marked := b.open[n := Mark(b.open[n], price)];
    forall q | q in marked ensures q.terms.entry != 0.0 {
      assert q in b.open || q == Mark(b.open[n], price);
    }
    assert marked[..n] == b.open[..n] && marked[n + 1..] == b.open[n + 1..];
  }

  /** The book after the first i positions have been checked, and how many of them are still open. */
  function Progress(b: Book, i: nat, prices: Prices): Book
    requires Solvent(b.open) && i <= |b.open|
  {
    SolventPrefix(b.open, i);
    Book(Survivors(b.open[..i], prices) + b.open[i..], b.closed + Exits(b.open[..i], prices))
  }

  function Kept(b: Book, i: nat, prices: Prices): nat
    requires i <= |b.open|
  {
    |Survivors(b.open[..i], prices)|
  }

  lemma ProgressEnds(b: Book, prices: Prices)
    requires Solvent(b.open)
    ensures Progress(b, 0, prices) == b && Kept(b, 0, prices) == 0
    ensures Progress(b, |b.open|, prices) == CheckedBook(b, prices)
  {
    assert b.open[..0] == [] && b.open[..|b.open|] == b.open && b.open[|b.open|..] == [];
  }

  lemma ProgressStep(b: Book, i: nat, prices: Prices)
    requires Solvent(b.open) && i < |b.open|
    ensures var n := Kept(b, i, prices);
      && n < |Progress(b, i, prices).open| && Progress(b, i, prices).open[n] == b.open[i]
      && b.open[i].terms.entry != 0.0
      && CheckedAt(Progress(b, i, prices), n, prices) == Progress(b, i + 1, prices)
      && Kept(b, i + 1, prices) == n + if Checked(b.open[i], prices).Some? then 1 else 0
  {
    PrefixStep(b.open, i, prices);
    CheckStepShows(Survivors(b.open[..i], prices), b.open[i..], Checked(b.open[i], prices));
    Regroup(b.closed, Exits(b.open[..i], prices), ExitOf(b.open[i], prices));
  }

  function Without<T>(s: seq<T>, i: nat): seq<T>
    requires i < |s|
  {
    s[..i] + s[i + 1..]
  }

  /** From n on, s is what `all` has from i on. */
  predicate Tail(s: seq<Position>, all: seq<Position>, n: nat, i: nat) {
    i <= |all| && n <= |s| && s[n..] == all[i..]
  }

  lemma TailStep(s: seq<Position>, all: seq<Position>, n: nat, i: nat)
    requires Tail(s, all, n, i) && i < |all|
    ensures n < |s| && s[n] == all[i]
    ensures Tail(s, all, n + 1, i + 1) && Tail(Without(s, n), all, n, i + 1)
    ensures forall p :: p in Without(s, n) ==> p in s
  {
    assert s[n + 1..] == s[n..][1..] == all[i..][1..] == all[i + 1..];
    assert Without(s, n)[n..] == s[n + 1..];
    assert s[n] == s[n..][0] == all[i..][0];
  }

  lemma CheckStepShows(done: seq<PositionState>, rest: seq<PositionState>, q: Option<PositionState>)
    requires rest != []
    ensures (done + rest)[|done|] == rest[0]
    ensures q.None? ==> done + rest[1..] == Without(done + rest, |done|)
    ensures q.Some? ==> (done + [q.value]) + rest[1..] == (done + rest)[|done| := q.value]
  {
  }

  lemma PrefixStep(open: seq<PositionState>, i: nat, prices: Prices)
    requires Solvent(open) && i < |open|
    ensures Solvent(open[..i]) && Solvent(open[..i + 1]) && open[i].terms.entry != 0.0
    ensures var q := Checked(open[i], prices);
      Survivors(open[..i + 1], prices) == Survivors(open[..i], prices) + if q.Some? then [q.value] else []
    ensures Exits(open[..i + 1], prices) == Exits(open[..i], prices) + ExitOf(open[i], prices)
  {
    SolventPrefix(open, i);
    SolventPrefix(open, i + 1);
    assert open[..i + 1][..i] == open[..i];
  }
}
