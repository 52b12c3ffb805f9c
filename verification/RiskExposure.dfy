/** What an order that passed the risk checks can do to the exposure once it is filled. */
module RiskExposure {
  import opened Arithmetic
  import opened Decimal
  import opened Options
  import opened Positions
  import opened PositionManager
  import opened RiskEngine

  function FillOf(o: Order, time: nat): Fill { Fill(o.symbol, o.side, o.quantity, o.price, time) }

  /** What a fill adds to a position's value beyond its own value, at double scale. */
  ghost function Excess(a: Arith, prior: Option<Position>, f: Fill): int {
    var before := if prior.Some? then Value(a, prior.value) else 0;
    (Value(a, ApplyFill(a, prior, f)) - before - Mul(a, f.quantity, f.price)) * SCALE
  }

  lemma AveragingExcess(a: Arith, p: Position, f: Fill)
    requires Rounds(a) && f.quantity > 0 && p.quantity != 0 && SignOf(p.quantity) == SignOf(Signed(f))
    ensures Excess(a, Some(p), f) <= Abs(p.quantity + Signed(f)) + SCALE
  {
    var q: int := Abs(p.quantity);
    var w := WeightedAverage(a, p.quantity, p.average, f.quantity, f.price);
    QuotBound(a, (Mul(a, q, p.average) + Mul(a, f.quantity, f.price)) * SCALE, q + f.quantity);
    RoundBound(a, (q + f.quantity) * w);
  }

  lemma ReducingExcess(a: Arith, p: Position, f: Fill)
    requires Rounds(a) && f.quantity > 0 && f.price >= 0 && p.average >= 0
    requires p.quantity != 0 && SignOf(p.quantity) != SignOf(Signed(f))
    ensures Excess(a, Some(p), f) <= 0
  {
    var q: int := Abs(p.quantity);
    ValueNonNegative(a, p);
    MulMonotone(0, f.quantity, f.price);
    RoundSign(a, f.quantity * f.price);
    if f.quantity <= q {
      MulMonotone(q - f.quantity, q, p.average);
      assert a.round((q - f.quantity) * p.average) <= a.round(q * p.average);
    } else {
      MulMonotone(f.quantity - q, f.quantity, f.price);
      assert a.round((f.quantity - q) * f.price) <= a.round(f.quantity * f.price);
    }
  }

  /** A fill adds at most its own value to a position's value, up to rounding that only
      averaging in can cause. */
  lemma ValueGrowth(a: Arith, prior: Option<Position>, f: Fill)
    requires Rounds(a) && f.quantity > 0 && f.price >= 0 && (prior.Some? ==> prior.value.average >= 0)
    ensures Excess(a, prior, f) <= Abs(ApplyFill(a, prior, f).quantity) + SCALE
  {
    if prior.Some? && prior.value.quantity != 0 {
      if SignOf(prior.value.quantity) == SignOf(Signed(f)) {
        AveragingExcess(a, prior.value, f);
      } else {
        ReducingExcess(a, prior.value, f);
      }
    }
  }

  // ----- one order -----

  /** What one more fill adds to the total. */
  lemma {:induction false} FillGrowth(a: Arith, t: Table, o: Order, time: nat, maxOrder: int)
    requires Rounds(a) && NonNegative(t) && o.quantity > 0 && o.price >= 0 && OrderValue(a, o) <= maxOrder
    ensures var f := FillOf(o, time);
      (Total(a, StepTable(a, t, f)) - Total(a, t) - maxOrder) * SCALE
      <= Abs(ApplyFill(a, Lookup(t, o.symbol), f).quantity) + SCALE
  {
    assert o.price * o.quantity == o.quantity * o.price;
    ValueGrowth(a, Lookup(t, o.symbol), FillOf(o, time));
    TotalGrowth(a, t, FillOf(o, time));
  }

  /** If an order of positive quantity and non-negative price passes the checks and the next fill
      is that order at its limit price, the symbol's new position at that price is within the
      configured position limit, and the new cached total exceeds the configured total limit by at
      most one configured order limit plus one unit and the new quantity's worth of rounding. */
  lemma {:induction false} AcceptedExposure(
    conv: real -> int, p: Parameters, a: Arith, t: Table, o: Order, capital: int, seen: nat, time: nat)
    requires Rounds(a) && NonNegative(t) && o.quantity > 0 && o.price >= 0
    requires Passes(conv, p, a, o, Quantity(Lookup(t, o.symbol)), Saturate(Total(a, t)), capital, seen)
    ensures var t' := StepTable(a, t, FillOf(o, time));
      && o.symbol in t' && NonNegative(t')
      && Mul(a, Abs(t'[o.symbol].quantity), o.price) <= conv(p.maxPositionValue)
      && (Saturate(Total(a, t')) - conv(p.maxTotalPositionValue) - conv(p.maxOrderValue)) * SCALE
         <= Abs(t'[o.symbol].quantity) + SCALE
  {
    var prior := Lookup(t, o.symbol);
    NoneBroken(conv, p, a, o, Quantity(prior), Saturate(Total(a, t)), capital, seen);
    FillQuantity(a, prior, FillOf(o, time));
    FillKeepsNonNegative(a, t, FillOf(o, time));
    TotalWithin(a, t, conv(p.maxTotalPositionValue), conv(p.maxOrderValue), o, time);
  }

  lemma {:induction false} TotalWithin(a: Arith, t: Table, maxTotal: int, maxOrder: int, o: Order, time: nat)
    requires Rounds(a) && NonNegative(t) && o.quantity > 0 && o.price >= 0
    requires OrderValue(a, o) <= maxOrder && Saturate(Total(a, t)) <= maxTotal
    ensures var f := FillOf(o, time); var q := Abs(ApplyFill(a, Lookup(t, o.symbol), f).quantity);
      (Saturate(Total(a, StepTable(a, t, f))) - maxTotal - maxOrder) * SCALE <= q + SCALE
  {
    FillGrowth(a, t, o, time, maxOrder);
  }

  lemma {:induction false} TotalGrowth(a: Arith, t: Table, f: Fill)
    requires f.quantity > 0
    ensures var prior := Lookup(t, f.symbol);
      Total(a, StepTable(a, t, f)) - Total(a, t)
      == Value(a, ApplyFill(a, prior, f)) - if prior.Some? then Value(a, prior.value) else 0
  {
    TotalWith(a, t, f.symbol, ApplyFill(a, Lookup(t, f.symbol), f));
    if f.symbol in t {
      TotalWithout(a, t, f.symbol);
    } else {
      assert t - {f.symbol} == t;
    }
  }

  lemma FillQuantity(a: Arith, prior: Option<Position>, f: Fill)
    requires f.quantity > 0
    ensures ApplyFill(a, prior, f).quantity == Quantity(prior) + Signed(f)
  {
  }

  lemma NoneBroken(
    conv: real -> int, p: Parameters, a: Arith, o: Order, existing: int, total: int, capital: int, seen: nat)
    requires Passes(conv, p, a, o, existing, total, capital, seen)
    ensures OrderValue(a, o) <= conv(p.maxOrderValue) && total <= conv(p.maxTotalPositionValue)
    ensures Projected(a, o, existing) <= conv(p.maxPositionValue)
  {
    assert !Breaks(OrderValueExceeded, conv, p, a, o, existing, total, capital, seen);
    assert !Breaks(PositionExceeded, conv, p, a, o, existing, total, capital, seen);
    assert !Breaks(TotalExceeded, conv, p, a, o, existing, total, capital, seen);
  }

  /** The two objects together: check an order and, if it passes, apply its fill. */
  method CheckThenFill(e: RiskEngine, o: Order, nowSec: nat, time: nat) returns (v: Verdict)
    requires e.Valid() && e.positions.Valid() && NonNegative(e.positions.positions)
    requires o.quantity > 0 && o.price >= 0
    modifies e`currentSecond, e`ordersThisSecond, e`stats, e.positions`positions, e.positions`total
    ensures e.Valid() && e.positions.Valid() && NonNegative(e.positions.positions)
    ensures !v.Accepted? ==> e.positions.positions == old(e.positions.positions)
    ensures v.Accepted? ==>
      && o.symbol in e.positions.positions
      && var p := e.cold[e.active].params;
         && Mul(e.positions.arith, Abs(e.positions.positions[o.symbol].quantity), o.price) <= e.conv(p.maxPositionValue)
         && (e.positions.total - e.conv(p.maxTotalPositionValue) - e.conv(p.maxOrderValue)) * SCALE
            <= Abs(e.positions.positions[o.symbol].quantity) + SCALE
  {
    ghost var seen := if e.currentSecond == nowSec then e.ordersThisSecond else 0;
    v := e.CheckOrder(o, nowSec);
    if v.Accepted? {
      AcceptedExposure(e.conv, e.cold[e.active].params, e.positions.arith, e.positions.positions, o, e.capital,
                       seen, time);
      var p := e.positions.UpdatePosition(FillOf(o, time));
    }
  }

  // ----- several orders accepted before any of them is filled -----

  ghost function FillAll(a: Arith, t: Table, os: seq<Order>, time: nat): Table {
    if os == [] then t else StepTable(a, FillAll(a, t, os[..|os| - 1], time), FillOf(os[|os| - 1], time))
  }

  /** The quantity that the last fill leaves in its symbol. */
  ghost function LastQuantity(a: Arith, t: Table, os: seq<Order>, time: nat): int
    requires os != []
  {
    var o := os[|os| - 1];
    ApplyFill(a, Lookup(FillAll(a, t, os[..|os| - 1], time), o.symbol), FillOf(o, time)).quantity
  }

  /** One unit and the new quantity's worth of rounding for every fill. */
  ghost function Rounding(a: Arith, t: Table, os: seq<Order>, time: nat): nat {
    if os == [] then 0
    else Rounding(a, t, os[..|os| - 1], time) + Abs(LastQuantity(a, t, os, time)) + SCALE
  }

  lemma {:induction false} RoundingIsLinear(a: Arith, t: Table, os: seq<Order>, time: nat, most: nat)
    requires forall k {:trigger os[..k]} :: 0 < k <= |os| ==> Abs(LastQuantity(a, t, os[..k], time)) <= most
    ensures Rounding(a, t, os, time) <= |os| * (most + SCALE)
  {
    if os != [] {
      var n := |os| - 1;
      assert os[..n + 1] == os;
      forall k {:trigger os[..n][..k]} | 0 < k <= n
        ensures Abs(LastQuantity(a, t, os[..n][..k], time)) <= most
      {
        assert os[..n][..k] == os[..k];
      }
      RoundingIsLinear(a, t, os[..n], time, most);
      OneMore(n, most + SCALE);
    }
  }

  ghost predicate Plain(os: seq<Order>) {
    forall i :: 0 <= i < |os| ==> os[i].quantity > 0 && os[i].price >= 0
  }

  /** Every order passes the checks against the same table: no fill comes between. */
  ghost predicate AllAccepted(
    conv: real -> int, p: Parameters, a: Arith, t: Table, os: seq<Order>, capital: int, seen: seq<nat>)
  {
    |seen| == |os| && forall i :: 0 <= i < |os| ==>
      Passes(conv, p, a, os[i], Quantity(Lookup(t, os[i].symbol)), Saturate(Total(a, t)), capital, seen[i])
  }

  lemma {:induction false} FillAllNonNegative(a: Arith, t: Table, os: seq<Order>, time: nat)
    requires Rounds(a) && NonNegative(t) && Plain(os)
    ensures NonNegative(FillAll(a, t, os, time))
  {
    if os != [] {
      var n := |os| - 1;
      FillAllNonNegative(a, t, os[..n], time);
      FillKeepsNonNegative(a, FillAll(a, t, os[..n], time), FillOf(os[n], time));
    }
  }

  lemma {:induction false} TotalGrowthAll(a: Arith, t: Table, os: seq<Order>, time: nat, maxOrder: int)
    requires Rounds(a) && NonNegative(t) && Plain(os) && forall i :: 0 <= i < |os| ==> OrderValue(a, os[i]) <= maxOrder
    ensures (Total(a, FillAll(a, t, os, time)) - Total(a, t) - |os| * maxOrder) * SCALE <= Rounding(a, t, os, time)
  {
    if os != [] {
      var n := |os| - 1;
      TotalGrowthAll(a, t, os[..n], time, maxOrder);
      FillAllNonNegative(a, t, os[..n], time);
      var before, after := FillAll(a, t, os[..n], time), FillAll(a, t, os, time);
      FillGrowth(a, before, os[n], time, maxOrder);
      OneMore(n, maxOrder);
      AddGrowth(Total(a, t), Total(a, before), Total(a, after), n * maxOrder, maxOrder,
                Rounding(a, t, os[..n], time), Abs(LastQuantity(a, t, os, time)) + SCALE);
    }
  }

  lemma AddGrowth(t0: int, t1: int, t2: int, allowed: int, more: int, r1: int, r2: int)
    requires (t1 - t0 - allowed) * SCALE <= r1 && (t2 - t1 - more) * SCALE <= r2
    ensures (t2 - t0 - (allowed + more)) * SCALE <= r1 + r2
  {
  }

  /** checkOrder does not count orders that are accepted and not yet filled. If k orders pass
      against the same positions and then all fill at their limits, the cached total exceeds
      the configured total limit by at most k configured order limits plus the summed rounding. */
  lemma {:induction false} AcceptedTogether(
    conv: real -> int, p: Parameters, a: Arith, t: Table, os: seq<Order>, capital: int, seen: seq<nat>, time: nat)
    requires Rounds(a) && NonNegative(t) && os != [] && Plain(os) && AllAccepted(conv, p, a, t, os, capital, seen)
    ensures (Saturate(Total(a, FillAll(a, t, os, time))) - conv(p.maxTotalPositionValue)
             - |os| * conv(p.maxOrderValue)) * SCALE <= Rounding(a, t, os, time)
  {
    var maxOrder, maxTotal := conv(p.maxOrderValue), conv(p.maxTotalPositionValue);
    forall i | 0 <= i < |os|
      ensures OrderValue(a, os[i]) <= maxOrder && Saturate(Total(a, t)) <= maxTotal
    {
      NoneBroken(conv, p, a, os[i], Quantity(Lookup(t, os[i].symbol)), Saturate(Total(a, t)), capital, seen[i]);
    }
    assert OrderValue(a, os[0]) <= maxOrder;
    TotalGrowthAll(a, t, os, time, maxOrder);
    MulMonotone(0, maxOrder, |os|);
    assert |os| * maxOrder == maxOrder * |os|;
  }

  /** The signed quantity that orders not yet filled will add to a symbol. */
  function Outstanding(os: seq<Order>, symbol: nat): int {
    if os == [] then 0
    else Outstanding(os[..|os| - 1], symbol)
         + if os[|os| - 1].symbol == symbol then OrderSigned(os[|os| - 1]) else 0
  }

  lemma {:induction false} FillAllQuantity(a: Arith, t: Table, os: seq<Order>, time: nat, symbol: nat)
    requires Plain(os)
    ensures Quantity(Lookup(FillAll(a, t, os, time), symbol)) == Quantity(Lookup(t, symbol)) + Outstanding(os, symbol)
  {
    if os != [] {
      var n := |os| - 1;
      FillAllQuantity(a, t, os[..n], time, symbol);
      FillQuantity(a, Lookup(FillAll(a, t, os[..n], time), os[n].symbol), FillOf(os[n], time));
    }
  }

  /** The position limit survives the fills of orders accepted together exactly when the last of
      them would also have passed with the outstanding ones counted as filled. */
  lemma {:induction false} PositionLimitSurvives(
    conv: real -> int, p: Parameters, a: Arith, t: Table, os: seq<Order>, o: Order, time: nat, total: int, capital: int)
    requires Plain(os + [o])
    ensures Mul(a, Abs(Quantity(Lookup(FillAll(a, t, os + [o], time), o.symbol))), o.price) <= conv(p.maxPositionValue)
      <==> !Breaks(PositionExceeded, conv, p, a, o, Quantity(Lookup(t, o.symbol)) + Outstanding(os, o.symbol),
                   total, capital, 0)
  {
    FillAllQuantity(a, t, os + [o], time, o.symbol);
    assert (os + [o])[..|os|] == os;
  }

  /** A conversion of whole numbers, limits of 100, and an order for 60. */
  function Whole(x: real): int { x.Floor * SCALE }

  const HUNDRED := Parameters(100.0, 100.0, 10, 100.0, 0.0, 20.0)
  const SIXTY := Order(7, Buy, 60 * SCALE, SCALE)

  lemma SixtyPasses(seen: nat)
    requires seen < 10
    ensures Passes(Whole, HUNDRED, Floor(), SIXTY, 0, 0, 100 * SCALE, seen)
  {
    assert Mul(Floor(), SCALE, 60 * SCALE) == 60 * SCALE && Mul(Floor(), 60 * SCALE, SCALE) == 60 * SCALE;
  }

  lemma BothPass()
    ensures AllAccepted(Whole, HUNDRED, Floor(), map[], [SIXTY, SIXTY], 100 * SCALE, [0, 1])
  {
    SixtyPasses(0);
    SixtyPasses(1);
    assert Total(Floor(), map[]) == 0 && Quantity(Lookup(map[], 7)) == 0;
  }

  lemma {:induction false} SecondBreaks()
    ensures Quantity(Lookup(map[], 7)) + Outstanding([SIXTY], 7) == 60 * SCALE
    ensures Breaks(PositionExceeded, Whole, HUNDRED, Floor(), SIXTY, 60 * SCALE, 0, 0, 0)
  {
    assert [SIXTY][..0] == [];
    assert Mul(Floor(), 120 * SCALE, SCALE) == 120 * SCALE;
  }

  /** And it need not survive: two orders that both pass under limits of 100, and a position of 120. */
  lemma {:induction false} LimitBroken(time: nat) returns (conv: real -> int, p: Parameters, a: Arith, o: Order)
    ensures conv == Whole && p == HUNDRED && o == SIXTY
    ensures Rounds(a) && Plain([o] + [o]) && AllAccepted(conv, p, a, map[], [o, o], 100 * SCALE, [0, 1])
    ensures Mul(a, Abs(Quantity(Lookup(FillAll(a, map[], [o] + [o], time), o.symbol))), o.price)
      > conv(p.maxPositionValue)
  {
    conv, p, a, o := Whole, HUNDRED, Floor(), SIXTY;
    FloorRounds();
    BothPass();
    SecondBreaks();
    PositionLimitSurvives(conv, p, a, map[], [o], o, time, 0, 0);
  }
}
