/** The pre-trade risk engine: publication of converted limits, the five checks of an order,
    and what an accepted order can do to the exposure once it is filled. */
module RiskEngine {
  import opened Decimal
  import opened Options
  import opened Positions
  import opened PositionManager

  datatype Parameters = Parameters(
    maxOrderValue: real, maxPositionValue: real, maxOrdersPerSecond: nat,
    maxTotalPositionValue: real, minAvailableCapital: real, maxDrawdownPercent: real)

  const DEFAULTS := Parameters(100000.0, 500000.0, 100, 1000000.0, 10000.0, 20.0)

  /** The converted form that the hot path reads. */
  datatype Limits = Limits(
    maxOrderValue: int, maxPositionValue: int, maxTotalPositionValue: int, minAvailableCapital: int,
    maxOrdersPerSecond: nat)

  /** buildHot; conv is the conversion from double. */
  function BuildHot(conv: real -> int, p: Parameters): Limits {
    Limits(conv(p.maxOrderValue), conv(p.maxPositionValue), conv(p.maxTotalPositionValue),
           conv(p.minAvailableCapital), p.maxOrdersPerSecond)
  }

  datatype Cold = Cold(params: Parameters, hot: Limits, updated: nat)

  datatype Order = Order(symbol: nat, side: OrderSide, quantity: int, price: int)

  datatype Verdict =
    | Accepted
    | OrderValueExceeded | RateExceeded | PositionExceeded | TotalExceeded | CapitalShort

  datatype Stats = Stats(
    total: nat, accepted: nat, rejected: nat,
    rate: nat, orderValue: nat, position: nat, totalPosition: nat, capital: nat)

  function OrderSigned(o: Order): int { if o.side.Sell? then -o.quantity else o.quantity }

  function OrderValue(a: Arith, o: Order): nat { Abs(Mul(a, o.price, o.quantity)) }

  function Projected(a: Arith, o: Order, existing: int): int { Mul(a, Abs(existing + OrderSigned(o)), o.price) }

  /** The configured parameter that the order would break for each reason to reject it. existing is
      the quantity held, total the cached total, seen the orders already counted this second. */
  ghost predicate Breaks(
    v: Verdict, conv: real -> int, p: Parameters, a: Arith, o: Order, existing: int, total: int, capital: int,
    seen: nat)
  {
    var value: int := Abs(Mul(a, o.price, o.quantity));
    var held := if o.side.Buy? then existing + o.quantity else existing - o.quantity;
    match v
    case Accepted => false
    case OrderValueExceeded => value > conv(p.maxOrderValue)
    case RateExceeded => seen >= p.maxOrdersPerSecond
    case PositionExceeded => Mul(a, Abs(held), o.price) > conv(p.maxPositionValue)
    case TotalExceeded => total > conv(p.maxTotalPositionValue)
    case CapitalShort => capital - value < conv(p.minAvailableCapital)
  }

  /** No parameter is broken. */
  ghost predicate Passes(
    conv: real -> int, p: Parameters, a: Arith, o: Order, existing: int, total: int, capital: int, seen: nat)
  {
    forall v :: !Breaks(v, conv, p, a, o, existing, total, capital, seen)
  }

  /** The order in which the checks are made. */
  predicate Earlier(v: Verdict, w: Verdict) {
    match w
    case Accepted => !v.Accepted?
    case OrderValueExceeded => false
    case RateExceeded => v.OrderValueExceeded?
    case PositionExceeded => v.OrderValueExceeded? || v.RateExceeded?
    case TotalExceeded => v.OrderValueExceeded? || v.RateExceeded? || v.PositionExceeded?
    case CapitalShort => !v.Accepted? && !v.CapitalShort?
  }

  /** The limits are the converted parameters, name by name. */
  ghost predicate Converted(conv: real -> int, p: Parameters, l: Limits) {
    && l.maxOrderValue == conv(p.maxOrderValue) && l.maxPositionValue == conv(p.maxPositionValue)
    && l.maxTotalPositionValue == conv(p.maxTotalPositionValue)
    && l.minAvailableCapital == conv(p.minAvailableCapital) && l.maxOrdersPerSecond == p.maxOrdersPerSecond
  }

  function Tally(s: Stats, v: Verdict): Stats {
    var t := s.(total := s.total + 1);
    match v
    case Accepted => t.(accepted := t.accepted + 1)
    case RateExceeded => t.(rejected := t.rejected + 1, rate := t.rate + 1)
    case OrderValueExceeded => t.(rejected := t.rejected + 1, orderValue := t.orderValue + 1)
    case PositionExceeded => t.(rejected := t.rejected + 1, position := t.position + 1)
    case TotalExceeded => t.(rejected := t.rejected + 1, totalPosition := t.totalPosition + 1)
    case CapitalShort => t.(rejected := t.rejected + 1, capital := t.capital + 1)
  }

  /** How often each verdict was given. */
  ghost function Times(vs: seq<Verdict>, v: Verdict): nat {
    if vs == [] then 0 else Times(vs[..|vs| - 1], v) + if vs[|vs| - 1] == v then 1 else 0
  }

  ghost function TallyAll(vs: seq<Verdict>): Stats {
    if vs == [] then Stats(0, 0, 0, 0, 0, 0, 0, 0) else Tally(TallyAll(vs[..|vs| - 1]), vs[|vs| - 1])
  }

  /** After any sequence of checks every counter is the number of its verdicts. */
  lemma {:induction false} TalliesCount(vs: seq<Verdict>)
    ensures var s := TallyAll(vs);
      && s.total == |vs| && s.accepted == Times(vs, Accepted) && s.rejected == |vs| - Times(vs, Accepted)
      && s.rate == Times(vs, RateExceeded) && s.orderValue == Times(vs, OrderValueExceeded)
      && s.position == Times(vs, PositionExceeded) && s.totalPosition == Times(vs, TotalExceeded)
      && s.capital == Times(vs, CapitalShort)
  {
    if vs != [] { TalliesCount(vs[..|vs| - 1]); }
  }

  ghost predicate StatsAddUp(s: Stats) {
    && s.total == s.accepted + s.rejected
    && s.rejected == s.rate + s.orderValue + s.position + s.totalPosition + s.capital
  }

  /** The first of the five comparisons with the converted limits that fails is the first parameter
      broken. */
  lemma VerdictIs(
    conv: real -> int, p: Parameters, l: Limits, a: Arith, o: Order, existing: int, total: int, capital: int, seen: nat,
    v: Verdict)
    requires Converted(conv, p, l)
    requires v == if OrderValue(a, o) > l.maxOrderValue then OrderValueExceeded
                  else if seen >= l.maxOrdersPerSecond then RateExceeded
                  else if Projected(a, o, existing) > l.maxPositionValue then PositionExceeded
                  else if total > l.maxTotalPositionValue then TotalExceeded
                  else if capital - OrderValue(a, o) < l.minAvailableCapital then CapitalShort else Accepted
    ensures v.Accepted? <==> Passes(conv, p, a, o, existing, total, capital, seen)
    ensures !v.Accepted? ==> Breaks(v, conv, p, a, o, existing, total, capital, seen)
    ensures forall w :: Earlier(w, v) ==> !Breaks(w, conv, p, a, o, existing, total, capital, seen)
  {
    assert OrderSigned(o) == if o.side.Buy? then o.quantity else -o.quantity;
    forall w | Earlier(w, v)
      ensures !Breaks(w, conv, p, a, o, existing, total, capital, seen)
    {
      match w
      case Accepted =>
      case OrderValueExceeded =>
      case RateExceeded =>
      case PositionExceeded =>
      case TotalExceeded =>
      case CapitalShort =>
    }
    assert !v.Accepted? ==> Breaks(v, conv, p, a, o, existing, total, capital, seen);
  }

  class RiskEngine {
    const conv: real -> int
    const positions: PositionManager
    var hot: Limits
    var version: nat
    var cold: seq<Cold>
    var active: nat
    var writeIndex: nat
    var currentSecond: nat
    var ordersThisSecond: nat
    var capital: int
    var stats: Stats

    /** Between updates the hot limits are the converted active parameters, and the buffer to
        be written next is not the active one. */
    ghost predicate Valid()
      reads this
    {
      && |cold| == 2 && active < 2 && writeIndex == 1 - active
      && version % 2 == 0
      && Converted(conv, cold[active].params, hot) && cold[active].hot == hot
      && StatsAddUp(stats)
    }

    constructor (conv: real -> int, positions: PositionManager)
      ensures Valid() && this.conv == conv && this.positions == positions
      ensures cold[active].params == DEFAULTS && version == 0
      ensures hot == Limits(conv(100000.0), conv(500000.0), conv(1000000.0), conv(10000.0), 100)
      ensures capital == conv(DEFAULTS.maxTotalPositionValue)
    {
      this.conv, this.positions := conv, positions;
      var buf := Cold(DEFAULTS, BuildHot(conv, DEFAULTS), 0);
      cold := [buf, buf];
      hot, version, active, writeIndex := buf.hot, 0, 0, 1;
      currentSecond, ordersThisSecond := 0, 0;
      capital := conv(DEFAULTS.maxTotalPositionValue);
      stats := Stats(0, 0, 0, 0, 0, 0, 0, 0);
    }

    /** updateParameters: write the dark buffer, publish the limits between two version
        increments, swap, and bring the new dark buffer's limits up to date. */
    method UpdateParameters(params: Parameters, now: nat)
      requires Valid()
      modifies this`cold, this`hot, this`version, this`active, this`writeIndex
      ensures Valid() && cold[active].params == params && cold[active].updated == now
      ensures active == old(writeIndex) && version == old(version) + 2
      ensures cold[writeIndex].params == old(cold[active].params) && cold[writeIndex].hot == hot
    {
      cold := cold[writeIndex := cold[writeIndex].(params := params, updated := now)];
      PublishParams();
    }

    method PublishParams()
      requires |cold| == 2 && active < 2 && writeIndex == 1 - active && version % 2 == 0 && StatsAddUp(stats)
      modifies this`cold, this`hot, this`version, this`active, this`writeIndex
      ensures Valid() && active == old(writeIndex) && version == old(version) + 2
      ensures cold[active].params == old(cold[writeIndex].params)
      ensures cold[active].updated == old(cold[writeIndex].updated)
      ensures cold[writeIndex].params == old(cold[active].params) && cold[writeIndex].hot == hot
    {
      var dark := cold[writeIndex];
      cold := cold[writeIndex := dark.(hot := BuildHot(conv, dark.params))];
      version := version + 1;
      hot := cold[writeIndex].hot;
      version := version + 1;
      active := writeIndex;
      writeIndex := if writeIndex == 0 then 1 else 0;
      cold := cold[writeIndex := cold[writeIndex].(hot := hot)];
    }

    /** checkRateLimitInternal: the count restarts with every new second, and every call counts. */
    method CheckRateLimit(nowSec: nat) returns (ok: bool)
      modifies this`currentSecond, this`ordersThisSecond
      ensures currentSecond == nowSec
      ensures ordersThisSecond == (if old(currentSecond) == nowSec then old(ordersThisSecond) else 0) + 1
      ensures ok <==> ordersThisSecond <= hot.maxOrdersPerSecond
    {
      if currentSecond != nowSec {
        currentSecond := nowSec;
        ordersThisSecond := 0;
      }
      ok := ordersThisSecond < hot.maxOrdersPerSecond;
      ordersThisSecond := ordersThisSecond + 1;
    }

    /** checkOrder: accepted exactly when no configured parameter is broken; a rejection names one
        that is, the first in the order of the checks. The rate is only charged to orders that
        pass the order value check. */
    method CheckOrder(o: Order, nowSec: nat) returns (v: Verdict)
      requires Valid()
      modifies this`currentSecond, this`ordersThisSecond, this`stats
      ensures Valid() && stats == Tally(old(stats), v)
      ensures v == OrderValueExceeded ==>
        currentSecond == old(currentSecond) && ordersThisSecond == old(ordersThisSecond)
      ensures v != OrderValueExceeded ==>
        ordersThisSecond == (if old(currentSecond) == nowSec then old(ordersThisSecond) else 0) + 1
      ensures var seen := if old(currentSecond) == nowSec then old(ordersThisSecond) else 0;
        var existing := Quantity(Lookup(positions.positions, o.symbol));
        var p, a := cold[active].params, positions.arith;
        && (v.Accepted? <==> Passes(conv, p, a, o, existing, positions.total, capital, seen))
        && (!v.Accepted? ==> Breaks(v, conv, p, a, o, existing, positions.total, capital, seen))
        && (forall w :: Earlier(w, v) ==> !Breaks(w, conv, p, a, o, existing, positions.total, capital, seen))
    {
      var a := positions.arith;
      var orderValueAbs := OrderValue(a, o);
      v := Accepted;
      if orderValueAbs > hot.maxOrderValue {
        v := OrderValueExceeded;
      }
      if v.Accepted? {
        var ok := CheckRateLimit(nowSec);
        if !ok { v := RateExceeded; }
      }
      if v.Accepted? {
        var existing := Quantity(Lookup(positions.positions, o.symbol));
        if Projected(a, o, existing) > hot.maxPositionValue { v := PositionExceeded; }
      }
      if v.Accepted? && positions.total > hot.maxTotalPositionValue {
        v := TotalExceeded;
      }
      if v.Accepted? && capital - orderValueAbs < hot.minAvailableCapital {
        v := CapitalShort;
      }
      stats := Tally(stats, v);
      VerdictIs(conv, cold[active].params, hot, a, o, Quantity(Lookup(positions.positions, o.symbol)), positions.total,
                capital, if old(currentSecond) == nowSec then old(ordersThisSecond) else 0, v);
    }
  }
}
