/** Position accounting for one symbol: what a fill does to a position, and the conservation
    law that ties quantity, average price and realised profit to the trade history. */
module Positions {
  import opened Arithmetic
  import opened Decimal
  import opened Options

  datatype OrderSide = Buy | Sell

  datatype Fill = Fill(symbol: nat, side: OrderSide, quantity: int, price: int, time: nat)

  datatype Position = Position(symbol: nat, quantity: int, average: int, realized: int, updated: nat)

  function Signed(f: Fill): int { if f.side.Sell? then -f.quantity else f.quantity }

  function SignOf(v: int): int { if v > 0 then 1 else if v < 0 then -1 else 0 }

  /** calcWeightedAverage. */
  function WeightedAverage(a: Arith, oldQty: int, oldAvg: int, fillQty: int, fillPrice: int): int {
    var newAbs := Abs(oldQty) + fillQty;
    if newAbs == 0 then 0
    else Div(a, Mul(a, Abs(oldQty), oldAvg) + Mul(a, fillQty, fillPrice), newAbs)
  }

  /** calcRealizedPnLOnReduce. */
  function RealizedOnReduce(a: Arith, p: Position, fillPrice: int, reduced: int): int {
    if p.quantity > 0 then Mul(a, reduced, fillPrice - p.average)
    else Mul(a, reduced, p.average - fillPrice)
  }

  /** The branches of updatePosition for a fill of non-zero quantity. */
  function ApplyFill(a: Arith, prior: Option<Position>, f: Fill): Position {
    var s := Signed(f);
    if prior.None? then Position(f.symbol, s, f.price, 0, f.time)
    else
      var p := prior.value;
      if p.quantity == 0 then
        p.(quantity := s, average := f.price, updated := f.time)
      else if SignOf(p.quantity) == SignOf(s) then
        p.(quantity := p.quantity + s,
           average := WeightedAverage(a, p.quantity, p.average, f.quantity, f.price), updated := f.time)
      else if Abs(s) <= Abs(p.quantity) then
        p.(realized := p.realized + RealizedOnReduce(a, p, f.price, Abs(s)),
           quantity := p.quantity + s,
           average := if p.quantity + s == 0 then 0 else p.average, updated := f.time)
      else
        var remaining := Abs(s) - Abs(p.quantity);
        p.(realized := p.realized + RealizedOnReduce(a, p, f.price, Abs(p.quantity)),
           quantity := if SignOf(s) > 0 then remaining else -remaining,
           average := f.price, updated := f.time)
  }

  /** Position::getTotalPnL at a mark price. */
  function TotalPnL(a: Arith, p: Position, mark: int): int {
    p.realized + Mul(a, p.quantity, mark - p.average)
  }

  // ----- conservation -----

  /** Zero for exact arithmetic: realised profit less the cost of the open quantity, plus all
      money traded, at double scale. */
  function Residue(p: Position, traded: int): int {
    p.realized * SCALE - p.quantity * p.average + traded
  }

  function Quantity(prior: Option<Position>): int { if prior.Some? then prior.value.quantity else 0 }

  /** What one fill can add to the residue: nothing when it opens a position, one unit when it
      reduces or flips, two units and the new quantity when it averages in. */
  function Slack(prior: Option<Position>, f: Fill): nat {
    var q := Quantity(prior);
    if q == 0 then 0
    else if SignOf(q) == SignOf(Signed(f)) then Abs(q + Signed(f)) + 2 * SCALE
    else SCALE
  }

  lemma AverageBound(a: Arith, q: int, avg: int, f: int, price: int)
    requires Rounds(a) && q != 0 && f > 0
    ensures var m: int := Abs(q);
      Abs((m + f) * WeightedAverage(a, q, avg, f, price) - m * avg - f * price) <= m + f + 2 * SCALE
  {
    var m: int := Abs(q);
    RoundBound(a, m * avg);
    RoundBound(a, f * price);
    QuotBound(a, (Mul(a, m, avg) + Mul(a, f, price)) * SCALE, m + f);
  }

  lemma IncreaseResidue(a: Arith, p: Position, f: Fill, traded: int)
    requires Rounds(a) && f.quantity > 0 && p.quantity != 0 && SignOf(p.quantity) == SignOf(Signed(f))
    ensures Abs(Residue(ApplyFill(a, Some(p), f), traded + Signed(f) * f.price) - Residue(p, traded))
      <= Abs(p.quantity + Signed(f)) + 2 * SCALE
  {
    AverageBound(a, p.quantity, p.average, f.quantity, f.price);
    var q: int, w := Abs(p.quantity), WeightedAverage(a, p.quantity, p.average, f.quantity, f.price);
    if p.quantity < 0 {
      NegateProduct(q + f.quantity, w);
      NegateProduct(q, p.average);
      NegateProduct(f.quantity, f.price);
    }
  }

  /** The rounded profit of closing r units stands for the exact exchange of r units. */
  lemma ReduceResidue(a: Arith, p: Position, f: Fill, traded: int)
    requires Rounds(a) && f.quantity > 0 && p.quantity != 0 && SignOf(p.quantity) != SignOf(Signed(f))
    ensures Abs(Residue(ApplyFill(a, Some(p), f), traded + Signed(f) * f.price) - Residue(p, traded)) <= SCALE
  {
    var s := Signed(f);
    var p' := ApplyFill(a, Some(p), f);
    if Abs(s) <= Abs(p.quantity) {
      ReduceAlgebra(p.quantity, s, p.average, f.price);
      RoundBound(a, s * (p.average - f.price));
      assert p'.realized == p.realized + a.round(s * (p.average - f.price));
      assert p'.quantity * p'.average == (p.quantity + s) * p.average;
    } else {
      FlipAlgebra(p.quantity, s, p.average, f.price);
      RoundBound(a, p.quantity * (f.price - p.average));
      assert p'.realized == p.realized + a.round(p.quantity * (f.price - p.average));
      assert p'.quantity * p'.average == (p.quantity + s) * f.price;
    }
  }

  lemma ReduceAlgebra(q: int, s: int, avg: int, price: int)
    ensures (-s) * (price - avg) == s * (avg - price)
    ensures s * (avg - price) - (q + s) * avg + s * price == -(q * avg)
  {
  }

  lemma FlipAlgebra(q: int, s: int, avg: int, price: int)
    ensures (-q) * (avg - price) == q * (price - avg)
    ensures q * (price - avg) - (q + s) * price + s * price == -(q * avg)
  {
  }

  lemma FillResidue(a: Arith, prior: Option<Position>, f: Fill, traded: int)
    requires Rounds(a) && f.quantity > 0
    ensures var p' := ApplyFill(a, prior, f);
      var before := if prior.Some? then Residue(prior.value, traded) else traded;
      && p'.quantity == Quantity(prior) + Signed(f)
      && Abs(Residue(p', traded + Signed(f) * f.price) - before) <= Slack(prior, f)
  {
    if prior.Some? && prior.value.quantity != 0 {
      if SignOf(prior.value.quantity) == SignOf(Signed(f)) {
        IncreaseResidue(a, prior.value, f, traded);
      } else {
        ReduceResidue(a, prior.value, f, traded);
      }
    }
  }

  // ----- where a fill's effect goes -----

  /** Buys add, sells take away. */
  ghost predicate Moves(before: int, after: int, f: Fill) {
    after == if f.side.Buy? then before + f.quantity else before - f.quantity
  }

  /** The fill adds to what is held, long or short. */
  predicate Adds(quantity: int, f: Fill) { if f.side.Buy? then quantity > 0 else quantity < 0 }

  /** A fill that opens a position takes the fill's price and leaves realised profit alone. */
  lemma OpeningFill(a: Arith, prior: Option<Position>, f: Fill)
    requires f.quantity > 0 && (prior.Some? ==> prior.value.quantity == 0)
    ensures var p' := ApplyFill(a, prior, f);
      && Moves(0, p'.quantity, f) && p'.average == f.price && p'.updated == f.time
      && p'.realized == (if prior.Some? then prior.value.realized else 0)
      && p'.symbol == (if prior.Some? then prior.value.symbol else f.symbol)
  {
  }

  /** A fill in the same direction realises nothing; the new average times the new quantity is the
      exact cost of both parts, up to the averaging's rounding. */
  lemma AddingFill(a: Arith, p: Position, f: Fill)
    requires Rounds(a) && f.quantity > 0 && Adds(p.quantity, f)
    ensures var p' := ApplyFill(a, Some(p), f);
      && Moves(p.quantity, p'.quantity, f) && p'.realized == p.realized
      && p'.symbol == p.symbol && p'.updated == f.time
      && Abs(Abs(p'.quantity) * p'.average - Abs(p.quantity) * p.average - f.quantity * f.price)
         <= Abs(p'.quantity) + 2 * SCALE
  {
    AverageBound(a, p.quantity, p.average, f.quantity, f.price);
  }

  /** The units a fill in the opposite direction closes. */
  function Closed(p: Position, f: Fill): nat
    requires f.quantity > 0
  {
    if f.quantity <= Abs(p.quantity) then f.quantity else Abs(p.quantity)
  }

  /** A fill in the opposite direction realises the closed units times the price difference, a gain
      for a long position when the price is above its average and for a short one when it is
      below. What is left of the position keeps its average; a flat one has none; what goes beyond
      it opens at the fill's price. */
  lemma ClosingFill(a: Arith, p: Position, f: Fill)
    requires Rounds(a) && f.quantity > 0 && p.quantity != 0 && !Adds(p.quantity, f)
    ensures var p' := ApplyFill(a, Some(p), f);
      var gain := if p.quantity > 0 then f.price - p.average else p.average - f.price;
      && Moves(p.quantity, p'.quantity, f) && p'.symbol == p.symbol && p'.updated == f.time
      && -SCALE < (p'.realized - p.realized) * SCALE - Closed(p, f) * gain < SCALE
      && p'.average == (if f.quantity < Abs(p.quantity) then p.average
                        else if f.quantity == Abs(p.quantity) then 0 else f.price)
  {
    RoundBound(a, Closed(p, f) * (if p.quantity > 0 then f.price - p.average else p.average - f.price));
  }

  // ----- every sequence of fills -----

  type Table = map<nat, Position>

  function Lookup(t: Table, symbol: nat): Option<Position> { if symbol in t then Some(t[symbol]) else None }

  /** updatePosition on the table; a fill of quantity zero is ignored. */
  function StepTable(a: Arith, t: Table, f: Fill): Table {
    if f.quantity == 0 then t else t[f.symbol := ApplyFill(a, Lookup(t, f.symbol), f)]
  }

  ghost function RunTable(a: Arith, fills: seq<Fill>): Table {
    if fills == [] then map[] else StepTable(a, RunTable(a, fills[..|fills| - 1]), fills[|fills| - 1])
  }

  /** The books of one symbol: its position, the signed sum of quantities, the money traded
      at double scale and the rounding slack so far. */
  datatype Account = Account(pos: Option<Position>, signed: int, traded: int, slack: nat)

  function StepAccount(a: Arith, c: Account, f: Fill): Account {
    Account(Some(ApplyFill(a, c.pos, f)), c.signed + Signed(f), c.traded + Signed(f) * f.price,
            c.slack + Slack(c.pos, f))
  }

  ghost function RunAccount(a: Arith, fills: seq<Fill>, symbol: nat): Account {
    if fills == [] then Account(None, 0, 0, 0)
    else
      var c := RunAccount(a, fills[..|fills| - 1], symbol);
      var f := fills[|fills| - 1];
      if f.symbol == symbol && f.quantity != 0 then StepAccount(a, c, f) else c
  }

  ghost predicate Balanced(c: Account) {
    if c.pos.None? then c.signed == 0 && c.traded == 0
    else c.pos.value.quantity == c.signed && Abs(Residue(c.pos.value, c.traded)) <= c.slack
  }

  lemma StepBalanced(a: Arith, c: Account, f: Fill)
    requires Rounds(a) && f.quantity > 0 && Balanced(c)
    ensures Balanced(StepAccount(a, c, f))
  {
    FillResidue(a, c.pos, f, c.traded);
  }

  /** What the whole trade history is worth at a mark price. */
  ghost function History(fills: seq<Fill>, symbol: nat, mark: int): int {
    if fills == [] then 0
    else var f := fills[|fills| - 1];
         History(fills[..|fills| - 1], symbol, mark) + if f.symbol == symbol then Signed(f) * (mark - f.price) else 0
  }

  ghost predicate NonNegativeQuantities(fills: seq<Fill>) {
    forall i :: 0 <= i < |fills| ==> fills[i].quantity >= 0
  }

  /** Conservation through open, increase, reduce, flat and flip, for every sequence of fills
      on any symbols: a symbol's quantity is exactly the signed sum of its fills, and the
      residue of its position stays within the slack of the fills seen. */
  lemma {:induction false} Conservation(a: Arith, fills: seq<Fill>, symbol: nat)
    requires Rounds(a) && NonNegativeQuantities(fills)
    ensures Lookup(RunTable(a, fills), symbol) == RunAccount(a, fills, symbol).pos
    ensures Balanced(RunAccount(a, fills, symbol))
  {
    if fills != [] {
      var n := |fills| - 1;
      Conservation(a, fills[..n], symbol);
      if fills[n].symbol == symbol && fills[n].quantity != 0 {
        StepBalanced(a, RunAccount(a, fills[..n], symbol), fills[n]);
      }
    }
  }

  /** The quantity bought or sold in a symbol. */
  function Volume(fills: seq<Fill>, symbol: nat, side: OrderSide): int {
    if fills == [] then 0
    else
      var f := fills[|fills| - 1];
      Volume(fills[..|fills| - 1], symbol, side) + if f.symbol == symbol && f.side == side then f.quantity else 0
  }

  /** After any fills a symbol's quantity is what was bought less what was sold. */
  lemma {:induction false} BoughtLessSold(a: Arith, fills: seq<Fill>, symbol: nat)
    requires Rounds(a) && NonNegativeQuantities(fills)
    ensures Quantity(Lookup(RunTable(a, fills), symbol)) == Volume(fills, symbol, Buy) - Volume(fills, symbol, Sell)
  {
    Conservation(a, fills, symbol);
    SignedVolume(a, fills, symbol);
  }

  lemma {:induction false} SignedVolume(a: Arith, fills: seq<Fill>, symbol: nat)
    ensures RunAccount(a, fills, symbol).signed == Volume(fills, symbol, Buy) - Volume(fills, symbol, Sell)
  {
    if fills != [] { SignedVolume(a, fills[..|fills| - 1], symbol); }
  }

  /** The slack grows by at most two units and one quantity a fill. */
  lemma {:induction false} SlackIsLinear(a: Arith, fills: seq<Fill>, symbol: nat, most: nat)
    requires Rounds(a) && NonNegativeQuantities(fills)
    requires forall k {:trigger RunTable(a, fills[..k])} :: 0 <= k <= |fills| ==>
      Abs(Quantity(Lookup(RunTable(a, fills[..k]), symbol))) <= most
    ensures RunAccount(a, fills, symbol).slack <= |fills| * (2 * SCALE + most)
  {
    if fills != [] {
      var n := |fills| - 1;
      forall k | 0 <= k <= n
        ensures Abs(Quantity(Lookup(RunTable(a, fills[..n][..k]), symbol))) <= most
      {
        assert fills[..n][..k] == fills[..k];
        assert Abs(Quantity(Lookup(RunTable(a, fills[..k]), symbol))) <= most;
      }
      SlackIsLinear(a, fills[..n], symbol, most);
      assert fills[..n + 1] == fills;
      assert Abs(Quantity(Lookup(RunTable(a, fills[..n + 1]), symbol))) <= most;
      SlackOfLast(a, fills, symbol, most);
      OneMore(n, 2 * SCALE + most);
    }
  }

  lemma {:induction false} SlackOfLast(a: Arith, fills: seq<Fill>, symbol: nat, most: nat)
    requires Rounds(a) && NonNegativeQuantities(fills) && fills != []
    requires Abs(Quantity(Lookup(RunTable(a, fills), symbol))) <= most
    ensures RunAccount(a, fills, symbol).slack
      <= RunAccount(a, fills[..|fills| - 1], symbol).slack + 2 * SCALE + most
  {
    Conservation(a, fills, symbol);
    Conservation(a, fills[..|fills| - 1], symbol);
  }

  lemma {:induction false} HistoryIs(a: Arith, fills: seq<Fill>, symbol: nat, mark: int)
    ensures var c := RunAccount(a, fills, symbol);
      History(fills, symbol, mark) == c.signed * mark - c.traded
  {
    if fills != [] {
      HistoryIs(a, fills[..|fills| - 1], symbol, mark);
      var f := fills[|fills| - 1];
      HistoryAlgebra(RunAccount(a, fills[..|fills| - 1], symbol).signed, Signed(f), mark, f.price);
    }
  }

  lemma HistoryAlgebra(q: int, s: int, mark: int, price: int)
    ensures (q + s) * mark - s * price == q * mark + s * (mark - price)
  {
  }

  lemma MarkAlgebra(q: int, mark: int, avg: int)
    ensures q * (mark - avg) == q * mark - q * avg
  {
  }

  /** Total profit and loss marks the whole trade history to market, up to rounding. */
  lemma {:induction false} MarksHistory(a: Arith, fills: seq<Fill>, symbol: nat, mark: int)
    requires Rounds(a) && NonNegativeQuantities(fills) && symbol in RunTable(a, fills)
    ensures var p := RunTable(a, fills)[symbol];
      Abs(TotalPnL(a, p, mark) * SCALE - History(fills, symbol, mark))
      <= RunAccount(a, fills, symbol).slack + SCALE
  {
    Conservation(a, fills, symbol);
    HistoryIs(a, fills, symbol, mark);
    var p := RunTable(a, fills)[symbol];
    MarkAlgebra(p.quantity, mark, p.average);
    RoundBound(a, p.quantity * (mark - p.average));
  }
}
