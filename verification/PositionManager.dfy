/** The position manager object: the table of positions, its cached saturating total, and
    saving and loading. Every call holds the manager's mutex, so calls are atomic here. */
module PositionManager {
  import opened Decimal
  import opened Options
  import opened Positions
  import Maps

  const INT64_MAX: int := 0x7FFF_FFFF_FFFF_FFFF
  const INT64_MIN: int := -0x8000_0000_0000_0000

  /** A position's contribution to the portfolio value. */
  function Value(a: Arith, p: Position): int {
    if p.quantity == 0 then 0 else Mul(a, Abs(p.quantity), p.average)
  }

  /** Sum of the values of a table, in any order. */
  ghost function Total(a: Arith, t: Table): int
    decreases |t|
  {
    if |t| == 0 then 0
    else
      var k := SomeKey(t);
      assert (t - {k}).Keys == t.Keys - {k};
      Value(a, t[k]) + Total(a, t - {k})
  }

  ghost function SomeKey(t: Table): (k: nat)
    requires |t| > 0
    ensures k in t
  {
    assert |t.Keys| > 0;
    assert exists k: nat :: k in t by { var k := Maps.AnyKey(t); }
    var k: nat :| k in t;
    k
  }

  function Saturate(x: int): int { if x > INT64_MAX then INT64_MAX else x }

  ghost predicate NonNegative(t: Table) {
    forall k :: k in t ==> t[k].average >= 0
  }

  lemma ValueNonNegative(a: Arith, p: Position)
    requires Rounds(a) && p.average >= 0
    ensures Value(a, p) >= 0
  {
    ProductNonNegative(Abs(p.quantity), p.average);
    RoundSign(a, Abs(p.quantity) * p.average);
  }

  /** The sum does not depend on the order in which positions are taken out. */
  lemma {:induction false} TotalWithout(a: Arith, t: Table, k: nat)
    requires k in t
    ensures Total(a, t) == Value(a, t[k]) + Total(a, t - {k})
    decreases |t|
  {
    assert k in t.Keys;
    var j := SomeKey(t);
    if j != k {
      var u, v := t - {j}, t - {k};
      assert u.Keys == t.Keys - {j} && v.Keys == t.Keys - {k};
      TotalWithout(a, u, k);
      TotalWithout(a, v, j);
      assert u - {k} == v - {j};
    }
  }

  lemma {:induction false} TotalWith(a: Arith, t: Table, k: nat, p: Position)
    ensures Total(a, t[k := p]) == Total(a, t - {k}) + Value(a, p)
  {
    TotalWithout(a, t[k := p], k);
    assert t[k := p] - {k} == t - {k};
  }

  lemma {:induction false} TotalNonNegative(a: Arith, t: Table)
    requires Rounds(a) && NonNegative(t)
    ensures Total(a, t) >= 0
    decreases |t|
  {
    if |t| > 0 {
      var k := SomeKey(t);
      ValueNonNegative(a, t[k]);
      assert (t - {k}).Keys == t.Keys - {k};
      TotalNonNegative(a, t - {k});
    }
  }

  lemma FillKeepsNonNegative(a: Arith, t: Table, f: Fill)
    requires Rounds(a) && NonNegative(t) && f.quantity >= 0 && f.price >= 0
    ensures NonNegative(StepTable(a, t, f))
  {
    if f.symbol in t && f.quantity > 0 {
      var p := t[f.symbol];
      AverageNonNegative(a, p.quantity, p.average, f.quantity, f.price);
    }
  }

  lemma AverageNonNegative(a: Arith, q: int, avg: int, f: int, price: int)
    requires Rounds(a) && avg >= 0 && f > 0 && price >= 0
    ensures WeightedAverage(a, q, avg, f, price) >= 0
  {
    ProductNonNegative(Abs(q), avg);
    ProductNonNegative(f, price);
    RoundSign(a, Abs(q) * avg);
    RoundSign(a, f * price);
    QuotSign(a, (Mul(a, Abs(q), avg) + Mul(a, f, price)) * SCALE, Abs(q) + f);
  }

  lemma ProductNonNegative(x: int, y: int)
    requires x >= 0 && y >= 0
    ensures x * y >= 0
  {
  }

  // ----- saving and loading -----

  /** A JSON object of a saved array; a missing member is None. */
  datatype Entry = Entry(
    symbol: Option<nat>, quantity: Option<int>, average: Option<int>, realized: Option<int>, updated: Option<nat>)

  datatype Json = JsonArray(entries: seq<Entry>) | OtherJson

  function Complete(e: Entry): bool {
    e.symbol.Some? && e.quantity.Some? && e.average.Some? && e.realized.Some?
  }

  function Encode(p: Position): Entry {
    Entry(Some(p.symbol), Some(p.quantity), Some(p.average), Some(p.realized), Some(p.updated))
  }

  function Decode(e: Entry): Position
    requires Complete(e)
  {
    Position(e.symbol.value, e.quantity.value, e.average.value, e.realized.value,
             if e.updated.Some? then e.updated.value else 0)
  }

  /** Entries in order, incomplete ones skipped, a later one for the same symbol winning. */
  ghost function Loaded(es: seq<Entry>): Table {
    if es == [] then map[]
    else
      var t, e := Loaded(es[..|es| - 1]), es[|es| - 1];
      if Complete(e) then t[e.symbol.value := Decode(e)] else t
  }

  /** An entry without one of the first four members is skipped; any other sets its symbol's position,
      the time being zero if it is missing. */
  lemma {:induction false} LoadsEntry(es: seq<Entry>, e: Entry)
    ensures Loaded(es + [e]) ==
      if e.symbol.None? || e.quantity.None? || e.average.None? || e.realized.None? then Loaded(es)
      else Loaded(es)[e.symbol.value := Position(e.symbol.value, e.quantity.value, e.average.value, e.realized.value,
                                                 if e.updated.None? then 0 else e.updated.value)]
  {
    assert (es + [e])[..|es|] == es;
  }

  ghost function NonFlat(t: Table): Table {
    map k | k in t && t[k].quantity != 0 :: t[k]
  }

  lemma NonFlatWith(t: Table, k: nat, p: Position)
    requires k !in t
    ensures NonFlat(t[k := p]) == if p.quantity == 0 then NonFlat(t) else NonFlat(t)[k := p]
  {
  }

  lemma {:induction false} NonFlatTotalWith(a: Arith, t: Table, k: nat, p: Position)
    requires k !in t
    ensures Total(a, NonFlat(t[k := p])) == Total(a, NonFlat(t)) + Value(a, p)
  {
    NonFlatWith(t, k, p);
    if p.quantity != 0 {
      TotalWith(a, NonFlat(t), k, p);
      assert NonFlat(t) - {k} == NonFlat(t);
    }
  }

  /** Flat positions are worth nothing. */
  lemma {:induction false} NonFlatTotal(a: Arith, t: Table)
    ensures Total(a, NonFlat(t)) == Total(a, t)
    decreases |t|
  {
    if |t| == 0 {
      assert NonFlat(t).Keys <= t.Keys == {};
    } else {
      var k := SomeKey(t);
      var u := t - {k};
      assert u.Keys == t.Keys - {k};
      NonFlatTotal(a, u);
      assert t == u[k := t[k]];
      NonFlatTotalWith(a, u, k, t[k]);
    }
  }

  // ----- the object -----

  /** The loop body of recalcTotalValue. */
  function SaturatingAdd(raw: int, add: int): (r: int)
    ensures 0 <= raw <= INT64_MAX && add >= 0 ==> r == Saturate(raw + add)
    ensures INT64_MIN <= raw <= INT64_MAX && INT64_MIN <= add <= INT64_MAX ==> INT64_MIN <= r <= INT64_MAX
  {
    if add > 0 && raw > INT64_MAX - add then INT64_MAX
    else if add < 0 && raw < INT64_MIN - add then INT64_MIN
    else raw + add
  }

  lemma TakeOne(t: Table, k: nat)
    requires k in t
    ensures |t - {k}| == |t| - 1
  {
    assert (t - {k}).Keys == t.Keys - {k};
  }

  /** raw is the saturated sum of the positions no longer to do. */
  ghost predicate Summed(a: Arith, t: Table, todo: Table, raw: int) {
    Total(a, t) - Total(a, todo) >= 0 && raw == Saturate(Total(a, t) - Total(a, todo))
  }

  lemma {:induction false} SumOne(a: Arith, t: Table, todo: Table, k: nat, raw: int)
    requires Rounds(a) && k in todo && todo[k].average >= 0 && Summed(a, t, todo, raw)
    ensures var v := Mul(a, Abs(todo[k].quantity), todo[k].average);
      Summed(a, t, todo - {k}, if todo[k].quantity != 0 then SaturatingAdd(raw, v) else raw)
  {
    TotalWithout(a, todo, k);
    ValueNonNegative(a, todo[k]);
  }

  /** The table with averages replaced by positive market prices. */
  ghost function Marked(t: Table, prices: map<nat, int>): Table {
    map k | k in t :: if k in prices && prices[k] > 0 then t[k].(average := prices[k]) else t[k]
  }

  lemma {:induction false} MarkedWithout(a: Arith, t: Table, prices: map<nat, int>, k: nat)
    requires k in t
    ensures Total(a, Marked(t, prices)) == Value(a, Marked(t, prices)[k]) + Total(a, Marked(t - {k}, prices))
  {
    TotalWithout(a, Marked(t, prices), k);
    MarkedLess(t, prices, k);
  }

  lemma MarkedLess(t: Table, prices: map<nat, int>, k: nat)
    ensures Marked(t, prices) - {k} == Marked(t - {k}, prices)
  {
  }

  /** One more position saved. */
  lemma {:induction false} SaveOne(t: Table, todo: Table, k: nat, es: seq<Entry>)
    requires k in todo && k in t && t[k].symbol == k && Loaded(es) == NonFlat(t - todo.Keys)
    ensures Loaded(if t[k].quantity != 0 then es + [Encode(t[k])] else es) == NonFlat(t - (todo - {k}).Keys)
  {
    var before := t - todo.Keys;
    assert t - (todo - {k}).Keys == before[k := t[k]];
    NonFlatWith(before, k, t[k]);
    LoadOne(es, t[k]);
  }

  class PositionManager {
    const arith: Arith
    var positions: Table
    var total: int

    /** Positions are filed under their own symbol and, with non-negative prices, the cache is
        the saturated sum of the values. */
    ghost predicate Valid()
      reads this
    {
      && Rounds(arith)
      && (forall k :: k in positions ==> positions[k].symbol == k)
      && (NonNegative(positions) ==> total == Saturate(Total(arith, positions)))
    }

    constructor (a: Arith)
      requires Rounds(a)
      ensures Valid() && arith == a && positions == map[] && total == 0
    {
      arith, positions, total := a, map[], 0;
    }

    /** recalcTotalValue: a saturating sum over the table in whatever order it iterates. */
    method RecalcTotalValue()
      requires Rounds(arith) && forall k :: k in positions ==> positions[k].symbol == k
      modifies this`total
      ensures Valid()
    {
      var raw := 0;
      var todo: Table := positions;
      while |todo| > 0
        invariant forall k :: k in todo ==> k in positions && positions[k] == todo[k]
        invariant NonNegative(positions) ==> Summed(arith, positions, todo, raw)
        decreases |todo|
      {
        ghost var some := Maps.AnyKey(todo);
        var id: nat :| id in todo;
        var p := todo[id];
        TakeOne(todo, id);
        if NonNegative(positions) { SumOne(arith, positions, todo, id, raw); }
        todo := todo - {id};
        if p.quantity != 0 {
          raw := SaturatingAdd(raw, Mul(arith, Abs(p.quantity), p.average));
        }
      }
      total := raw;
    }

    /** updatePosition: the table steps, the cache follows; a zero quantity is refused. */
    method UpdatePosition(f: Fill) returns (p: Option<Position>)
      requires Valid()
      modifies this`positions, this`total
      ensures Valid() && positions == StepTable(arith, old(positions), f)
      ensures p == if f.quantity == 0 then None else Some(positions[f.symbol])
    {
      if f.quantity == 0 {
        return None;
      }
      var existing := Lookup(positions, f.symbol);
      var next := ApplyFill(arith, existing, f);
      positions := positions[f.symbol := next];
      RecalcTotalValue();
      return Some(next);
    }

    method Clear()
      requires Valid()
      modifies this`positions, this`total
      ensures Valid() && positions == map[] && total == 0
    {
      positions := map[];
      total := 0;
    }

    /** getTotalValue: every position at its market price where there is a positive one, else at
        its average. With no prices this is what the cache holds, unless it saturates. */
    method GetTotalValue(prices: map<nat, int>) returns (sum: int)
      requires Valid()
      ensures sum == Total(arith, Marked(positions, prices))
      ensures prices == map[] && NonNegative(positions) && sum <= INT64_MAX ==> sum == total
    {
      sum := 0;
      var todo: Table := positions;
      while |todo| > 0
        invariant sum + Total(arith, Marked(todo, prices)) == Total(arith, Marked(positions, prices))
        decreases |todo|
      {
        ghost var some := Maps.AnyKey(todo);
        var id: nat :| id in todo;
        var p := todo[id];
        TakeOne(todo, id);
        MarkedWithout(arith, todo, prices, id);
        todo := todo - {id};
        if p.quantity != 0 {
          var price := if id in prices && prices[id] > 0 then prices[id] else p.average;
          sum := sum + Mul(arith, Abs(p.quantity), price);
        }
      }
      if prices == map[] { assert Marked(positions, prices) == positions; }
    }

    /** toJson: one complete entry per position that is not flat, in iteration order. */
    method ToJson() returns (j: Json)
      requires Valid()
      ensures j.JsonArray? && Loaded(j.entries) == NonFlat(positions)
    {
      var es := [];
      var todo: Table := positions;
      while |todo| > 0
        invariant forall k :: k in todo ==> k in positions && positions[k] == todo[k]
        invariant Loaded(es) == NonFlat(positions - todo.Keys)
        decreases |todo|
      {
        ghost var some := Maps.AnyKey(todo);
        var id: nat :| id in todo;
        TakeOne(todo, id);
        SaveOne(positions, todo, id, es);
        todo := todo - {id};
        if positions[id].quantity != 0 {
          es := es + [Encode(positions[id])];
        }
      }
      assert positions - todo.Keys == positions;
      j := JsonArray(es);
    }

    /** fromJson: anything but an array is refused and changes nothing. */
    method FromJson(j: Json) returns (ok: bool)
      requires Valid()
      modifies this`positions, this`total
      ensures Valid() && ok == j.JsonArray?
      ensures if ok then positions == Loaded(j.entries) else positions == old(positions) && total == old(total)
    {
      if !j.JsonArray? {
        return false;
      }
      positions := map[];
      for i := 0 to |j.entries|
        invariant positions == Loaded(j.entries[..i])
        invariant forall k :: k in positions ==> positions[k].symbol == k
      {
        assert j.entries[..i + 1][..i] == j.entries[..i];
        if Complete(j.entries[i]) {
          var p := Decode(j.entries[i]);
          positions := positions[p.symbol := p];
        }
      }
      assert j.entries[..|j.entries|] == j.entries;
      RecalcTotalValue();
      return true;
    }
  }

  lemma {:induction false} LoadOne(es: seq<Entry>, p: Position)
    ensures Loaded(es + [Encode(p)]) == Loaded(es)[p.symbol := p]
  {
    assert (es + [Encode(p)])[..|es|] == es;
  }

  /** Saving and loading again restores exactly the positions that are not flat and the same
      cached total. */
  method SaveAndLoad(m: PositionManager, other: PositionManager) returns (ok: bool)
    requires m.Valid() && other.Valid() && m != other && m.arith == other.arith
    modifies other`positions, other`total
    ensures ok && m.Valid() && other.Valid() && other.positions == NonFlat(m.positions)
    ensures NonNegative(m.positions) ==> other.total == m.total
  {
    var j := m.ToJson();
    ok := other.FromJson(j);
    NonFlatTotal(m.arith, m.positions);
  }

  /** Any sequence of fills from empty: the table is the run of the fills, every symbol's books
      balance, and with non-negative prices the cache is the saturated total. */
  method ApplyFills(a: Arith, fills: seq<Fill>) returns (table: Table, total: int)
    requires Rounds(a) && NonNegativeQuantities(fills)
    ensures table == RunTable(a, fills)
    ensures forall s: nat :: Lookup(table, s) == RunAccount(a, fills, s).pos && Balanced(RunAccount(a, fills, s))
    ensures (forall i :: 0 <= i < |fills| ==> fills[i].price >= 0) ==> total == Saturate(Total(a, table))
  {
    var m := new PositionManager(a);
    for i := 0 to |fills|
      invariant fresh(m) && m.Valid() && m.arith == a && m.positions == RunTable(a, fills[..i])
      invariant (forall j :: 0 <= j < |fills| ==> fills[j].price >= 0) ==> NonNegative(m.positions)
    {
      assert fills[..i + 1][..i] == fills[..i];
      if forall j :: 0 <= j < |fills| ==> fills[j].price >= 0 {
        FillKeepsNonNegative(a, m.positions, fills[i]);
      }
      var p := m.UpdatePosition(fills[i]);
    }
    assert fills[..|fills|] == fills;
    forall s: nat
      ensures Lookup(m.positions, s) == RunAccount(a, fills, s).pos && Balanced(RunAccount(a, fills, s))
    {
      Conservation(a, fills, s);
    }
    table, total := m.positions, m.total;
  }
}
