/** The simple order book: two sorted maps trimmed after every tick, and the best prices
    copied out. Each call runs under its locks, so calls are atomic here. */
module OrderBook {
  import opened Arithmetic
  import opened PriceLevels
  import opened Books
  import opened Options

  /** The copied best level of one side; price and quantity are meaningful when present. */
  datatype Top = Top(present: bool, price: int, quantity: int)

  ghost predicate TopOf(side: Side, t: Top, m: map<int, int>) {
    if |m| == 0 then !t.present
    else t.present && t.price == Best(side, m) && t.quantity == m[t.price]
  }

  class OrderBook {
    var bids: map<int, int>
    var asks: map<int, int>
    var bestBid: Top
    var bestAsk: Top
    var time: nat

    ghost predicate Valid()
      reads this
    {
      && |bids| <= MAX_DEPTH && |asks| <= MAX_DEPTH
      && TopOf(Bid, bestBid, bids) && TopOf(Ask, bestAsk, asks)
    }

    ghost function View(): MapBook
      reads this
    {
      MapBook(bids, asks, time)
    }

    constructor ()
      ensures Valid() && View() == RunMap([])
    {
      bids, asks, time := map[], map[], 0;
      bestBid, bestAsk := Top(false, 0, 0), Top(false, 0, 0);
    }

    /** updateHotData: copy out begin() of each map. */
    method UpdateHotData(t: nat)
      modifies this`bestBid, this`bestAsk, this`time
      ensures TopOf(Bid, bestBid, bids) && TopOf(Ask, bestAsk, asks) && time == t
    {
      bestBid := Begin(Bid, bids, bestBid);
      bestAsk := Begin(Ask, asks, bestAsk);
      time := t;
    }

    /** update: the hot copy is taken before the trim, which never removes the best level. */
    method Update(tick: Op)
      requires Valid() && tick.Tick?
      modifies this
      ensures Valid() && View() == StepMap(old(View()), tick)
    {
      if tick.kind.BID? {
        bids := if tick.quantity > 0 then bids[tick.price := tick.quantity] else bids - {tick.price};
      } else {
        asks := if tick.quantity > 0 then asks[tick.price := tick.quantity] else asks - {tick.price};
      }
      UpdateHotData(tick.time);
      TrimMaps();
    }

    /** trimDepth on both maps. */
    method TrimMaps()
      requires TopOf(Bid, bestBid, bids) && TopOf(Ask, bestAsk, asks)
      modifies this`bids, this`asks
      ensures Valid() && bids == Trim(Bid, old(bids)) && asks == Trim(Ask, old(asks))
    {
      TrimKeepsTop(Bid, bestBid, bids);
      TrimKeepsTop(Ask, bestAsk, asks);
      bids := TrimDepth(Bid, bids);
      asks := TrimDepth(Ask, asks);
    }

    method Clear()
      modifies this
      ensures Valid() && View() == StepMap(old(View()), Op.Clear)
    {
      bids, asks := map[], map[];
      bestBid, bestAsk := Top(false, 0, 0), Top(false, 0, 0);
    }

    /** getBestBid / getBestAsk: the first entry of the listing. */
    method GetBest(side: Side) returns (r: Option<int>)
      requires Valid()
      ensures var s := Enumerate(side, if side.Bid? then bids else asks);
        r == if s == [] then None else Some(s[0].price)
      ensures r.Some? ==> r.value in (if side.Bid? then bids else asks)
      ensures r.Some? && side.Bid? ==> forall k :: k in bids ==> k <= r.value
      ensures r.Some? && side.Ask? ==> forall k :: k in asks ==> r.value <= k
    {
      var t := if side.Bid? then bestBid else bestAsk;
      r := if t.present then Some(t.price) else None;
    }

    /** generateSnapshot: both maps in order. */
    method GenerateSnapshot() returns (snapshot: Book)
      ensures snapshot == Listing(View())
      ensures forall i, j :: 0 <= i < j < |snapshot.bids| ==> snapshot.bids[i].price > snapshot.bids[j].price
      ensures forall i, j :: 0 <= i < j < |snapshot.asks| ==> snapshot.asks[i].price < snapshot.asks[j].price
    {
      EnumerateRepresents(Bid, bids);
      EnumerateRepresents(Ask, asks);
      var b := GetLevels(Bid, |bids|);
      var a := GetLevels(Ask, |asks|);
      snapshot := Book(b, a, time);
    }

    /** getBidLevels / getAskLevels: walk the map in order. */
    method GetLevels(side: Side, maxLevels: nat) returns (levels: seq<Level>)
      ensures levels == Take(Enumerate(side, if side.Bid? then bids else asks), maxLevels)
    {
      levels := Walk(side, if side.Bid? then bids else asks, maxLevels);
    }
  }

  method Walk(side: Side, m: map<int, int>, maxLevels: nat) returns (levels: seq<Level>)
    ensures levels == Take(Enumerate(side, m), maxLevels)
  {
    var rest := m;
    levels := [];
    while |rest| > 0 && |levels| < maxLevels
      invariant |levels| <= maxLevels
      invariant Enumerate(side, m) == levels + Enumerate(side, rest)
      decreases |rest|
    {
      var b := First(side, rest);
      EnumerateStep(side, rest, levels);
      levels := levels + [Level(b, rest[b])];
      rest := rest - {b};
    }
  }

  lemma {:induction false} EnumerateStep(side: Side, rest: map<int, int>, levels: seq<Level>)
    requires |rest| > 0
    ensures var b := Best(side, rest);
      && levels + Enumerate(side, rest) == levels + [Level(b, rest[b])] + Enumerate(side, rest - {b})
      && |rest - {b}| == |rest| - 1
  {
    var b := Best(side, rest);
    assert (rest - {b}).Keys == rest.Keys - {b};
    assert Enumerate(side, rest) == [Level(b, rest[b])] + Enumerate(side, rest - {b});
  }

  method First(side: Side, m: map<int, int>) returns (b: int)
    requires |m| > 0
    ensures b == Best(side, m)
  {
    EndsExist(side, m);
    b :| b in m && forall k :: k in m && k != b ==> Better(side, b, k);
    BestUnique(side, m, b);
  }

  method Last(side: Side, m: map<int, int>) returns (w: int)
    requires |m| > 0
    ensures w == Worst(side, m)
  {
    EndsExist(side, m);
    w :| w in m && forall k :: k in m && k != w ==> Better(side, k, w);
    WorstUnique(side, m, w);
  }

  method Begin(side: Side, m: map<int, int>, t: Top) returns (r: Top)
    ensures TopOf(side, r, m)
  {
    if |m| > 0 {
      var b := First(side, m);
      r := Top(true, b, m[b]);
    } else {
      r := t.(present := false);
    }
  }

  /** trimDepth of one map. */
  method TrimDepth(side: Side, m: map<int, int>) returns (r: map<int, int>)
    ensures r == Trim(side, m)
  {
    r := m;
    while |r| > MAX_DEPTH
      invariant Trim(side, r) == Trim(side, m)
      decreases |r|
    {
      var w := Last(side, r);
      assert (r - {w}).Keys == r.Keys - {w};
      r := r - {w};
    }
  }

  lemma BestUnique(side: Side, m: map<int, int>, b: int)
    requires IsBest(side, m, b)
    ensures |m| > 0 && Best(side, m) == b
  {
    assert b in m.Keys;
  }

  lemma WorstUnique(side: Side, m: map<int, int>, w: int)
    requires IsWorst(side, m, w)
    ensures |m| > 0 && Worst(side, m) == w
  {
    assert w in m.Keys;
  }

  lemma {:induction false} TrimKeepsBest(side: Side, m: map<int, int>)
    ensures |Trim(side, m)| == Min(|m|, MAX_DEPTH)
    ensures |m| > 0 ==> Best(side, Trim(side, m)) == Best(side, m)
    ensures |m| > 0 ==> Trim(side, m)[Best(side, m)] == m[Best(side, m)]
    decreases |m|
  {
    if |m| > MAX_DEPTH {
      var w := Worst(side, m);
      var rest := m - {w};
      assert rest.Keys == m.Keys - {w};
      var b := Best(side, m);
      if b == w { AloneIsOne(side, m, b); }
      BestUnique(side, rest, b);
      TrimKeepsBest(side, rest);
    }
  }

  lemma {:induction false} TrimKeepsTop(side: Side, t: Top, m: map<int, int>)
    requires TopOf(side, t, m)
    ensures TopOf(side, t, Trim(side, m))
  {
    TrimKeepsBest(side, m);
  }

  lemma AloneIsOne(side: Side, m: map<int, int>, b: int)
    requires IsBest(side, m, b) && IsWorst(side, m, b)
    ensures |m| == 1
  {
    assert forall k :: k in m.Keys ==> k == b;
    assert m.Keys == {b};
  }
}
