/** Whole books as values: what a sequence of update and clear calls makes of the fast book's
    level arrays and of the simple book's trimmed maps, and that the two agree. */
module Books {
  import opened PriceLevels

  datatype TickKind = BID | ASK | TRADE
  datatype Op = Tick(kind: TickKind, price: int, quantity: int, time: nat) | Clear

  datatype Book = Book(bids: seq<Level>, asks: seq<Level>, time: nat)
  function SideOf(b: Book, side: Side): seq<Level> { if side.Bid? then b.bids else b.asks }

  datatype MapBook = MapBook(bids: map<int, int>, asks: map<int, int>, time: nat)

  ghost function StepBook(b: Book, op: Op): Book {
    match op
    case Tick(BID, p, q, t) => Book(TickSide(Bid, b.bids, p, q), b.asks, t)
    case Tick(_, p, q, t) => Book(b.bids, TickSide(Ask, b.asks, p, q), t)
    case Clear => Book([], [], b.time)
  }

  /** Both sides are trimmed on every tick, not only the one that changed. */
  ghost function StepMap(m: MapBook, op: Op): MapBook {
    match op
    case Tick(BID, p, q, t) => MapBook(TickMap(Bid, m.bids, p, q), Trim(Ask, m.asks), t)
    case Tick(_, p, q, t) => MapBook(Trim(Bid, m.bids), TickMap(Ask, m.asks, p, q), t)
    case Clear => MapBook(map[], map[], m.time)
  }

  ghost function RunBook(ops: seq<Op>): Book {
    if ops == [] then Book([], [], 0) else StepBook(RunBook(ops[..|ops| - 1]), ops[|ops| - 1])
  }

  ghost function RunMap(ops: seq<Op>): MapBook {
    if ops == [] then MapBook(map[], map[], 0) else StepMap(RunMap(ops[..|ops| - 1]), ops[|ops| - 1])
  }

  ghost predicate SideOk(side: Side, s: seq<Level>) {
    Sorted(side, s) && Positive(s) && |s| <= MAX_DEPTH
  }

  ghost predicate BookOk(b: Book) { SideOk(Bid, b.bids) && SideOk(Ask, b.asks) }

  /** The traversal of the simple book's maps. */
  ghost function Listing(m: MapBook): Book {
    Book(Enumerate(Bid, m.bids), Enumerate(Ask, m.asks), m.time)
  }

  // ----- one tick on one side -----

  lemma ReplaceRepresents(side: Side, s: seq<Level>, m: map<int, int>, r: nat, q: int)
    requires Represents(side, s, m) && r < |s|
    ensures Represents(side, s[r := Level(s[r].price, q)], m[s[r].price := q])
  {
    var p := s[r].price;
    var s' := s[r := Level(p, q)];
    forall k | k in m[p := q]
      ensures Occurs(s', k)
    {
      assert Occurs(s, k);
      var i :| 0 <= i < |s| && s[i].price == k;
      assert s'[i].price == k;
    }
  }

  lemma SpliceRepresents(side: Side, s: seq<Level>, m: map<int, int>, r: nat, x: Level)
    requires Represents(side, s, m) && r <= |s| && x.price !in m
    requires Sorted(side, s[..r] + [x] + s[r..])
    ensures Represents(side, s[..r] + [x] + s[r..], m[x.price := x.quantity])
  {
    var s' := s[..r] + [x] + s[r..];
    forall i | 0 <= i < |s'|
      ensures s'[i].price in m[x.price := x.quantity] && m[x.price := x.quantity][s'[i].price] == s'[i].quantity
    {
      assert s'[i] == if i < r then s[i] else if i == r then x else s[i - 1];
    }
    forall k | k in m[x.price := x.quantity]
      ensures Occurs(s', k)
    {
      assert s'[r] == x;
      if k != x.price {
        assert Occurs(s, k);
        var i :| 0 <= i < |s| && s[i].price == k;
        assert s'[if i < r then i else i + 1] == s[i];
      }
    }
  }

  lemma PutRepresents(side: Side, s: seq<Level>, m: map<int, int>, p: int, q: int)
    requires Represents(side, s, m)
    ensures Represents(side, Put(side, s, p, q), m[p := q])
  {
    PutKeeps(side, s, p, q);
    OccursIsHas(side, s, p);
    var r := Rank(side, s, p);
    if Has(side, s, p) {
      ReplaceRepresents(side, s, m, r, q);
    } else {
      SpliceRepresents(side, s, m, r, Level(p, q));
    }
  }

  lemma CutRepresents(side: Side, s: seq<Level>, m: map<int, int>, r: nat)
    requires Represents(side, s, m) && r < |s|
    ensures Represents(side, s[..r] + s[r + 1..], m - {s[r].price})
  {
    var s' := s[..r] + s[r + 1..];
    assert forall i :: 0 <= i < |s'| ==> s'[i] == s[if i < r then i else i + 1];
    forall k | k in m && k != s[r].price
      ensures Occurs(s', k)
    {
      assert Occurs(s, k);
      var i :| 0 <= i < |s| && s[i].price == k;
      assert s'[if i < r then i else i - 1] == s[i];
    }
  }

  lemma DropRepresents(side: Side, s: seq<Level>, m: map<int, int>, p: int)
    requires Represents(side, s, m)
    ensures Represents(side, Drop(side, s, p), m - {p})
  {
    OccursIsHas(side, s, p);
    if Has(side, s, p) {
      CutRepresents(side, s, m, Rank(side, s, p));
    } else {
      assert p !in m;
      assert m - {p} == m;
    }
  }

  lemma LastIsWorst(side: Side, s: seq<Level>, m: map<int, int>)
    requires Represents(side, s, m) && s != []
    ensures |m| > 0 && Worst(side, m) == s[|s| - 1].price
    ensures Represents(side, s[..|s| - 1], m - {s[|s| - 1].price})
  {
    var n := |s| - 1;
    var w := s[n].price;
    assert w in m.Keys;
    forall k | k in m && k != w
      ensures Better(side, k, w) && Occurs(s[..n], k)
    {
      assert Occurs(s, k);
      var i :| 0 <= i < |s| && s[i].price == k;
      assert s[..n][i] == s[i];
    }
  }

  /** Trimming the map is cutting the listing. */
  lemma {:induction false} TrimRepresents(side: Side, s: seq<Level>, m: map<int, int>)
    requires Represents(side, s, m)
    ensures Represents(side, Take(s, MAX_DEPTH), Trim(side, m))
    decreases |s|
  {
    RepresentsSize(side, s, m);
    if |m| > MAX_DEPTH {
      var n := |s| - 1;
      LastIsWorst(side, s, m);
      var rest := m - {Worst(side, m)};
      assert Trim(side, m) == Trim(side, rest);
      TrimRepresents(side, s[..n], rest);
      assert Take(s[..n], MAX_DEPTH) == Take(s, MAX_DEPTH);
    } else {
      assert Take(s, MAX_DEPTH) == s;
    }
  }

  lemma TickRepresents(side: Side, s: seq<Level>, m: map<int, int>, p: int, q: int)
    requires Represents(side, s, m) && SideOk(side, s)
    ensures Represents(side, TickSide(side, s, p, q), TickMap(side, m, p, q))
    ensures SideOk(side, TickSide(side, s, p, q))
  {
    TickSideKeeps(side, s, p, q);
    if q > 0 {
      PutRepresents(side, s, m, p, q);
      TrimRepresents(side, Put(side, s, p, q), m[p := q]);
    } else {
      DropRepresents(side, s, m, p);
      var s' := Drop(side, s, p);
      TrimRepresents(side, s', m - {p});
      assert Take(s', MAX_DEPTH) == s';
    }
  }

  // ----- whole runs -----

  ghost predicate Simulates(b: Book, m: MapBook) {
    && Represents(Bid, b.bids, m.bids) && Represents(Ask, b.asks, m.asks)
    && BookOk(b) && b.time == m.time
  }

  lemma StepSimulates(b: Book, m: MapBook, op: Op)
    requires Simulates(b, m)
    ensures Simulates(StepBook(b, op), StepMap(m, op))
  {
    if op.Tick? {
      TrimRepresents(Bid, b.bids, m.bids);
      TrimRepresents(Ask, b.asks, m.asks);
      assert Take(b.bids, MAX_DEPTH) == b.bids && Take(b.asks, MAX_DEPTH) == b.asks;
      if op.kind.BID? {
        TickRepresents(Bid, b.bids, m.bids, op.price, op.quantity);
      } else {
        TickRepresents(Ask, b.asks, m.asks, op.price, op.quantity);
      }
    }
  }

  lemma {:induction false} RunSimulates(ops: seq<Op>)
    ensures Simulates(RunBook(ops), RunMap(ops))
  {
    if ops != [] {
      var n := |ops| - 1;
      RunSimulates(ops[..n]);
      StepSimulates(RunBook(ops[..n]), RunMap(ops[..n]), ops[n]);
    }
  }

  /** The fast book refines the simple one: after any sequence of updates and clears its
      arrays are the in-order listing of the simple book's trimmed maps, with the same
      timestamp, strictly sorted, all quantities positive and at most MAX_DEPTH deep. */
  lemma {:induction false} FastRefinesSimple(ops: seq<Op>)
    ensures RunBook(ops) == Listing(RunMap(ops))
    ensures BookOk(RunBook(ops)) && Ladder(RunBook(ops).bids, RunBook(ops).asks)
  {
    RunSimulates(ops);
    RepresentsIsEnumerate(Bid, RunBook(ops).bids, RunMap(ops).bids);
    RepresentsIsEnumerate(Ask, RunBook(ops).asks, RunMap(ops).asks);
  }

  /** hist lists the books that a sequence of operations leads through. */
  ghost predicate Follows(hist: seq<Book>, ops: seq<Op>) {
    && |hist| == |ops| + 1 && hist[0] == Book([], [], 0)
    && forall k {:trigger ops[k]} :: 0 <= k < |ops| ==> hist[k + 1] == StepBook(hist[k], ops[k])
  }

  lemma FollowsOn(hist: seq<Book>, ops: seq<Op>, op: Op)
    requires Follows(hist, ops)
    ensures Follows(hist + [StepBook(hist[|ops|], op)], ops + [op])
  {
  }

  /** Every book on the way is the listing of the simple book after as many operations. */
  lemma {:induction false} FollowsIsRun(hist: seq<Book>, ops: seq<Op>, k: nat)
    requires Follows(hist, ops) && k <= |ops|
    ensures hist[k] == RunBook(ops[..k]) == Listing(RunMap(ops[..k])) && BookOk(hist[k])
  {
    FollowsEach(hist, ops, k);
    FastRefinesSimple(ops[..k]);
  }

  lemma {:induction false} FollowsEach(hist: seq<Book>, ops: seq<Op>, k: nat)
    requires Follows(hist, ops) && k <= |ops|
    ensures hist[k] == RunBook(ops[..k])
  {
    if k > 0 {
      FollowsEach(hist, ops, k - 1);
      assert ops[..k][..k - 1] == ops[..k - 1];
      assert hist[k - 1 + 1] == StepBook(hist[k - 1], ops[k - 1]);
    }
  }
}
