/** One cold buffer of the fast book as words in memory, the order in which the writer's
    insert, remove and clear store them, and what a set of words shows of a book. */
module ColdLayout {
  import opened Arithmetic
  import opened PriceLevels
  import opened Books
  import opened Memory

  // Word offsets: price and quantity of each bid, then of each ask, then metadata.
  const COLD_BIDS: nat := 0
  const COLD_ASKS: nat := 40
  const COLD_BID_COUNT: nat := 80
  const COLD_ASK_COUNT: nat := 81
  const COLD_TIME: nat := 82
  const COLD_WORDS: nat := 83

  function PriceCell(side: Side, i: nat): nat { (if side.Bid? then COLD_BIDS else COLD_ASKS) + 2 * i }
  function QuantityCell(side: Side, i: nat): nat { PriceCell(side, i) + 1 }
  function CountCell(side: Side): nat { if side.Bid? then COLD_BID_COUNT else COLD_ASK_COUNT }

  function LevelAt(cells: seq<int>, side: Side, i: nat): Level
    requires |cells| == COLD_WORDS && i < MAX_DEPTH
  {
    Level(cells[PriceCell(side, i)], cells[QuantityCell(side, i)])
  }

  // ----- the stores of each operation, in program order -----

  function SetLevel(side: Side, i: nat, x: Level): seq<Write> {
    [(PriceCell(side, i), x.price), (QuantityCell(side, i), x.quantity)]
  }

  /** Moving s[r..n] up by one place, last level first. */
  function ShiftUpWrites(side: Side, s: seq<Level>, n: nat, r: nat): seq<Write>
    requires n <= |s|
  {
    if n <= r then [] else SetLevel(side, n, s[n - 1]) + ShiftUpWrites(side, s, n - 1, r)
  }

  /** Moving s[j + 1..] down by one place, first level first. */
  function ShiftDownWrites(side: Side, s: seq<Level>, j: nat): seq<Write>
    decreases |s| - j
  {
    if j + 1 >= |s| then [] else SetLevel(side, j, s[j + 1]) + ShiftDownWrites(side, s, j + 1)
  }

  /** The count a full side is given before its levels move. */
  function RoomWrites(side: Side, s: seq<Level>): seq<Write> {
    if |s| >= MAX_DEPTH then [(CountCell(side), MAX_DEPTH - 1)] else []
  }

  /** A new level at r: a full side first gives up its last level. */
  function SpliceWrites(side: Side, s: seq<Level>, r: nat, x: Level): seq<Write> {
    var n := Min(|s|, MAX_DEPTH - 1);
    RoomWrites(side, s) + ShiftUpWrites(side, s, n, r) + SetLevel(side, r, x) + [(CountCell(side), n + 1)]
  }

  ghost function InsertWrites(side: Side, s: seq<Level>, p: int, q: int): seq<Write> {
    var r := Rank(side, s, p);
    if Has(side, s, p) then [(QuantityCell(side, r), q)]
    else if r >= MAX_DEPTH then []
    else SpliceWrites(side, s, r, Level(p, q))
  }

  ghost function RemoveWrites(side: Side, s: seq<Level>, p: int): seq<Write> {
    if Has(side, s, p) then ShiftDownWrites(side, s, Rank(side, s, p)) + [(CountCell(side), |s| - 1)] else []
  }

  ghost function SideTickWrites(side: Side, s: seq<Level>, p: int, q: int): seq<Write> {
    if q > 0 then InsertWrites(side, s, p, q) else RemoveWrites(side, s, p)
  }

  /** The k-th word that the loop in ColdData::clear stores: a bid and an ask in each round. */
  function ClearedCell(k: nat): nat {
    PriceCell(if k % 4 < 2 then Bid else Ask, k / 4) + k % 4 % 2
  }

  function ClearColdWrites(): seq<Write> {
    [(COLD_BID_COUNT, 0), (COLD_ASK_COUNT, 0)] + seq(4 * MAX_DEPTH, k requires 0 <= k => (ClearedCell(k), 0))
  }

  /** All stores of one operation into the write buffer that holds book b. */
  ghost function OpWrites(b: Book, op: Op): seq<Write> {
    match op
    case Tick(BID, p, q, t) => SideTickWrites(Bid, b.bids, p, q) + [(COLD_TIME, t)]
    case Tick(_, p, q, t) => SideTickWrites(Ask, b.asks, p, q) + [(COLD_TIME, t)]
    case Clear => ClearColdWrites()
  }

  // ----- what a buffer shows -----

  ghost predicate ShowsLevels(cells: seq<int>, side: Side, s: seq<Level>) {
    && |cells| == COLD_WORDS && |s| <= MAX_DEPTH
    && forall i :: 0 <= i < |s| ==> LevelAt(cells, side, i) == s[i]
  }

  ghost predicate ShowsFullSide(cells: seq<int>, side: Side, s: seq<Level>) {
    ShowsLevels(cells, side, s) && cells[CountCell(side)] == |s|
  }

  /** The words hold the whole book, its counts and its timestamp. */
  ghost predicate ShowsBook(cells: seq<int>, b: Book) {
    ShowsFullSide(cells, Bid, b.bids) && ShowsFullSide(cells, Ask, b.asks) && cells[COLD_TIME] == b.time
  }

  // ----- what the stores leave behind -----

  /** The words that belong to one side. */
  predicate SideCell(side: Side, c: nat) {
    c == CountCell(side) || PriceCell(side, 0) <= c < PriceCell(side, MAX_DEPTH)
  }

  /** Stores into one side leave the rest of the buffer alone. */
  ghost predicate SameElsewhere(side: Side, cells: seq<int>, cells': seq<int>) {
    |cells'| == |cells| && forall c: nat :: c < |cells| && !SideCell(side, c) ==> cells'[c] == cells[c]
  }

  lemma {:induction false} StoreLevel(cells: seq<int>, side: Side, i: nat, x: Level, rest: seq<Write>)
    requires |cells| == COLD_WORDS && i < MAX_DEPTH
    ensures var cells' := cells[PriceCell(side, i) := x.price][QuantityCell(side, i) := x.quantity];
      && Store(cells, SetLevel(side, i, x) + rest) == Store(cells', rest)
      && LevelAt(cells', side, i) == x && SameElsewhere(side, cells, cells')
      && cells'[CountCell(side)] == cells[CountCell(side)]
      && forall k: nat :: k < MAX_DEPTH && k != i ==> LevelAt(cells', side, k) == LevelAt(cells, side, k)
  {
    StoreAppend(cells, SetLevel(side, i, x), rest);
    StoreTwo(cells, [], (PriceCell(side, i), x.price), (QuantityCell(side, i), x.quantity));
    assert [] + SetLevel(side, i, x) == SetLevel(side, i, x);
  }

  lemma {:induction false} ShiftUpStores(cells: seq<int>, side: Side, s: seq<Level>, n: nat, r: nat)
    requires |cells| == COLD_WORDS && n <= |s| && n < MAX_DEPTH
    ensures var cells' := Store(cells, ShiftUpWrites(side, s, n, r));
      && SameElsewhere(side, cells, cells') && cells'[CountCell(side)] == cells[CountCell(side)]
      && forall k: nat :: k < MAX_DEPTH ==>
           LevelAt(cells', side, k) == if r < k <= n then s[k - 1] else LevelAt(cells, side, k)
    decreases n
  {
    if n > r {
      StoreLevel(cells, side, n, s[n - 1], ShiftUpWrites(side, s, n - 1, r));
      ShiftUpStores(cells[PriceCell(side, n) := s[n - 1].price][QuantityCell(side, n) := s[n - 1].quantity],
                    side, s, n - 1, r);
    }
  }

  lemma {:induction false} ShiftDownStores(cells: seq<int>, side: Side, s: seq<Level>, j: nat)
    requires |cells| == COLD_WORDS && |s| <= MAX_DEPTH
    ensures var cells' := Store(cells, ShiftDownWrites(side, s, j));
      && SameElsewhere(side, cells, cells') && cells'[CountCell(side)] == cells[CountCell(side)]
      && forall k: nat :: k < MAX_DEPTH ==>
           LevelAt(cells', side, k) == if j <= k < |s| - 1 then s[k + 1] else LevelAt(cells, side, k)
    decreases |s| - j
  {
    if j + 1 < |s| {
      StoreLevel(cells, side, j, s[j + 1], ShiftDownWrites(side, s, j + 1));
      ShiftDownStores(cells[PriceCell(side, j) := s[j + 1].price][QuantityCell(side, j) := s[j + 1].quantity],
                      side, s, j + 1);
    }
  }

  /** One store of a side's count, after other stores into that side. */
  lemma {:induction false} StoreCount(cells: seq<int>, side: Side, ws: seq<Write>, n: int)
    requires |cells| == COLD_WORDS
    ensures Store(cells, ws + [(CountCell(side), n)]) == Store(cells, ws)[CountCell(side) := n]
  {
    assert (ws + [(CountCell(side), n)])[..|ws|] == ws;
  }

  lemma {:induction false} SpliceInParts(cells: seq<int>, side: Side, s: seq<Level>, r: nat, x: Level)
    requires |cells| == COLD_WORDS
    ensures var n := Min(|s|, MAX_DEPTH - 1);
      var moved := Store(Store(cells, RoomWrites(side, s)), ShiftUpWrites(side, s, n, r));
      Store(cells, SpliceWrites(side, s, r, x)) == Store(moved, SetLevel(side, r, x))[CountCell(side) := n + 1]
  {
    var n := Min(|s|, MAX_DEPTH - 1);
    var room, shifts, level := RoomWrites(side, s), ShiftUpWrites(side, s, n, r), SetLevel(side, r, x);
    StoreAppend(cells, room, shifts);
    StoreAppend(cells, room + shifts, level);
    StoreCount(cells, side, room + shifts + level, n + 1);
  }

  lemma {:induction false} RoomKeeps(cells: seq<int>, side: Side, s: seq<Level>)
    requires ShowsFullSide(cells, side, s)
    ensures var cells' := Store(cells, RoomWrites(side, s));
      SameElsewhere(side, cells, cells') && ShowsLevels(cells', side, s)
  {
    if |s| >= MAX_DEPTH {
      StoreOne(cells, (CountCell(side), MAX_DEPTH - 1));
      assert forall k: nat :: k < MAX_DEPTH ==>
        LevelAt(cells[CountCell(side) := MAX_DEPTH - 1], side, k) == LevelAt(cells, side, k);
    }
  }

  lemma {:induction false} SpliceStores(cells: seq<int>, side: Side, s: seq<Level>, r: nat, x: Level)
    requires ShowsFullSide(cells, side, s) && r <= |s| && r < MAX_DEPTH
    ensures var cells' := Store(cells, SpliceWrites(side, s, r, x));
      && SameElsewhere(side, cells, cells')
      && ShowsFullSide(cells', side, Take(s[..r] + [x] + s[r..], MAX_DEPTH))
  {
    var n := Min(|s|, MAX_DEPTH - 1);
    SpliceInParts(cells, side, s, r, x);
    RoomKeeps(cells, side, s);
    var room := Store(cells, RoomWrites(side, s));
    ShiftUpStores(room, side, s, n, r);
    var moved := Store(room, ShiftUpWrites(side, s, n, r));
    StoreLevel(moved, side, r, x, []);
    var c := Store(moved, SetLevel(side, r, x));
    assert SetLevel(side, r, x) + [] == SetLevel(side, r, x);
    SpliceShown(room, c, side, s, r, x);
    CountStored(c, side, Take(s[..r] + [x] + s[r..], MAX_DEPTH));
  }

  lemma CountStored(cells: seq<int>, side: Side, s: seq<Level>)
    requires ShowsLevels(cells, side, s)
    ensures var cells' := cells[CountCell(side) := |s|];
      SameElsewhere(side, cells, cells') && ShowsFullSide(cells', side, s)
  {
    assert forall k: nat :: k < MAX_DEPTH ==>
      LevelAt(cells[CountCell(side) := |s|], side, k) == LevelAt(cells, side, k);
  }

  /** Levels moved up and one put in their place are the spliced side. */
  lemma SpliceShown(before: seq<int>, after: seq<int>, side: Side, s: seq<Level>, r: nat, x: Level)
    requires ShowsLevels(before, side, s) && |after| == COLD_WORDS && r <= |s| && r < MAX_DEPTH
    requires forall k: nat :: k < MAX_DEPTH ==>
      LevelAt(after, side, k) ==
        if k == r then x else if r < k <= Min(|s|, MAX_DEPTH - 1) then s[k - 1] else LevelAt(before, side, k)
    ensures var t := Take(s[..r] + [x] + s[r..], MAX_DEPTH);
      |t| == Min(|s|, MAX_DEPTH - 1) + 1 && ShowsLevels(after, side, t)
  {
    var t := Take(s[..r] + [x] + s[r..], MAX_DEPTH);
    forall i | 0 <= i < |t|
      ensures LevelAt(after, side, i) == t[i]
    {
      assert t[i] == if i < r then s[i] else if i == r then x else s[i - 1];
    }
  }

  lemma {:induction false} RemoveStores(cells: seq<int>, side: Side, s: seq<Level>, r: nat)
    requires ShowsFullSide(cells, side, s) && r < |s|
    ensures var cells' := Store(cells, ShiftDownWrites(side, s, r) + [(CountCell(side), |s| - 1)]);
      SameElsewhere(side, cells, cells') && ShowsFullSide(cells', side, s[..r] + s[r + 1..])
  {
    ShiftDownStores(cells, side, s, r);
    StoreCount(cells, side, ShiftDownWrites(side, s, r), |s| - 1);
    var c, t := Store(cells, ShiftDownWrites(side, s, r)), s[..r] + s[r + 1..];
    forall i | 0 <= i < |t|
      ensures LevelAt(c, side, i) == t[i]
    {
      assert t[i] == if i < r then s[i] else s[i + 1];
    }
  }

  lemma {:induction false} ReplaceStores(cells: seq<int>, side: Side, s: seq<Level>, r: nat, q: int)
    requires ShowsFullSide(cells, side, s) && r < |s|
    ensures var cells' := Store(cells, [(QuantityCell(side, r), q)]);
      SameElsewhere(side, cells, cells') && ShowsFullSide(cells', side, s[r := Level(s[r].price, q)])
  {
    StoreOne(cells, (QuantityCell(side, r), q));
    assert LevelAt(cells, side, r) == s[r];
  }

  lemma {:induction false} InsertStores(cells: seq<int>, side: Side, s: seq<Level>, p: int, q: int)
    requires ShowsFullSide(cells, side, s)
    ensures var cells' := Store(cells, InsertWrites(side, s, p, q));
      SameElsewhere(side, cells, cells') && ShowsFullSide(cells', side, Take(Put(side, s, p, q), MAX_DEPTH))
  {
    var r, t := Rank(side, s, p), Put(side, s, p, q);
    if Has(side, s, p) {
      ReplaceStores(cells, side, s, r, q);
      assert Take(t, MAX_DEPTH) == t;
    } else if r < MAX_DEPTH {
      SpliceStores(cells, side, s, r, Level(p, q));
    } else {
      assert Take(t, MAX_DEPTH) == s;
    }
  }

  /** The stores of a tick turn words that show a side into words that show the stepped side. */
  lemma {:induction false} SideTickStores(cells: seq<int>, side: Side, s: seq<Level>, p: int, q: int)
    requires ShowsFullSide(cells, side, s)
    ensures var cells' := Store(cells, SideTickWrites(side, s, p, q));
      SameElsewhere(side, cells, cells') && ShowsFullSide(cells', side, TickSide(side, s, p, q))
  {
    if q > 0 {
      InsertStores(cells, side, s, p, q);
    } else if Has(side, s, p) {
      RemoveStores(cells, side, s, Rank(side, s, p));
    }
  }

  lemma OtherSideKept(side: Side, cells: seq<int>, cells': seq<int>, other: Side, s: seq<Level>)
    requires SameElsewhere(side, cells, cells') && other != side && ShowsFullSide(cells, other, s)
    ensures ShowsFullSide(cells', other, s)
  {
    assert forall i: nat :: i < MAX_DEPTH ==>
      !SideCell(side, PriceCell(other, i)) && !SideCell(side, QuantityCell(other, i));
    assert forall i: nat :: i < MAX_DEPTH ==> LevelAt(cells', other, i) == LevelAt(cells, other, i);
  }

  lemma {:induction false} ClearStores(cells: seq<int>, b: Book)
    requires ShowsBook(cells, b)
    ensures ShowsBook(Store(cells, ClearColdWrites()), Book([], [], b.time))
  {
    var two: seq<Write> := [(COLD_BID_COUNT, 0), (COLD_ASK_COUNT, 0)];
    var rest := ClearColdWrites()[2..];
    assert ClearColdWrites() == two + rest;
    StoreAppend(cells, two, rest);
    StoreTwo(cells, [], two[0], two[1]);
    assert [] + two == two;
    forall c: nat | COLD_BID_COUNT <= c < COLD_WORDS
      ensures Store(cells, ClearColdWrites())[c] == Store(cells, two)[c]
    {
      StoreMisses(Store(cells, two), rest, c);
    }
  }

  /** Run to the end, the stores of an operation turn words that show a book into words that
      show the book after it. */
  lemma {:induction false} OpStores(cells: seq<int>, b: Book, op: Op)
    requires ShowsBook(cells, b)
    ensures ShowsBook(Store(cells, OpWrites(b, op)), StepBook(b, op))
  {
    if op.Clear? {
      ClearStores(cells, b);
    } else {
      var side, other := if op.kind.BID? then Bid else Ask, if op.kind.BID? then Ask else Bid;
      var s := if op.kind.BID? then b.bids else b.asks;
      var ws := SideTickWrites(side, s, op.price, op.quantity);
      SideTickStores(cells, side, s, op.price, op.quantity);
      OtherSideKept(side, cells, Store(cells, ws), other, if op.kind.BID? then b.asks else b.bids);
      assert (ws + [(COLD_TIME, op.time)])[..|ws|] == ws;
    }
  }
}
