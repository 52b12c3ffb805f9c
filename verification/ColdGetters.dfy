/** The fast book's cold getters as reading programs over the words of one buffer: where each
    stands between two loads, which word it loads next and what it makes of it. */
module ColdGetters {
  import opened Arithmetic
  import opened PriceLevels
  import opened Books
  import opened ColdLayout
  import opened Options

  datatype Query =
    | Levels(side: Side, max: nat)   // getBidLevels, getAskLevels
    | LevelOf(side: Side, i: nat)    // getBidLevel, getAskLevel
    | FastLevels(side: Side)         // getBidLevelsFast, getAskLevelsFast
    | Snapshot                       // generateSnapshot
    | IsEmpty                        // empty

  datatype Reply =
    | LevelList(levels: seq<Level>)
    | One(level: Option<Level>)
    | FastList(levels: seq<Level>, count: int)
    | Snap(time: int, bids: seq<Level>, asks: seq<Level>)
    | Flag(empty: bool)

  /** head: the first word that is part of the reply (the snapshot's time, the fast list's
      count). bids: the snapshot's bids once it is at the asks. acc: levels collected so far. */
  datatype Cursor =
    | First
    | Count(side: Side, i: nat, head: int, bids: seq<Level>, acc: seq<Level>)
    | Test(side: Side, i: nat, limit: int, head: int, bids: seq<Level>, acc: seq<Level>)
    | Price(side: Side, i: nat, limit: int, head: int, bids: seq<Level>, acc: seq<Level>)
    | Quantity(side: Side, i: nat, limit: int, head: int, bids: seq<Level>, acc: seq<Level>, price: int)
    | Done(reply: Reply)

  /** A level index past the arrays is answered without a load. */
  function Start(q: Query): Cursor {
    if q.LevelOf? && q.i >= MAX_DEPTH then Done(One(None)) else First
  }

  /** The word loaded next. */
  function Want(q: Query, c: Cursor): nat
    requires !c.Done?
  {
    if c.First? then
      if q.Snapshot? then COLD_TIME else if q.IsEmpty? then COLD_BID_COUNT else CountCell(q.side)
    else if c.Count? then CountCell(c.side)
    else if c.Price? then PriceCell(c.side, c.i)
    else QuantityCell(c.side, c.i)
  }

  /** The head of the level loop. Only the plain lists load the count once, before the loop. */
  function Loop(q: Query, side: Side, i: nat, limit: int, head: int, bids: seq<Level>, acc: seq<Level>): Cursor {
    if !q.Levels? then Count(side, i, head, bids, acc)
    else if i < limit then Test(side, i, limit, head, bids, acc)
    else Done(LevelList(acc))
  }

  function Resume(q: Query, c: Cursor, v: int): Cursor
    requires !c.Done?
  {
    match c
    case First => (
      match q
      case Levels(side, max) => Loop(q, side, 0, if v < max then v else max, 0, [], [])
      case LevelOf(side, i) => if i < v then Price(side, i, 0, 0, [], []) else Done(One(None))
      case FastLevels(side) => Loop(q, side, 0, 0, v, [], [])
      case Snapshot => Loop(q, Bid, 0, 0, v, [], [])
      case IsEmpty => if v == 0 then Count(Ask, 0, 0, [], []) else Done(Flag(false)))
    case Count(side, i, head, bids, acc) =>
      if q.IsEmpty? then Done(Flag(v == 0))
      else if i < v then (if q.Snapshot? then Test(side, i, v, head, bids, acc) else Price(side, i, v, head, bids, acc))
      else if !q.Snapshot? then Done(FastList(acc, head))
      else if side.Bid? then Loop(q, Ask, 0, 0, head, acc, [])
      else Done(Snap(head, bids, acc))
    case Test(side, i, limit, head, bids, acc) =>
      if v > 0 then Price(side, i, limit, head, bids, acc) else Loop(q, side, i + 1, limit, head, bids, acc)
    case Price(side, i, limit, head, bids, acc) => Quantity(side, i, limit, head, bids, acc, v)
    case Quantity(side, i, limit, head, bids, acc, price) =>
      if q.LevelOf? then Done(One(Some(Level(price, v))))
      else Loop(q, side, i + 1, limit, head, bids, acc + [Level(price, v)])
  }

  /** Where a getter stands after a log of loads. */
  function Position(q: Query, log: seq<(nat, int)>): Cursor {
    if log == [] then Start(q)
    else
      var c := Position(q, log[..|log| - 1]);
      if c.Done? then c else Resume(q, c, log[|log| - 1].1)
  }

  // ----- what a getter should answer for a book -----

  function Answer(q: Query, b: Book): Reply {
    match q
    case Levels(side, max) => LevelList(Take(SideOf(b, side), max))
    case LevelOf(side, i) => One(if i < |SideOf(b, side)| then Some(SideOf(b, side)[i]) else None)
    case FastLevels(side) => FastList(SideOf(b, side), |SideOf(b, side)|)
    case Snapshot => Snap(b.time, b.bids, b.asks)
    case IsEmpty => Flag(b.bids == [] && b.asks == [])
  }

  // ----- a getter that reads one book answers for it -----

  /** In the level loop of side at level i, everything collected is from book b. */
  ghost predicate Collected(q: Query, b: Book, side: Side, i: nat, head: int, bids: seq<Level>, acc: seq<Level>) {
    var s := SideOf(b, side);
    && i <= |s|
    && match q
       case Levels(sd, _) => side == sd && acc == s[..i]
       case LevelOf(sd, k) => side == sd && i == k
       case FastLevels(sd) => side == sd && acc == s[..i] && head == |s|
       case Snapshot => acc == s[..i] && head == b.time && (side.Ask? ==> bids == b.bids)
       case IsEmpty => side.Ask? && b.bids == []
  }

  ghost predicate OnBook(q: Query, b: Book, c: Cursor) {
    match c
    case First => true
    case Done(reply) => reply == Answer(q, b)
    case Count(side, i, head, bids, acc) =>
      !q.Levels? && !q.LevelOf? && Collected(q, b, side, i, head, bids, acc)
    case _ =>
      && !q.IsEmpty? && Collected(q, b, c.side, c.i, c.head, c.bids, c.acc) && c.i < |SideOf(b, c.side)|
      && (q.Levels? ==> c.limit == Min(q.max, |SideOf(b, c.side)|) && c.i < c.limit)
      && (c.Quantity? ==> c.price == SideOf(b, c.side)[c.i].price)
  }

  lemma {:induction false} StartOnBook(q: Query, b: Book, cells: seq<int>)
    requires ShowsBook(cells, b)
    ensures OnBook(q, b, Position(q, []))
  {
  }

  lemma LoopOnBook(q: Query, b: Book, side: Side, i: nat, limit: int, head: int, bids: seq<Level>, acc: seq<Level>)
    requires !q.LevelOf? && !q.IsEmpty? && Collected(q, b, side, i, head, bids, acc)
    requires q.Levels? ==> limit == Min(q.max, |SideOf(b, side)|) && i <= limit
    ensures OnBook(q, b, Loop(q, side, i, limit, head, bids, acc))
  {
  }

  lemma FirstOnBook(q: Query, b: Book, cells: seq<int>)
    requires ShowsBook(cells, b)
    ensures Want(q, First) < COLD_WORDS && OnBook(q, b, Resume(q, First, cells[Want(q, First)]))
  {
    if q.Levels? { LoopOnBook(q, b, q.side, 0, Min(q.max, |SideOf(b, q.side)|), 0, [], []); }
  }

  lemma CountOnBook(q: Query, b: Book, c: Cursor, cells: seq<int>)
    requires ShowsBook(cells, b) && OnBook(q, b, c) && c.Count?
    ensures Want(q, c) < COLD_WORDS && OnBook(q, b, Resume(q, c, cells[Want(q, c)]))
  {
    var s := SideOf(b, c.side);
    if !q.IsEmpty? && c.i >= |s| { assert c.acc == s; }
  }

  lemma LevelOnBook(q: Query, b: Book, c: Cursor, cells: seq<int>)
    requires ShowsBook(cells, b) && BookOk(b) && OnBook(q, b, c) && (c.Test? || c.Price?)
    ensures Want(q, c) < COLD_WORDS && OnBook(q, b, Resume(q, c, cells[Want(q, c)]))
  {
    assert LevelAt(cells, c.side, c.i) == SideOf(b, c.side)[c.i];
  }

  lemma QuantityOnBook(q: Query, b: Book, c: Cursor, cells: seq<int>)
    requires ShowsBook(cells, b) && OnBook(q, b, c) && c.Quantity?
    ensures Want(q, c) < COLD_WORDS && OnBook(q, b, Resume(q, c, cells[Want(q, c)]))
  {
    var s := SideOf(b, c.side);
    assert LevelAt(cells, c.side, c.i) == s[c.i];
    if !q.LevelOf? {
      assert s[..c.i] + [s[c.i]] == s[..c.i + 1];
      LoopOnBook(q, b, c.side, c.i + 1, c.limit, c.head, c.bids, c.acc + [s[c.i]]);
    }
  }

  /** One load from words that show the book keeps the getter on the book: the validity test
      drops no level, since every stored quantity is positive. */
  lemma LoadOnBook(q: Query, b: Book, c: Cursor, cells: seq<int>)
    requires ShowsBook(cells, b) && BookOk(b) && OnBook(q, b, c) && !c.Done?
    ensures Want(q, c) < COLD_WORDS && OnBook(q, b, Resume(q, c, cells[Want(q, c)]))
  {
    if c.First? {
      FirstOnBook(q, b, cells);
    } else if c.Count? {
      CountOnBook(q, b, c, cells);
    } else if c.Quantity? {
      QuantityOnBook(q, b, c, cells);
    } else {
      LevelOnBook(q, b, c, cells);
    }
  }

  // ----- and it does answer -----

  /** One load from the given words. */
  function LoadOne(q: Query, c: Cursor, cells: seq<int>): Cursor {
    if c.Done? || Want(q, c) >= |cells| then c else Resume(q, c, cells[Want(q, c)])
  }

  function LoadAll(q: Query, c: Cursor, cells: seq<int>, n: nat): Cursor {
    if n == 0 then c else LoadOne(q, LoadAll(q, c, cells, n - 1), cells)
  }

  /** Loads left at most, on a book: four a level, and the counts. */
  ghost function Left(q: Query, b: Book, c: Cursor): nat
    requires OnBook(q, b, c)
  {
    if c.Done? then 0
    else if c.First? then 4 * (|b.bids| + |b.asks|) + 20
    else
      var after := if q.Snapshot? && c.side.Bid? then |b.asks| + 1 else 0;
      var levels := |SideOf(b, c.side)| - c.i + after;
      4 * levels + if c.Count? then 4 else if c.Test? then 3 else if c.Price? then 2 else 1
  }

  lemma LoadShrinks(q: Query, b: Book, c: Cursor, cells: seq<int>)
    requires ShowsBook(cells, b) && BookOk(b) && OnBook(q, b, c) && !c.Done?
    ensures Want(q, c) < COLD_WORDS && OnBook(q, b, Resume(q, c, cells[Want(q, c)]))
    ensures Left(q, b, Resume(q, c, cells[Want(q, c)])) < Left(q, b, c)
  {
    LoadOnBook(q, b, c, cells);
    if c.Test? { assert LevelAt(cells, c.side, c.i) == SideOf(b, c.side)[c.i]; }
  }

  lemma {:induction false} LoadAllOnBook(q: Query, b: Book, c: Cursor, cells: seq<int>, n: nat)
    requires ShowsBook(cells, b) && BookOk(b) && OnBook(q, b, c)
    ensures var d := LoadAll(q, c, cells, n); OnBook(q, b, d) && (d.Done? || Left(q, b, d) + n <= Left(q, b, c))
  {
    if n > 0 {
      LoadAllOnBook(q, b, c, cells, n - 1);
      var d := LoadAll(q, c, cells, n - 1);
      if !d.Done? { LoadShrinks(q, b, d, cells); }
    }
  }

  /** On words that show a book every getter ends, after at most 180 loads, with the book's answer. */
  lemma {:induction false} GettersAnswer(q: Query, b: Book, cells: seq<int>)
    requires ShowsBook(cells, b) && BookOk(b)
    ensures LoadAll(q, Start(q), cells, 180) == Done(Answer(q, b))
  {
    StartOnBook(q, b, cells);
    assert Position(q, []) == Start(q);
    LoadAllOnBook(q, b, Start(q), cells, 180);
  }
}
