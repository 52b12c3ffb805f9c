/** The fast book's hot structure as words in memory, the order in which the writer stores
    them, and what a set of words shows of a book. */
module HotLayout {
  import opened Arithmetic
  import opened PriceLevels
  import opened Books
  import opened Memory

  // Word offsets: prices and quantities of the top bids, then of the top asks, then metadata.
  const BID_BASE: nat := 0
  const ASK_BASE: nat := 10
  const HOT_TIME: nat := 20
  const BID_COUNT: nat := 21
  const ASK_COUNT: nat := 22
  const HOT_WORDS: nat := 23

  /** Copying the first n levels of a side: price and quantity of each level in turn. */
  ghost function SideWrites(base: nat, s: seq<Level>, n: nat): seq<Write>
    requires n <= |s|
  {
    if n == 0 then []
    else SideWrites(base, s, n - 1) + [(base + n - 1, s[n - 1].price), (base + HOT_DEPTH + n - 1, s[n - 1].quantity)]
  }

  ghost function HotCount(s: seq<Level>): nat { Min(HOT_DEPTH, |s|) }

  /** All stores of one rebuild, in program order. */
  ghost function RebuildWrites(b: Book): seq<Write> {
    [(BID_COUNT, HotCount(b.bids))] + SideWrites(BID_BASE, b.bids, HotCount(b.bids))
    + [(ASK_COUNT, HotCount(b.asks))] + SideWrites(ASK_BASE, b.asks, HotCount(b.asks))
    + [(HOT_TIME, b.time)]
  }

  ghost function ZeroStores(n: nat): seq<Write> { seq(n, i requires 0 <= i => (i, 0)) }

  /** All stores of clear: both counts, then every price and quantity word. */
  ghost function ClearWrites(): seq<Write> {
    [(BID_COUNT, 0), (ASK_COUNT, 0)] + ZeroStores(HOT_TIME)
  }

  ghost predicate ShowsSide(cells: seq<int>, base: nat, count: int, s: seq<Level>)
    requires base + 2 * HOT_DEPTH <= |cells|
  {
    && count == HotCount(s)
    && forall i :: 0 <= i < HotCount(s) ==>
         cells[base + i] == s[i].price && cells[base + HOT_DEPTH + i] == s[i].quantity
  }

  /** The words show the top HOT_DEPTH levels of the book on both sides. */
  ghost predicate Shows(cells: seq<int>, b: Book) {
    && |cells| == HOT_WORDS
    && ShowsSide(cells, BID_BASE, cells[BID_COUNT], b.bids)
    && ShowsSide(cells, ASK_BASE, cells[ASK_COUNT], b.asks)
  }

  // ----- what the stores leave behind -----

  lemma {:induction false} SideWritesShow(cells: seq<int>, base: nat, s: seq<Level>, n: nat)
    requires n <= |s| && n <= HOT_DEPTH && base + 2 * HOT_DEPTH <= |cells|
    ensures var r := Store(cells, SideWrites(base, s, n));
      && (forall i :: 0 <= i < n ==> r[base + i] == s[i].price && r[base + HOT_DEPTH + i] == s[i].quantity)
      && (forall k :: 0 <= k < |cells| && !(base <= k < base + 2 * HOT_DEPTH) ==> r[k] == cells[k])
  {
    if n > 0 {
      SideWritesShow(cells, base, s, n - 1);
      var ws := SideWrites(base, s, n - 1);
      var w, v := (base + n - 1, s[n - 1].price), (base + HOT_DEPTH + n - 1, s[n - 1].quantity);
      StoreTwo(cells, ws, w, v);
    }
  }

  ghost function AfterBids(cells: seq<int>, b: Book): (r: seq<int>)
    requires |cells| == HOT_WORDS
    ensures |r| == HOT_WORDS
  {
    Store(cells[BID_COUNT := HotCount(b.bids)], SideWrites(BID_BASE, b.bids, HotCount(b.bids)))
  }

  ghost function AfterAsks(cells: seq<int>, b: Book): (r: seq<int>)
    requires |cells| == HOT_WORDS
    ensures |r| == HOT_WORDS
  {
    Store(cells[ASK_COUNT := HotCount(b.asks)], SideWrites(ASK_BASE, b.asks, HotCount(b.asks)))
  }

  lemma {:induction false} RebuildInTwoHalves(cells: seq<int>, b: Book)
    requires |cells| == HOT_WORDS
    ensures Store(cells, RebuildWrites(b)) == AfterAsks(AfterBids(cells, b), b)[HOT_TIME := b.time]
  {
    var w1: seq<Write> := [(BID_COUNT, HotCount(b.bids))];
    var w2 := SideWrites(BID_BASE, b.bids, HotCount(b.bids));
    var w3: seq<Write> := [(ASK_COUNT, HotCount(b.asks))];
    var w4 := SideWrites(ASK_BASE, b.asks, HotCount(b.asks));
    var w5: seq<Write> := [(HOT_TIME, b.time)];
    StoreOne(cells, w1[0]);
    StoreAppend(cells, w1, w2);
    StoreAppend(cells, w1 + w2, w3);
    StoreOne(Store(cells, w1 + w2), w3[0]);
    StoreAppend(cells, w1 + w2 + w3, w4);
    StoreAppend(cells, w1 + w2 + w3 + w4, w5);
    StoreOne(Store(cells, w1 + w2 + w3 + w4), w5[0]);
  }

  lemma BidsShown(cells: seq<int>, b: Book)
    requires |cells| == HOT_WORDS
    ensures var r := AfterBids(cells, b); ShowsSide(r, BID_BASE, r[BID_COUNT], b.bids)
  {
    SideWritesShow(cells[BID_COUNT := HotCount(b.bids)], BID_BASE, b.bids, HotCount(b.bids));
  }

  lemma AsksShown(cells: seq<int>, b: Book)
    requires |cells| == HOT_WORDS
    ensures var r := AfterAsks(cells, b);
      && ShowsSide(r, ASK_BASE, r[ASK_COUNT], b.asks)
      && r[BID_COUNT] == cells[BID_COUNT] && r[..ASK_BASE] == cells[..ASK_BASE]
  {
    SideWritesShow(cells[ASK_COUNT := HotCount(b.asks)], ASK_BASE, b.asks, HotCount(b.asks));
  }

  lemma BidsKept(cells: seq<int>, r: seq<int>, s: seq<Level>)
    requires |cells| == |r| == HOT_WORDS && r[..ASK_BASE] == cells[..ASK_BASE] && r[BID_COUNT] == cells[BID_COUNT]
    requires ShowsSide(cells, BID_BASE, cells[BID_COUNT], s)
    ensures ShowsSide(r, BID_BASE, r[BID_COUNT], s)
  {
    forall k | 0 <= k < ASK_BASE
      ensures r[k] == cells[k]
    {
      assert r[k] == r[..ASK_BASE][k] == cells[..ASK_BASE][k];
    }
  }

  lemma {:induction false} RebuildShows(cells: seq<int>, b: Book)
    requires |cells| == HOT_WORDS
    ensures Shows(Store(cells, RebuildWrites(b)), b)
  {
    RebuildInTwoHalves(cells, b);
    var c := AfterBids(cells, b);
    var d := AfterAsks(c, b);
    BidsShown(cells, b);
    AsksShown(c, b);
    BidsKept(c, d, b.bids);
    BidsKept(d, d[HOT_TIME := b.time], b.bids);
  }

  lemma {:induction false} ClearShows(cells: seq<int>, b: Book)
    requires |cells| == HOT_WORDS && b.bids == [] && b.asks == []
    ensures Shows(Store(cells, ClearWrites()), b)
  {
    var two: seq<Write> := [(BID_COUNT, 0), (ASK_COUNT, 0)];
    StoreAppend(cells, two, ZeroStores(HOT_TIME));
    StoreTwo(cells, [], (BID_COUNT, 0), (ASK_COUNT, 0));
    assert [] + two == two;
    StoreMisses(Store(cells, two), ZeroStores(HOT_TIME), BID_COUNT);
    StoreMisses(Store(cells, two), ZeroStores(HOT_TIME), ASK_COUNT);
  }

  // ----- skipping the rebuild -----

  ghost predicate SameTop(b: Book, b': Book) {
    Take(b.bids, HOT_DEPTH) == Take(b'.bids, HOT_DEPTH) && Take(b.asks, HOT_DEPTH) == Take(b'.asks, HOT_DEPTH)
  }

  /** Words that show a book show every book with the same top levels. */
  lemma SameTopShows(cells: seq<int>, b: Book, b': Book)
    requires Shows(cells, b) && SameTop(b, b')
    ensures Shows(cells, b')
  {
    SameTopSide(cells, BID_BASE, cells[BID_COUNT], b.bids, b'.bids);
    SameTopSide(cells, ASK_BASE, cells[ASK_COUNT], b.asks, b'.asks);
  }

  lemma SameTopSide(cells: seq<int>, base: nat, count: int, s: seq<Level>, s': seq<Level>)
    requires base + 2 * HOT_DEPTH <= |cells| && ShowsSide(cells, base, count, s)
    requires Take(s, HOT_DEPTH) == Take(s', HOT_DEPTH)
    ensures ShowsSide(cells, base, count, s')
  {
    assert HotCount(s) == |Take(s, HOT_DEPTH)| == |Take(s', HOT_DEPTH)| == HotCount(s');
    forall i | 0 <= i < HotCount(s')
      ensures s'[i] == s[i]
    {
      assert s'[i] == Take(s', HOT_DEPTH)[i] == Take(s, HOT_DEPTH)[i];
    }
  }
}
