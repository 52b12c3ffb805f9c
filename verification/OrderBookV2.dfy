/** The fast order book: two cold buffers of sorted level arrays, a hot copy of the top levels
    behind a version counter, and the calls that keep them. Concurrent readers are treated in
    HotReads and DoubleBuffer; here each call runs to completion. */
module OrderBookV2 {
  import opened Arithmetic
  import opened PriceLevels
  import opened Books
  import opened HotLayout
  import opened ColdLayout
  import opened Memory
  import LevelArrays
  import opened Options

  /** One cold buffer. */
  class ColdData {
    const bids: array<Level>
    const asks: array<Level>
    var bidCount: nat
    var askCount: nat
    var time: nat

    ghost predicate Valid()
      reads this
    {
      && bids.Length == asks.Length == MAX_DEPTH && bids != asks
      && bidCount <= MAX_DEPTH && askCount <= MAX_DEPTH
    }

    ghost function View(): Book
      requires Valid()
      reads this, bids, asks
    {
      Book(bids[..bidCount], asks[..askCount], time)
    }

    constructor ()
      ensures Valid() && View() == Book([], [], 0)
      ensures fresh(bids) && fresh(asks)
      ensures bids[..] == seq(MAX_DEPTH, _ => Level(0, 0)) && asks[..] == seq(MAX_DEPTH, _ => Level(0, 0))
    {
      bids := new Level[MAX_DEPTH](_ => Level(0, 0));
      asks := new Level[MAX_DEPTH](_ => Level(0, 0));
      bidCount, askCount, time := 0, 0, 0;
    }

    /** ColdData::clear: the timestamp stays. stores lists the words written. */
    method Clear() returns (ghost stores: seq<Write>)
      requires Valid()
      modifies this, bids, asks
      ensures Valid() && View() == Book([], [], old(time))
      ensures stores == ClearColdWrites()
    {
      bidCount, askCount := 0, 0;
      stores := ClearColdWrites()[..2];
      for i := 0 to MAX_DEPTH
        invariant Valid() && bidCount == 0 && askCount == 0 && time == old(time)
        invariant stores == ClearColdWrites()[..2 + 4 * i]
      {
        bids[i] := Level(0, 0);
        asks[i] := Level(0, 0);
        ClearRound(i);
        stores := stores + (SetLevel(Bid, i, Level(0, 0)) + SetLevel(Ask, i, Level(0, 0)));
      }
    }

    /** A tick on the side it names; anything that is not a bid goes to the asks. */
    method Apply(tick: Op) returns (pos: int, ghost stores: seq<Write>)
      requires Valid() && BookOk(View()) && tick.Tick?
      modifies this, bids, asks
      ensures Valid() && View() == StepBook(old(View()), tick)
      ensures !(0 <= pos < HOT_DEPTH) ==> SameTop(old(View()), View())
      ensures stores == OpWrites(old(View()), tick)
    {
      if tick.kind.BID? {
        bidCount, pos, stores := LevelArrays.Tick(Bid, bids, bidCount, tick.price, tick.quantity);
      } else {
        askCount, pos, stores := LevelArrays.Tick(Ask, asks, askCount, tick.price, tick.quantity);
      }
      time := tick.time;
      stores := stores + [(COLD_TIME, tick.time)];
    }

    /** The whole-structure memcpy of swapColdBuffers. */
    method CopyFrom(src: ColdData)
      requires Valid() && src.Valid()
      requires src.bids != bids && src.bids != asks && src.asks != bids && src.asks != asks
      modifies this, bids, asks
      ensures Valid() && View() == old(src.View())
      ensures src != this ==> src.Valid() && src.View() == old(src.View())
    {
      bidCount, askCount, time := src.bidCount, src.askCount, src.time;
      forall i | 0 <= i < MAX_DEPTH { bids[i] := src.bids[i]; }
      forall i | 0 <= i < MAX_DEPTH { asks[i] := src.asks[i]; }
      assert bids[..bidCount] == old(src.bids[..src.bidCount]);
      assert asks[..askCount] == old(src.asks[..src.askCount]);
    }
  }

  class OrderBookV2 {
    const hot: array<int>          // HOT_WORDS words, laid out as in HotLayout
    var version: nat
    const cold0: ColdData
    const cold1: ColdData
    var active: nat                // index of the published buffer
    var writeIndex: nat            // index of the buffer the writer changes
    var dirty: bool

    function Buffer(i: nat): ColdData { if i == 0 then cold0 else cold1 }

    ghost predicate Shape()
      reads this, cold0, cold1
    {
      && hot.Length == HOT_WORDS && active <= 1 && writeIndex <= 1
      && cold0 != cold1 && cold0.Valid() && cold1.Valid()
      && cold0.bids != cold1.bids && cold0.bids != cold1.asks
      && cold0.asks != cold1.bids && cold0.asks != cold1.asks
    }

    /** What holds between calls: both buffers hold the same sorted book of positive levels,
        the hot words show its top, and no hot write is pending. */
    ghost predicate Valid()
      reads this, hot, cold0, cold0.bids, cold0.asks, cold1, cold1.bids, cold1.asks
    {
      && Shape() && !dirty && version % 2 == 0
      && cold0.View() == cold1.View()
      && BookOk(cold0.View())
      && Shows(hot[..], cold0.View())
    }

    ghost function View(): Book
      requires Shape()
      reads this, cold0, cold0.bids, cold0.asks, cold1, cold1.bids, cold1.asks
    {
      Buffer(active).View()
    }

    /** Both buffer roles start at buffer 0. */
    constructor ()
      ensures Valid() && View() == RunBook([])
      ensures active == writeIndex == 0
      ensures fresh(hot) && fresh(cold0) && fresh(cold0.bids) && fresh(cold0.asks)
      ensures fresh(cold1) && fresh(cold1.bids) && fresh(cold1.asks)
    {
      hot := new int[HOT_WORDS](_ => 0);
      version, active, writeIndex, dirty := 0, 0, 0, false;
      cold0 := new ColdData();
      cold1 := new ColdData();
      new;
    }

    /** updateLevels: apply the tick to the write buffer and note whether the top is touched. */
    method UpdateLevels(tick: Op)
      requires Shape() && BookOk(Buffer(writeIndex).View()) && tick.Tick?
      modifies this`dirty, Buffer(writeIndex), Buffer(writeIndex).bids, Buffer(writeIndex).asks
      ensures Shape() && Buffer(writeIndex).View() == StepBook(old(Buffer(writeIndex).View()), tick)
      ensures !dirty ==> SameTop(old(Buffer(writeIndex).View()), Buffer(writeIndex).View())
    {
      var pos, stores := Buffer(writeIndex).Apply(tick);
      dirty := 0 <= pos < HOT_DEPTH;
    }

    /** The copy loop of one side of rebuildHotData. */
    method CopySide(base: nat, levels: array<Level>, n: nat)
      requires hot.Length == HOT_WORDS && n <= HOT_DEPTH && n <= levels.Length
      requires base == BID_BASE || base == ASK_BASE
      modifies hot
      ensures hot[..] == Store(old(hot[..]), SideWrites(base, levels[..], n))
    {
      for i := 0 to n
        invariant hot[..] == Store(old(hot[..]), SideWrites(base, levels[..], i))
      {
        ghost var before := hot[..];
        StoreTwo(old(hot[..]), SideWrites(base, levels[..], i),
                 (base + i, levels[i].price), (base + HOT_DEPTH + i, levels[i].quantity));
        hot[base + i] := levels[i].price;
        hot[base + HOT_DEPTH + i] := levels[i].quantity;
        assert hot[..] == before[base + i := levels[i].price][base + HOT_DEPTH + i := levels[i].quantity];
      }
    }

    /** rebuildHotData: nothing if not dirty; else exactly the stores of RebuildWrites, between
        two increments of the version. */
    method RebuildHotData()
      requires Shape()
      modifies this`dirty, this`version, hot
      ensures !dirty
      ensures !old(dirty) ==> version == old(version) && hot[..] == old(hot[..])
      ensures old(dirty) ==> version == old(version) + 2
      ensures old(dirty) ==> hot[..] == Store(old(hot[..]), RebuildWrites(Buffer(writeIndex).View()))
    {
      if !dirty {
        return;
      }
      dirty := false;
      var buf := Buffer(writeIndex);
      ghost var b := buf.View();
      ghost var h0 := hot[..];
      version := version + 1;
      var nb := Min(HOT_DEPTH, buf.bidCount);
      hot[BID_COUNT] := nb;
      assert hot[..] == h0[BID_COUNT := nb];
      CopySide(BID_BASE, buf.bids, nb);
      SideWritesPrefix(BID_BASE, buf.bids[..], buf.bidCount, nb);
      ghost var h1 := hot[..];
      assert h1 == AfterBids(h0, b);
      var na := Min(HOT_DEPTH, buf.askCount);
      hot[ASK_COUNT] := na;
      assert hot[..] == h1[ASK_COUNT := na];
      CopySide(ASK_BASE, buf.asks, na);
      SideWritesPrefix(ASK_BASE, buf.asks[..], buf.askCount, na);
      ghost var h2 := hot[..];
      hot[HOT_TIME] := buf.time;
      assert hot[..] == h2[HOT_TIME := buf.time];
      version := version + 1;
      RebuildInTwoHalves(h0, b);
    }

    /** swapColdBuffers: publish the written buffer, then bring the other one up to date. */
    method SwapColdBuffers()
      requires Shape()
      modifies this`writeIndex, this`active
      modifies Buffer(1 - writeIndex), Buffer(1 - writeIndex).bids, Buffer(1 - writeIndex).asks
      ensures Shape() && active == old(writeIndex) && writeIndex == 1 - active
      ensures cold0.View() == cold1.View() == old(Buffer(writeIndex).View())
    {
      writeIndex := 1 - writeIndex;
      var newActive := 1 - writeIndex;
      active := newActive;
      var buf := Buffer(writeIndex);
      buf.CopyFrom(Buffer(newActive));
    }

    /** The write buffer and the hot words are ready to be published as book b. */
    ghost predicate Ready(b: Book)
      reads this, hot, cold0, cold0.bids, cold0.asks, cold1, cold1.bids, cold1.asks
    {
      && Shape() && !dirty && version % 2 == 0
      && Buffer(writeIndex).View() == b && BookOk(b) && Shows(hot[..], b)
    }

    method Publish(ghost b: Book)
      requires Ready(b)
      modifies this`writeIndex, this`active
      modifies Buffer(1 - writeIndex), Buffer(1 - writeIndex).bids, Buffer(1 - writeIndex).asks
      ensures Valid() && View() == b && active != writeIndex
    {
      SwapColdBuffers();
    }

    /** After every completed update the published book is the stepped book, both buffers hold
        it, the hot words show its top whether or not they were rewritten, and the write buffer
        is not the published one. */
    method Update(tick: Op)
      requires Valid() && tick.Tick?
      modifies this, hot, cold0, cold0.bids, cold0.asks, cold1, cold1.bids, cold1.asks
      ensures Valid() && View() == StepBook(old(View()), tick)
      ensures active != writeIndex
      ensures version == old(version) || version == old(version) + 2
    {
      Prepare(tick);
      Publish(StepBook(old(View()), tick));
    }

    /** The part of update before the swap. */
    method Prepare(tick: Op)
      requires Valid() && tick.Tick?
      modifies this`dirty, this`version, hot, Buffer(writeIndex), Buffer(writeIndex).bids, Buffer(writeIndex).asks
      ensures Ready(StepBook(old(View()), tick))
      ensures version == old(version) || version == old(version) + 2
    {
      ghost var b := Buffer(writeIndex).View();
      StepKeepsOk(b, tick);
      UpdateLevels(tick);
      Refresh(b, StepBook(b, tick));
    }

    /** The hot words brought up to the write buffer, by a rebuild or by leaving them alone. */
    method Refresh(ghost b: Book, ghost b': Book)
      requires Shape() && version % 2 == 0 && Shows(hot[..], b) && BookOk(b')
      requires Buffer(writeIndex).View() == b' && (!dirty ==> SameTop(b, b'))
      modifies this`dirty, this`version, hot
      ensures Ready(b') && (version == old(version) || version == old(version) + 2)
    {
      RebuildHotData();
      HotFollows(old(hot[..]), hot[..], b, b');
    }

    /** The hot part of clear: exactly the stores of ClearWrites, between two increments of
        the version. */
    method ClearHotData()
      requires hot.Length == HOT_WORDS
      modifies this`version, hot
      ensures version == old(version) + 2 && hot[..] == Store(old(hot[..]), ClearWrites())
    {
      ghost var h0 := hot[..];
      version := version + 1;
      hot[BID_COUNT] := 0;
      hot[ASK_COUNT] := 0;
      ghost var two: seq<Write> := [(BID_COUNT, 0), (ASK_COUNT, 0)];
      ghost var h1 := hot[..];
      assert h1 == Store(h0, two) by {
        StoreTwo(h0, [], (BID_COUNT, 0), (ASK_COUNT, 0));
        assert [] + two == two;
      }
      for i := 0 to HOT_TIME
        modifies hot
        invariant hot[..] == Store(h1, ZeroStores(i))
      {
        ghost var before := hot[..];
        assert ZeroStores(i + 1)[..i] == ZeroStores(i);
        hot[i] := 0;
        assert hot[..] == before[i := 0];
      }
      version := version + 1;
      StoreAppend(h0, two, ZeroStores(HOT_TIME));
    }

    /** clear: empties the write buffer, zeroes the hot words and publishes. */
    method Clear()
      requires Valid()
      modifies this, hot, cold0, cold0.bids, cold0.asks, cold1, cold1.bids, cold1.asks
      ensures Valid() && View() == StepBook(old(View()), Op.Clear)
      ensures active != writeIndex && version == old(version) + 2
    {
      var buf := Buffer(writeIndex);
      var stores := buf.Clear();
      ClearHotData();
      ClearShows(old(hot[..]), buf.View());
      Publish(buf.View());
    }

    // ----- readers, run alone -----

    /** getBidLevels / getAskLevels: the validity filter never drops a level. */
    method GetLevels(side: Side, maxLevels: nat) returns (levels: seq<Level>)
      requires Valid()
      ensures levels == Take(if side.Bid? then View().bids else View().asks, maxLevels)
    {
      var buf := Buffer(active);
      var a := if side.Bid? then buf.bids else buf.asks;
      var count := Min(maxLevels, if side.Bid? then buf.bidCount else buf.askCount);
      levels := [];
      for i := 0 to count
        invariant levels == a[..i]
      {
        if a[i].quantity > 0 {
          levels := levels + [a[i]];
        }
      }
    }

    /** generateSnapshot: the whole published book. */
    method GenerateSnapshot() returns (snapshot: Book)
      requires Valid()
      ensures snapshot == View() && Ladder(snapshot.bids, snapshot.asks)
    {
      var bids := GetLevels(Bid, MAX_DEPTH);
      var asks := GetLevels(Ask, MAX_DEPTH);
      snapshot := Book(bids, asks, Buffer(active).time);
    }

    /** getBidLevel / getAskLevel. */
    method GetLevel(side: Side, level: nat) returns (r: Option<Level>)
      requires Valid()
      ensures var s := if side.Bid? then View().bids else View().asks;
        r == if level < |s| then Some(s[level]) else None
    {
      if level >= MAX_DEPTH {
        return None;
      }
      var buf := Buffer(active);
      if level < (if side.Bid? then buf.bidCount else buf.askCount) {
        r := Some(if side.Bid? then buf.bids[level] else buf.asks[level]);
      } else {
        r := None;
      }
    }
  }

  lemma ClearedFour(i: nat, j: nat)
    requires j < 4
    ensures ClearedCell(4 * i + j) == PriceCell(if j < 2 then Bid else Ask, i) + j % 2
  {
    DivModUnique(4 * i + j, 4, i, j);
  }

  lemma ClearRound(i: nat)
    requires i < MAX_DEPTH
    ensures ClearColdWrites()[..2 + 4 * (i + 1)] ==
      ClearColdWrites()[..2 + 4 * i] + (SetLevel(Bid, i, Level(0, 0)) + SetLevel(Ask, i, Level(0, 0)))
  {
    var ws := ClearColdWrites();
    ClearedFour(i, 0);
    ClearedFour(i, 1);
    ClearedFour(i, 2);
    ClearedFour(i, 3);
    NextFour(ws, 2 + 4 * i, SetLevel(Bid, i, Level(0, 0)) + SetLevel(Ask, i, Level(0, 0)));
  }

  lemma NextFour(ws: seq<Write>, k: nat, four: seq<Write>)
    requires k + 4 <= |ws| && |four| == 4
    requires ws[k] == four[0] && ws[k + 1] == four[1] && ws[k + 2] == four[2] && ws[k + 3] == four[3]
    ensures ws[..k + 4] == ws[..k] + four
  {
  }

  lemma {:induction false} SideWritesPrefix(base: nat, s: seq<Level>, count: nat, n: nat)
    requires n <= count <= |s|
    ensures SideWrites(base, s[..count], n) == SideWrites(base, s, n)
  {
    if n > 0 { SideWritesPrefix(base, s, count, n - 1); }
  }

  /** Rebuilt, or left alone because the top levels are the same, the hot words show the new book. */
  lemma {:induction false} HotFollows(before: seq<int>, after: seq<int>, b: Book, b': Book)
    requires Shows(before, b)
    requires (after == before && SameTop(b, b')) || after == Store(before, RebuildWrites(b'))
    ensures Shows(after, b')
  {
    if after == before && SameTop(b, b') { SameTopShows(before, b, b'); } else { RebuildShows(before, b'); }
  }

  lemma StepKeepsOk(b: Book, op: Op)
    requires BookOk(b)
    ensures BookOk(StepBook(b, op))
  {
    if op.Tick? {
      TickSideKeeps(Bid, b.bids, op.price, op.quantity);
      TickSideKeeps(Ask, b.asks, op.price, op.quantity);
    }
  }
}
