/** The fast book's hot getters against its concurrent writer: each getter is a reading program
    over the hot words, run inside the optimistic read loop. */
module HotReads {
  import opened PriceLevels
  import opened Books
  import opened HotLayout
  import opened Memory
  import opened Seqlock
  import opened Decimal

  datatype Query =
    | BestPrice(side: Side)   // getBestBid, getBestAsk
    | MidPrice(arith: Arith)  // getMidPrice, with the division of the Decimal library
    | Spread                  // getSpread
    | Top5(side: Side)        // getTop5Bids, getTop5Asks

  function Base(side: Side): nat { if side.Bid? then BID_BASE else ASK_BASE }
  function CountCell(side: Side): nat { if side.Bid? then BID_COUNT else ASK_COUNT }

  /** Division by Decimal(2). */
  function Half(a: Arith, sum: int): int { Div(a, sum, 2 * SCALE) }

  /** The next access of each getter, given the words it has read. The empty result is
      nullopt. The loop of the top-five getters loads the count again in every round. */
  function Next(q: Query, vals: seq<int>): Action {
    match q
    case BestPrice(side) =>
      if |vals| == 0 then Read(CountCell(side))
      else if vals[0] <= 0 then Return([])
      else if |vals| == 1 then Read(Base(side))
      else Return([vals[1]])
    case Top5(side) => TopNext(side, vals, 0, [])
    case _ =>
      if |vals| == 0 then Read(BID_COUNT)
      else if vals[0] <= 0 then Return([])
      else if |vals| == 1 then Read(ASK_COUNT)
      else if vals[1] <= 0 then Return([])
      else if |vals| == 2 then Read(BID_BASE)
      else if |vals| == 3 then Read(ASK_BASE)
      else Return([if q.MidPrice? then Half(q.arith, vals[2] + vals[3]) else vals[3] - vals[2]])
  }

  function TopNext(side: Side, vals: seq<int>, i: nat, acc: seq<int>): Action
    decreases HOT_DEPTH - i
  {
    if i >= HOT_DEPTH then Return(acc)
    else if vals == [] then Read(CountCell(side))
    else if i >= vals[0] then TopNext(side, vals[1..], i + 1, acc + [0, 0])
    else if |vals| == 1 then Read(Base(side) + i)
    else if |vals| == 2 then Read(Base(side) + HOT_DEPTH + i)
    else TopNext(side, vals[3..], i + 1, acc + [vals[1], vals[2]])
  }

  function Prog(q: Query): Program { vals => Next(q, vals) }

  // ----- what a getter should answer for a book -----

  ghost function TopAnswer(s: seq<Level>, i: nat): seq<int>
    decreases HOT_DEPTH - i
  {
    if i >= HOT_DEPTH then []
    else (if i < |s| then [s[i].price, s[i].quantity] else [0, 0]) + TopAnswer(s, i + 1)
  }

  ghost function Answer(q: Query, b: Book): seq<int> {
    match q
    case BestPrice(side) => if SideOf(b, side) == [] then [] else [SideOf(b, side)[0].price]
    case MidPrice(a) => if b.bids == [] || b.asks == [] then [] else [Half(a, b.bids[0].price + b.asks[0].price)]
    case Spread => if b.bids == [] || b.asks == [] then [] else [b.asks[0].price - b.bids[0].price]
    case Top5(side) => TopAnswer(SideOf(b, side), 0)
  }

  /** Twice the mid price is the sum of the two best prices up to rounding, so that the mid lies
      between them up to one unit whenever they do not cross. */
  ghost predicate IsMid(mid: int, b: Book) {
    && b.bids != [] && b.asks != []
    && var bid, ask := b.bids[0].price, b.asks[0].price;
       -2 < 2 * mid - (bid + ask) < 2 && (bid <= ask ==> bid - 1 < mid < ask + 1)
  }

  lemma MidIsMid(a: Arith, b: Book)
    requires Rounds(a) && b.bids != [] && b.asks != []
    ensures IsMid(Half(a, b.bids[0].price + b.asks[0].price), b)
  {
    var sum := b.bids[0].price + b.asks[0].price;
    QuotBound(a, sum * SCALE, 2 * SCALE);
  }

  /** The highest of all bids, or the lowest of all asks, of the reference book. */
  ghost predicate IsBestOf(side: Side, p: int, m: MapBook) {
    if side.Bid? then p in m.bids && forall k :: k in m.bids ==> k <= p
    else p in m.asks && forall k :: k in m.asks ==> p <= k
  }

  // ----- a getter run on one memory image answers for the book it shows -----

  ghost predicate TopTrace(side: Side, snap: seq<int>, vals: seq<int>, i: nat, acc: seq<int>) {
    forall j :: 0 <= j < |vals| ==>
      var a := TopNext(side, vals[..j], i, acc); a.Read? && a.cell < |snap| && vals[j] == snap[a.cell]
  }

  lemma {:induction false} TopCorrect(side: Side, snap: seq<int>, b: Book, vals: seq<int>, i: nat, acc: seq<int>)
    requires Shows(snap, b) && i <= HOT_DEPTH && TopTrace(side, snap, vals, i, acc)
    requires TopNext(side, vals, i, acc).Return?
    ensures TopNext(side, vals, i, acc).result == acc + TopAnswer(SideOf(b, side), i)
    decreases HOT_DEPTH - i
  {
    if i < HOT_DEPTH {
      TopRound(side, snap, b, vals, i, acc);
      var rest := TopAnswer(SideOf(b, side), i + 1);
      if i >= vals[0] {
        TopSkip(side, snap, vals, i, acc);
        TopCorrect(side, snap, b, vals[1..], i + 1, acc + [0, 0]);
        Regroup(acc, [0, 0], rest);
      } else {
        TopTake(side, snap, vals, i, acc);
        TopCorrect(side, snap, b, vals[3..], i + 1, acc + [vals[1], vals[2]]);
        Regroup(acc, [vals[1], vals[2]], rest);
      }
    }
  }

  /** What one round of the top-five loop reads. */
  lemma {:induction false} TopRound(side: Side, snap: seq<int>, b: Book, vals: seq<int>, i: nat, acc: seq<int>)
    requires Shows(snap, b) && i < HOT_DEPTH && TopTrace(side, snap, vals, i, acc)
    requires TopNext(side, vals, i, acc).Return?
    ensures var s := SideOf(b, side);
      && vals != [] && (i >= vals[0] <==> i >= |s|)
      && (i < vals[0] ==> |vals| > 2 && vals[1] == s[i].price && vals[2] == s[i].quantity)
  {
    assert vals[..0] == [];
    assert vals[0] == snap[CountCell(side)];
    if i < vals[0] {
      assert |vals| > 2;
      assert vals[..1] == [vals[0]] && vals[..2] == [vals[0], vals[1]];
    }
  }

  lemma TopSkip(side: Side, snap: seq<int>, vals: seq<int>, i: nat, acc: seq<int>)
    requires TopTrace(side, snap, vals, i, acc) && i < HOT_DEPTH && vals != [] && i >= vals[0]
    ensures TopTrace(side, snap, vals[1..], i + 1, acc + [0, 0])
    ensures TopNext(side, vals, i, acc) == TopNext(side, vals[1..], i + 1, acc + [0, 0])
  {
    forall j | 0 <= j < |vals[1..]|
      ensures TopNext(side, vals[1..][..j], i + 1, acc + [0, 0]) == TopNext(side, vals[..j + 1], i, acc)
    {
      assert vals[..j + 1][1..] == vals[1..][..j];
    }
  }

  lemma TopTake(side: Side, snap: seq<int>, vals: seq<int>, i: nat, acc: seq<int>)
    requires TopTrace(side, snap, vals, i, acc) && i < HOT_DEPTH && |vals| > 2 && i < vals[0]
    ensures TopTrace(side, snap, vals[3..], i + 1, acc + [vals[1], vals[2]])
    ensures TopNext(side, vals, i, acc) == TopNext(side, vals[3..], i + 1, acc + [vals[1], vals[2]])
  {
    forall j | 0 <= j < |vals[3..]|
      ensures TopNext(side, vals[3..][..j], i + 1, acc + [vals[1], vals[2]]) == TopNext(side, vals[..j + 3], i, acc)
    {
      assert vals[..j + 3][3..] == vals[3..][..j];
    }
  }

  lemma QueryCorrect(q: Query, snap: seq<int>, b: Book, vals: seq<int>, result: seq<int>)
    requires Shows(snap, b) && Trace(Prog(q), snap, vals) && Prog(q)(vals) == Return(result)
    ensures result == Answer(q, b)
  {
    assert forall j :: 0 <= j < |vals| ==> Prog(q)(vals[..j]) == Next(q, vals[..j]);
    assert |vals| > 0 ==> vals[..0] == [];
    assert |vals| > 1 ==> vals[..1] == [vals[0]];
    if q.Top5? {
      TopCorrect(q.side, snap, b, vals, 0, []);
    } else if !q.BestPrice? {
      assert |vals| > 2 ==> vals[..2] == [vals[0], vals[1]];
      assert |vals| > 3 ==> vals[..3] == [vals[0], vals[1], vals[2]];
    }
  }

  // ----- the book's writer and its readers -----

  /** An operation of the writer. skip says the rebuild was skipped, which the book does only
      when the top levels did not change. */
  datatype HotEvent =
    | Do(op: Op, skip: bool)
    | Write
    | Get(r: nat, q: Query)
    | Go(r: nat)

  /** ops are the operations begun; queries[r] is what reader r last asked. */
  datatype HotState = HotState(lock: State<Book>, ops: seq<Op>, queries: seq<Query>)

  ghost function Stores(b: Book, op: Op, skip: bool): seq<Write> {
    if op.Clear? then ClearWrites() else if skip then [] else RebuildWrites(StepBook(b, op))
  }

  ghost function StepHot(h: HotState, e: HotEvent): (r: HotState)
    requires |h.lock.hist| > 0
    ensures |r.lock.hist| > 0
  {
    match e
    case Do(op, skip) =>
      var b := h.lock.hist[|h.lock.hist| - 1];
      var b' := StepBook(b, op);
      if !h.lock.writer.Quiet? || (skip && !SameTop(b, b')) then h
      else h.(lock := h.lock.(hist := h.lock.hist + [b'], writer := Begun(Stores(b, op, skip))), ops := h.ops + [op])
    case Write => h.(lock := WriterStep(h.lock))
    case Get(r, q) =>
      if r < |h.queries| && r < |h.lock.readers| && (h.lock.readers[r].Idle? || h.lock.readers[r].Done?)
      then h.(lock := Step(Shows, h.lock, Call(r, Prog(q))), queries := h.queries[r := q]) else h
    case Go(r) => h.(lock := Step(Shows, h.lock, ReaderGo(r)))
  }

  ghost predicate HotInit(h: HotState) {
    && Init(Shows, h.lock) && h.lock.hist == [Book([], [], 0)] && h.ops == []
    && |h.queries| == |h.lock.readers|
  }

  /** A busy or finished reader runs the program of its query. */
  ghost predicate Asked(q: Query, rd: Reader) { !rd.Idle? ==> rd.prog == Prog(q) }

  ghost predicate HotInv(h: HotState) {
    && Inv(Shows, h.lock) && Follows(h.lock.hist, h.ops) && |h.queries| == |h.lock.readers|
    && forall r :: 0 <= r < |h.queries| ==> Asked(h.queries[r], h.lock.readers[r])
  }

  ghost function RunHot(h: HotState, es: seq<HotEvent>): (r: HotState)
    requires |h.lock.hist| > 0
    ensures |r.lock.hist| > 0
  {
    if es == [] then h else StepHot(RunHot(h, es[..|es| - 1]), es[|es| - 1])
  }

  /** Every operation the book performs is one the machine admits: between operations a clear, a
      rebuilt tick, and a tick skipped because the top levels are unchanged all leave the words
      showing the new book. */
  lemma OperationsBegin(h: HotState, op: Op, skip: bool)
    requires HotInv(h) && h.lock.writer.Quiet?
    requires var b := h.lock.hist[|h.ops|]; skip ==> SameTop(b, StepBook(b, op))
    ensures var b := h.lock.hist[|h.ops|];
      StepHot(h, Do(op, skip)).lock == Step(Shows, h.lock, Begin(StepBook(b, op), Stores(b, op, skip)))
  {
    var b := h.lock.hist[|h.ops|];
    var b' := StepBook(b, op);
    if op.Clear? {
      ClearShows(h.lock.cells, b');
    } else if skip {
      SameTopShows(h.lock.cells, b, b');
    } else {
      RebuildShows(h.lock.cells, b');
    }
  }

  lemma DoKeeps(h: HotState, op: Op, skip: bool)
    requires HotInv(h)
    ensures HotInv(StepHot(h, Do(op, skip)))
  {
    var b := h.lock.hist[|h.ops|];
    if h.lock.writer.Quiet? && (skip ==> SameTop(b, StepBook(b, op))) {
      OperationsBegin(h, op, skip);
      StepKeeps(Shows, h.lock, Begin(StepBook(b, op), Stores(b, op, skip)));
      FollowsOn(h.lock.hist, h.ops, op);
    }
  }

  /** Steps of the lock itself neither begin operations nor change programs. */
  lemma GoKeeps(h: HotState, e: Event<Book>)
    requires HotInv(h) && (e.WriterGo? || e.ReaderGo?)
    ensures HotInv(h.(lock := Step(Shows, h.lock, e)))
  {
    StepKeeps(Shows, h.lock, e);
    var t := Step(Shows, h.lock, e);
    forall r | 0 <= r < |h.queries|
      ensures Asked(h.queries[r], t.readers[r])
    {
      assert Asked(h.queries[r], h.lock.readers[r]);
    }
  }

  lemma GetKeeps(h: HotState, r: nat, q: Query)
    requires HotInv(h)
    ensures HotInv(StepHot(h, Get(r, q)))
  {
    StepKeeps(Shows, h.lock, Call(r, Prog(q)));
    var t := StepHot(h, Get(r, q));
    forall k | 0 <= k < |t.queries|
      ensures Asked(t.queries[k], t.lock.readers[k])
    {
      assert Asked(h.queries[k], h.lock.readers[k]);
    }
  }

  lemma StepHotKeeps(h: HotState, e: HotEvent)
    requires HotInv(h)
    ensures HotInv(StepHot(h, e))
  {
    match e
    case Do(op, skip) => DoKeeps(h, op, skip);
    case Write => GoKeeps(h, WriterGo);
    case Get(r, q) => GetKeeps(h, r, q);
    case Go(r) => GoKeeps(h, ReaderGo(r));
  }

  lemma {:induction false} RunHotKeeps(h: HotState, es: seq<HotEvent>)
    requires HotInit(h)
    ensures HotInv(RunHot(h, es))
  {
    if es != [] {
      RunHotKeeps(h, es[..|es| - 1]);
      StepHotKeeps(RunHot(h, es[..|es| - 1]), es[|es| - 1]);
    }
  }

  /** Whatever the interleaving of one writer and any number of readers, a finished getter
      answers for the simple reference book after some one number of operations, no fewer than
      were complete when it was called and no more than had begun when it returned. */
  lemma {:induction false} GettersLinearize(h0: HotState, es: seq<HotEvent>, r: nat)
    requires HotInit(h0) && r < |RunHot(h0, es).lock.readers| && RunHot(h0, es).lock.readers[r].Done?
    ensures var h := RunHot(h0, es); var rd := h.lock.readers[r];
      && r < |h.queries| && rd.low <= rd.at <= rd.high <= |h.ops|
      && rd.result == Answer(h.queries[r], Listing(RunMap(h.ops[..rd.at])))
      && (h.queries[r].MidPrice? && Rounds(h.queries[r].arith) && rd.result != [] ==>
            |rd.result| == 1 && IsMid(rd.result[0], Listing(RunMap(h.ops[..rd.at]))))
      && (h.queries[r].BestPrice? && rd.result != [] ==>
            |rd.result| == 1 && IsBestOf(h.queries[r].side, rd.result[0], RunMap(h.ops[..rd.at])))
  {
    RunHotKeeps(h0, es);
    var h := RunHot(h0, es);
    var rd := h.lock.readers[r];
    assert ReaderInv(Shows, h.lock, rd) && Asked(h.queries[r], rd);
    QueryCorrect(h.queries[r], rd.snap, h.lock.hist[rd.at], rd.vals, rd.result);
    FollowsIsRun(h.lock.hist, h.ops, rd.at);
    var m := RunMap(h.ops[..rd.at]);
    var b := Listing(m);
    if h.queries[r].MidPrice? && Rounds(h.queries[r].arith) && rd.result != [] { MidIsMid(h.queries[r].arith, b); }
    if h.queries[r].BestPrice? && rd.result != [] {
      BestIsTop(h.queries[r].side, if h.queries[r].side.Bid? then m.bids else m.asks);
    }
  }
}
