/** Cold reads of the fast book before its first operation is published. The constructor leaves
    both roles at buffer 0, so such a read shares its buffer with the first operation's stores.
    Getters that look at the book once still answer for one book; generateSnapshot and the fast
    lists, which look twice, need not. */
module ColdStart {
  import opened PriceLevels
  import opened Books
  import opened Memory
  import opened ColdLayout
  import opened ColdGetters
  import opened DoubleBuffer
  import opened ColdReads

  ghost function Empty(): Book { Book([], [], 0) }

  /** The getters whose reply is made of words loaded at different looks at the book. */
  predicate LooksTwice(q: Query) { q.Snapshot? || q.FastLevels? }

  /** The tick adds the first level of a side. */
  predicate Adds(op: Op, side: Side) {
    op.Tick? && op.quantity > 0 && (side.Bid? <==> op.kind.BID?)
  }

  // ----- the words during the first operation -----

  /** A count is stored only after its level. */
  ghost predicate EarlyWords(op: Op, cells: seq<int>) {
    && |cells| == COLD_WORDS
    && forall side: Side :: cells[CountCell(side)] == 0
         || (Adds(op, side) && cells[CountCell(side)] == 1 && LevelAt(cells, side, 0) == Level(op.price, op.quantity))
  }

  /** Of the stores ws, these are left, and the others have left these words behind. */
  ghost predicate Partway(ws: seq<Write>, cells: seq<int>, left: seq<Write>) {
    |left| <= |ws| && left == ws[|ws| - |left|..] && cells == Store(Blank(), ws[..|ws| - |left|])
  }

  lemma {:induction false} PartwaySteps(ws: seq<Write>, cells: seq<int>, left: seq<Write>)
    requires Partway(ws, cells, left) && left != []
    ensures Partway(ws, Store(cells, [left[0]]), left[1..])
  {
    var k := |ws| - |left|;
    assert ws[..k + 1] == ws[..k] + [left[0]];
    StoreAppend(Blank(), ws[..k], [left[0]]);
  }

  /** The stores of a tick that adds the first level of a side. */
  function FirstFour(op: Op, side: Side): seq<Write>
    requires op.Tick?
  {
    [(PriceCell(side, 0), op.price), (QuantityCell(side, 0), op.quantity), (CountCell(side), 1), (COLD_TIME, op.time)]
  }

  lemma FirstWrites(op: Op, side: Side)
    requires op.Tick? && (side.Bid? <==> op.kind.BID?)
    ensures OpWrites(Empty(), op) == if op.quantity > 0 then FirstFour(op, side) else [(COLD_TIME, op.time)]
  {
  }

  lemma {:induction false} LevelThenCount(op: Op, side: Side, k: nat)
    requires Adds(op, side) && 2 <= k <= 4
    ensures var cells := Store(Blank(), FirstFour(op, side)[..k]);
      EarlyWords(op, cells) && (cells[CountCell(side)] == 1 <==> k >= 3)
  {
    var ws := FirstFour(op, side);
    assert ws[..2] == [] + [ws[0], ws[1]];
    StoreTwo(Blank(), [], ws[0], ws[1]);
    var two := Store(Blank(), ws[..2]);
    assert LevelAt(two, side, 0) == Level(op.price, op.quantity);
    if k == 3 {
      assert ws[..3] == ws[..2] + [ws[2]];
      StoreAppend(Blank(), ws[..2], [ws[2]]);
      StoreOne(two, ws[2]);
    } else if k == 4 {
      assert ws[..4] == ws[..2] + [ws[2], ws[3]];
      StoreTwo(Blank(), ws[..2], ws[2], ws[3]);
    }
  }

  /** Whether or not the count is stored yet, the words are as EarlyWords says. */
  lemma {:induction false} FourIsEarly(op: Op, side: Side, k: nat)
    requires Adds(op, side) && k <= 4
    ensures var cells := Store(Blank(), FirstFour(op, side)[..k]);
      EarlyWords(op, cells) && (cells[CountCell(side)] == 1 <==> k >= 3)
  {
    var ws := FirstFour(op, side);
    if k >= 2 {
      LevelThenCount(op, side, k);
    } else if k == 1 {
      assert ws[..1] == [ws[0]];
      StoreOne(Blank(), ws[0]);
    }
  }

  lemma {:induction false} CountsUntouched(ws: seq<Write>, side: Side)
    requires forall i :: 0 <= i < |ws| ==> ws[i].0 != CountCell(side) || ws[i].1 == 0
    ensures Store(Blank(), ws)[CountCell(side)] == 0
  {
    if ws != [] { CountsUntouched(ws[..|ws| - 1], side); }
  }

  /** The stores of a first operation that adds no level. */
  ghost predicate NoCount(ws: seq<Write>) {
    forall side: Side, i :: 0 <= i < |ws| ==> ws[i].0 != CountCell(side) || ws[i].1 == 0
  }

  lemma {:induction false} FirstStores(op: Op)
    ensures var ws := OpWrites(Empty(), op);
      if op.Tick? && op.quantity > 0 then ws == FirstFour(op, if op.kind.BID? then Bid else Ask) else NoCount(ws)
  {
    if op.Tick? { FirstWrites(op, if op.kind.BID? then Bid else Ask); }
  }

  lemma {:induction false} PartwayIsEarly(op: Op, ws: seq<Write>, cells: seq<int>, left: seq<Write>)
    requires Partway(ws, cells, left)
    requires if op.Tick? && op.quantity > 0 then ws == FirstFour(op, if op.kind.BID? then Bid else Ask) else NoCount(ws)
    ensures EarlyWords(op, cells)
  {
    var k := |ws| - |left|;
    if op.Tick? && op.quantity > 0 {
      FourIsEarly(op, if op.kind.BID? then Bid else Ask, k);
    } else {
      forall side: Side
        ensures cells[CountCell(side)] == 0
      {
        CountsUntouched(ws[..k], side);
      }
    }
  }

  /** A count once stored stays. */
  lemma {:induction false} CountStays(op: Op, side: Side, cells: seq<int>, left: seq<Write>)
    requires Adds(op, side) && Partway(FirstFour(op, side), cells, left) && left != []
    requires cells[CountCell(side)] == 1
    ensures Store(cells, [left[0]])[CountCell(side)] == 1
  {
    var ws := FirstFour(op, side);
    PartwaySteps(ws, cells, left);
    FourIsEarly(op, side, |ws| - |left|);
    FourIsEarly(op, side, |ws| - |left| + 1);
  }

  /** What the stores of the first operation do to the words, at any point. */
  lemma {:induction false} FirstOperation(op: Op, cells: seq<int>, left: seq<Write>)
    requires Partway(OpWrites(Empty(), op), cells, left)
    ensures EarlyWords(op, cells)
    ensures left != [] ==> Partway(OpWrites(Empty(), op), Store(cells, [left[0]]), left[1..])
    ensures left != [] ==> forall side: Side ::
      cells[CountCell(side)] == 1 ==> Store(cells, [left[0]])[CountCell(side)] == 1
  {
    var ws := OpWrites(Empty(), op);
    FirstStores(op);
    PartwayIsEarly(op, ws, cells, left);
    if left != [] {
      PartwaySteps(ws, cells, left);
      forall side: Side | cells[CountCell(side)] == 1
        ensures Store(cells, [left[0]])[CountCell(side)] == 1
      {
        CountStays(op, side, cells, left);
      }
    }
  }

  // ----- getters that look once -----

  /** Once past the count, the getter has seen it stored. */
  ghost predicate EarlyOn(q: Query, c: Cursor, op: Op, cells: seq<int>)
    requires |cells| == COLD_WORDS
  {
    match c
    case First => true
    case Done(reply) => reply == Answer(q, Empty()) || reply == Answer(q, StepBook(Empty(), op))
    case Count(side, _, _, _, _) => q.IsEmpty? && side.Ask?
    case _ =>
      && (q.Levels? || q.LevelOf?) && c.side == q.side && c.i == 0 && c.acc == []
      && Adds(op, q.side) && cells[CountCell(q.side)] == 1
      && (if q.Levels? then q.max > 0 && c.limit == 1 else q.i == 0)
      && (c.Quantity? ==> c.price == op.price)
  }

  lemma AddedBook(op: Op, side: Side)
    requires Adds(op, side)
    ensures SideOf(StepBook(Empty(), op), side) == [Level(op.price, op.quantity)]
  {
  }

  lemma EarlyLoad(q: Query, c: Cursor, op: Op, cells: seq<int>)
    requires !LooksTwice(q) && EarlyWords(op, cells) && EarlyOn(q, c, op, cells) && !c.Done?
    ensures Want(q, c) < COLD_WORDS && EarlyOn(q, Resume(q, c, cells[Want(q, c)]), op, cells)
  {
    if q.Levels? || q.LevelOf? {
      assert cells[CountCell(q.side)] == 0 || Adds(op, q.side);
      if Adds(op, q.side) { AddedBook(op, q.side); }
    } else {
      assert cells[CountCell(Bid)] == 0 || Adds(op, Bid);
      assert cells[CountCell(Ask)] == 0 || Adds(op, Ask);
      if Adds(op, Bid) { AddedBook(op, Bid); }
      if Adds(op, Ask) { AddedBook(op, Ask); }
    }
  }

  // ----- every run -----

  ghost function FirstOp(ops: seq<Op>): Op { if ops == [] then Op.Clear else ops[0] }

  ghost predicate EarlyWriter(c: ColdState)
    requires Sized(c)
  {
    c.db.Stores() == 0 ==>
      if c.db.writer.Editing?
      then |c.ops| == 1 && Partway(OpWrites(Empty(), c.ops[0]), c.db.bufs[0], c.db.writer.stores)
      else c.ops == [] && c.db.bufs[0] == Blank()
  }

  ghost predicate Early(db: State<Book>, op: Op, q: Query, rd: Reader)
    requires WellFormed(db) && db.Words() == COLD_WORDS
  {
    rd.Loaded? && rd.at == 0 ==>
      && rd.buf == 0
      && (rd.stores == 0 && !LooksTwice(q) ==>
            var c := Position(q, rd.log);
            && (db.Stores() == 0 ==> EarlyOn(q, c, op, db.bufs[0]))
            && (c.Done? ==> c.reply == Answer(q, Empty()) || c.reply == Answer(q, StepBook(Empty(), op))))
  }

  ghost predicate StartInv(c: ColdState) {
    && ColdInv(c) && EarlyWriter(c)
    && forall r :: 0 <= r < |c.queries| ==> Early(c.db, FirstOp(c.ops), c.queries[r], c.db.readers[r])
  }

  lemma NothingDone(op: Op)
    ensures Partway(OpWrites(Empty(), op), Blank(), OpWrites(Empty(), op))
  {
    var ws := OpWrites(Empty(), op);
    assert ws[..0] == [] && ws[0..] == ws;
  }

  lemma DoKeepsEarly(c: ColdState, op: Op)
    requires BookInv(c) && EarlyWriter(c)
    ensures EarlyWriter(StepCold(c, Do(op)))
  {
    NothingDone(op);
  }

  lemma WriteKeepsEarly(c: ColdState)
    requires BookInv(c) && EarlyWriter(c)
    ensures EarlyWriter(StepCold(c, Write))
  {
    if c.db.Stores() == 0 && c.db.writer.Editing? && c.db.writer.stores != [] {
      FirstOperation(c.ops[0], c.db.bufs[0], c.db.writer.stores);
    }
  }

  /** Nothing of the first operation has been seen before it begins. */
  lemma EarlyBegins(q: Query, c: Cursor, op: Op)
    requires EarlyOn(q, c, Op.Clear, Blank())
    ensures EarlyOn(q, c, op, Blank())
  {
  }

  lemma EarlyStays(q: Query, c: Cursor, op: Op, cells: seq<int>, cells': seq<int>)
    requires |cells| == |cells'| == COLD_WORDS && EarlyOn(q, c, op, cells)
    requires forall side: Side :: cells[CountCell(side)] == 1 ==> cells'[CountCell(side)] == 1
    ensures EarlyOn(q, c, op, cells')
  {
  }

  lemma DoKeepsEarlyReader(c: ColdState, op: Op, q: Query, rd: Reader)
    requires BookInv(c) && EarlyWriter(c) && Early(c.db, FirstOp(c.ops), q, rd)
    ensures var d := StepCold(c, Do(op)); Early(d.db, FirstOp(d.ops), q, rd)
  {
    if c.db.writer.Quiet? && c.ops == [] && rd.Loaded? {
      if EarlyOn(q, Position(q, rd.log), Op.Clear, Blank()) { EarlyBegins(q, Position(q, rd.log), op); }
    }
  }

  lemma WriteKeepsEarlyReader(c: ColdState, q: Query, rd: Reader)
    requires BookInv(c) && EarlyWriter(c) && Early(c.db, FirstOp(c.ops), q, rd)
    ensures var d := StepCold(c, Write); Early(d.db, FirstOp(d.ops), q, rd)
  {
    if c.db.Stores() == 0 && c.db.writer.Editing? && c.db.writer.stores != [] && rd.Loaded? {
      var op, cells, left := c.ops[0], c.db.bufs[0], c.db.writer.stores;
      FirstOperation(op, cells, left);
      if EarlyOn(q, Position(q, rd.log), op, cells) {
        EarlyStays(q, Position(q, rd.log), op, cells, Store(cells, [left[0]]));
      }
    }
  }

  lemma GetIsEarly(c: ColdState, r: nat, q: Query)
    requires BookInv(c) && r < |c.queries| && Early(c.db, FirstOp(c.ops), c.queries[r], c.db.readers[r])
    ensures var d := StepCold(c, Get(r, q)); Early(d.db, FirstOp(d.ops), d.queries[r], d.db.readers[r])
  {
    assert Position(q, []) == Start(q);
  }

  lemma GoIsEarly(c: ColdState, r: nat)
    requires BookInv(c) && EarlyWriter(c) && r < |c.queries|
    requires Early(c.db, FirstOp(c.ops), c.queries[r], c.db.readers[r])
    ensures var d := StepCold(c, Go(r)); Early(d.db, FirstOp(d.ops), d.queries[r], d.db.readers[r])
  {
    var rd, q := c.db.readers[r], c.queries[r];
    assert ReaderInv(c.db, rd);
    if rd.Loaded? && rd.at == 0 && c.db.Stores() == 0 && !c.At(r).Done? && !LooksTwice(q) {
      var cells, op := c.db.bufs[0], FirstOp(c.ops);
      if c.db.writer.Editing? { FirstOperation(op, cells, c.db.writer.stores); }
      EarlyLoad(q, c.At(r), op, cells);
      var cell := Want(q, c.At(r));
      PositionMoves(q, rd.log, (cell, cells[cell]));
    }
  }

  /** A reader's own step changes no word and no operation. */
  lemma OthersKeepEarly(c: ColdState, e: ColdEvent, q: Query, rd: Reader)
    requires Sized(c) && (e.Get? || e.Go?) && Early(c.db, FirstOp(c.ops), q, rd)
    ensures var d := StepCold(c, e); Early(d.db, FirstOp(d.ops), q, rd)
  {
  }

  lemma UnmovedKeepsEarly(c: ColdState, e: ColdEvent, r: nat)
    requires BookInv(c) && EarlyWriter(c) && r < |c.queries| && !Moves(e, r)
    requires Early(c.db, FirstOp(c.ops), c.queries[r], c.db.readers[r])
    ensures var d := StepCold(c, e); Early(d.db, FirstOp(d.ops), c.queries[r], c.db.readers[r])
  {
    match e
    case Do(op) => DoKeepsEarlyReader(c, op, c.queries[r], c.db.readers[r]);
    case Write => WriteKeepsEarlyReader(c, c.queries[r], c.db.readers[r]);
    case _ => OthersKeepEarly(c, e, c.queries[r], c.db.readers[r]);
  }

  lemma ReaderKeepsEarly(c: ColdState, e: ColdEvent, r: nat)
    requires BookInv(c) && EarlyWriter(c) && r < |c.queries|
    requires Early(c.db, FirstOp(c.ops), c.queries[r], c.db.readers[r])
    ensures var d := StepCold(c, e); Early(d.db, FirstOp(d.ops), d.queries[r], d.db.readers[r])
  {
    if !Moves(e, r) {
      Unmoved(c, e, r);
      UnmovedKeepsEarly(c, e, r);
    } else if e.Go? {
      GoIsEarly(c, r);
    } else {
      GetIsEarly(c, r, e.q);
    }
  }

  lemma WriterKeepsEarly(c: ColdState, e: ColdEvent)
    requires BookInv(c) && EarlyWriter(c)
    ensures EarlyWriter(StepCold(c, e))
  {
    match e
    case Do(op) => DoKeepsEarly(c, op);
    case Write => WriteKeepsEarly(c);
    case _ =>
  }

  lemma StepKeepsStart(c: ColdState, e: ColdEvent)
    requires StartInv(c)
    ensures StartInv(StepCold(c, e))
  {
    StepKeepsCold(c, e);
    WriterKeepsEarly(c, e);
    var d := StepCold(c, e);
    forall r | 0 <= r < |d.queries|
      ensures Early(d.db, FirstOp(d.ops), d.queries[r], d.db.readers[r])
    {
      ReaderKeepsEarly(c, e, r);
    }
  }

  lemma {:induction false} RunKeepsStart(c: ColdState, es: seq<ColdEvent>)
    requires ColdInit(c)
    ensures StartInv(RunCold(c, es))
  {
    if es == [] {
      RunKeepsCold(c, []);
    } else {
      RunKeepsStart(c, es[..|es| - 1]);
      StepKeepsStart(RunCold(c, es[..|es| - 1]), es[|es| - 1]);
    }
  }

  // ----- getters that look twice -----

  /** n more loads by reader 0. */
  function Loads(n: nat): seq<ColdEvent> { seq(n, _ => Go(0)) }

  /** Reader 0 is reading the published buffer. */
  ghost predicate Current(c: ColdState) {
    && Sized(c) && |c.queries| > 0
    && c.db.readers[0].Loaded? && c.db.readers[0].at == c.db.readers[0].stores == c.db.Stores()
  }

  /** Only reader 0 has moved, within its buffer. */
  ghost predicate OnlyLoads(c: ColdState, d: ColdState)
    requires Current(c)
  {
    && Current(d) && d.ops == c.ops && d.queries == c.queries && d.db == c.db.(readers := d.db.readers)
    && d.db.readers[0].buf == c.db.readers[0].buf
  }

  lemma GoStays(c: ColdState)
    requires Current(c)
    ensures OnlyLoads(c, StepCold(c, Go(0)))
  {
  }

  lemma {:induction false} GoLoads(c: ColdState)
    requires Current(c)
    ensures var d := StepCold(c, Go(0));
      OnlyLoads(c, d) && d.At(0) == LoadOne(c.queries[0], c.At(0), c.db.bufs[c.db.readers[0].buf])
  {
    GoStays(c);
    var rd, q := c.db.readers[0], c.queries[0];
    if !c.At(0).Done? {
      var cell := Want(q, c.At(0));
      if cell < COLD_WORDS { PositionMoves(q, rd.log, (cell, c.db.bufs[rd.buf][cell])); }
    }
  }

  lemma {:induction false} LoadsRun(c: ColdState, n: nat)
    requires Current(c)
    ensures var d := RunCold(c, Loads(n));
      OnlyLoads(c, d) && d.At(0) == LoadAll(c.queries[0], c.At(0), c.db.bufs[c.db.readers[0].buf], n)
  {
    if n > 0 {
      LoadsRun(c, n - 1);
      assert Loads(n)[..n - 1] == Loads(n - 1);
      GoLoads(RunCold(c, Loads(n - 1)));
    }
  }

  lemma {:induction false} RunAppend(c: ColdState, a: seq<ColdEvent>, b: seq<ColdEvent>)
    requires Sized(c)
    ensures RunCold(c, a + b) == RunCold(RunCold(c, a), b)
  {
    if b == [] {
      assert a + b == a;
    } else {
      var n := |b| - 1;
      RunAppend(c, a, b[..n]);
      assert (a + b)[..|a + b| - 1] == a + b[..n];
    }
  }

  /** A new book with one reader. */
  ghost function NewBook(trail: seq<nat>, q: Query): (c: ColdState)
    requires EveryWord(trail)
    ensures ColdInit(c)
  {
    ColdState(State([Blank(), Blank()], 0, 0, Quiet, trail, [Idle], false, [Blank()], [Empty()]), [], [q])
  }

  lemma Trail() returns (trail: seq<nat>)
    ensures EveryWord(trail)
  {
    trail := seq(COLD_WORDS, i requires 0 <= i => i);
    forall c: nat | c < COLD_WORDS
      ensures c in trail
    {
      assert trail[c] == c;
    }
  }

  function Writes(n: nat): seq<ColdEvent> { seq(n, _ => Write) }

  /** The writer has come further with its stores; nothing else has changed. */
  ghost predicate OnlyWrites(c: ColdState, d: ColdState, n: nat)
    requires Sized(c) && c.db.writer.Editing? && n <= |c.db.writer.stores|
  {
    d == c.(db := c.db.(bufs := d.db.bufs, writer := Editing(c.db.writer.stores[n..])))
  }

  lemma {:induction false} WritesRun(c: ColdState, n: nat)
    requires Sized(c) && c.db.writer.Editing? && n <= |c.db.writer.stores|
    ensures OnlyWrites(c, RunCold(c, Writes(n)), n)
  {
    if n == 0 {
      assert c.db.writer.stores[0..] == c.db.writer.stores;
    } else {
      WritesRun(c, n - 1);
      assert Writes(n)[..n - 1] == Writes(n - 1);
      assert c.db.writer.stores[n - 1..][1..] == c.db.writer.stores[n..];
    }
  }

  /** Reader 0 of a new book asks q and loads one word; then the writer begins a first tick and
      gets as far as its count. */
  function Opening(q: Query, op: Op): seq<ColdEvent> { [Get(0, q), Go(0), Do(op)] + Writes(3) }

  lemma Called(trail: seq<nat>, q: Query)
    requires EveryWord(trail) && LooksTwice(q)
    ensures var c := RunCold(NewBook(trail, q), [Get(0, q), Go(0)]);
      && Current(c) && c.ops == [] && c.queries == [q] && c.db.Stores() == 0 && c.db.readers[0].buf == 0
      && c.db.writer.Quiet? && c.db.hist == [Empty()] && c.At(0) == Resume(q, First, 0)
  {
    var c0, es := NewBook(trail, q), [Get(0, q), Go(0)];
    var c1 := StepCold(c0, es[0]);
    assert c1.db.readers[0] == Loaded(0, 0, [], 0, true) && c1.At(0) == Position(q, []) == First;
    GoLoads(c1);
    assert RunCold(c0, es[..1]) == c1 by { assert es[..1][..0] == []; }
  }

  /** The first operation begins; readers do not notice. */
  lemma Begun(c: ColdState, op: Op)
    requires Current(c) && c.db.writer.Quiet? && c.db.hist == [Empty()]
    ensures var d := StepCold(c, Do(op));
      && Current(d) && d.ops == c.ops + [op] && d.queries == c.queries && d.db.readers == c.db.readers
      && d.db.images == c.db.images && d.db.writer == Editing(OpWrites(Empty(), op))
  {
  }

  lemma OpeningRun(trail: seq<nat>, q: Query, op: Op, side: Side)
    requires EveryWord(trail) && LooksTwice(q) && Adds(op, side)
    ensures var c := RunCold(NewBook(trail, q), Opening(q, op));
      && Current(c) && c.ops == [op] && c.queries == [q] && c.db.Stores() == 0 && c.db.readers[0].buf == 0
      && c.db.writer.Editing? && |c.db.writer.stores| == 1 && c.At(0) == Resume(q, First, 0)
  {
    var c0, es := NewBook(trail, q), [Get(0, q), Go(0), Do(op)];
    var c2 := RunCold(c0, [Get(0, q), Go(0)]);
    Called(trail, q);
    assert es[..2] == [Get(0, q), Go(0)];
    Begun(c2, op);
    var c3 := StepCold(c2, Do(op));
    assert RunCold(c0, es) == c3;
    FirstWrites(op, side);
    RunAppend(c0, es, Writes(3));
    WritesRun(c3, 3);
  }

  lemma {:induction false} SnapshotLoads(op: Op, cells: seq<int>)
    requires Adds(op, Bid) && EarlyWords(op, cells) && cells[COLD_BID_COUNT] == 1
    ensures LoadAll(Snapshot, Resume(Snapshot, First, 0), cells, 6) ==
      Done(Snap(0, [Level(op.price, op.quantity)], []))
  {
    var q, x, c0 := Snapshot, Level(op.price, op.quantity), Count(Bid, 0, 0, [], []);
    assert LevelAt(cells, Bid, 0) == x && cells[CountCell(Ask)] == 0;
    assert LoadAll(q, c0, cells, 1) == Test(Bid, 0, 1, 0, [], []);
    assert LoadAll(q, c0, cells, 2) == Price(Bid, 0, 1, 0, [], []);
    assert LoadAll(q, c0, cells, 3) == Quantity(Bid, 0, 1, 0, [], [], x.price);
    assert LoadAll(q, c0, cells, 4) == Count(Bid, 1, 0, [], [x]);
    assert LoadAll(q, c0, cells, 5) == Count(Ask, 0, 0, [x], []);
  }

  lemma {:induction false} FastLoads(side: Side, op: Op, cells: seq<int>)
    requires Adds(op, side) && EarlyWords(op, cells) && cells[CountCell(side)] == 1
    ensures LoadAll(FastLevels(side), Resume(FastLevels(side), First, 0), cells, 4) ==
      Done(FastList([Level(op.price, op.quantity)], 0))
  {
    var q, x, c0 := FastLevels(side), Level(op.price, op.quantity), Count(side, 0, 0, [], []);
    assert LevelAt(cells, side, 0) == x;
    assert LoadAll(q, c0, cells, 1) == Price(side, 0, 1, 0, [], []);
    assert LoadAll(q, c0, cells, 2) == Quantity(side, 0, 1, 0, [], [], x.price);
    assert LoadAll(q, c0, cells, 3) == Count(side, 1, 0, [], [x]);
  }

  /** The run in which reader 0 loads n more words after the opening. */
  lemma {:induction false} TornRun(trail: seq<nat>, q: Query, op: Op, side: Side, n: nat)
    requires EveryWord(trail) && LooksTwice(q) && Adds(op, side)
    ensures var c := RunCold(NewBook(trail, q), Opening(q, op) + Loads(n)); var cells := c.db.bufs[0];
      && Current(c) && c.ops == [op] && c.queries == [q] && c.db.Stores() == 0
      && EarlyWords(op, cells) && cells[CountCell(side)] == 1
      && c.At(0) == LoadAll(q, Resume(q, First, 0), cells, n)
  {
    var c0 := NewBook(trail, q);
    var c := RunCold(c0, Opening(q, op));
    OpeningRun(trail, q, op, side);
    RunKeepsStart(c0, Opening(q, op));
    FirstWrites(op, side);
    FourIsEarly(op, side, 3);
    RunAppend(c0, Opening(q, op), Loads(n));
    LoadsRun(c, n);
  }

  /** From the constructed state: a snapshot loads the time, the first bid tick stores its level
      and its count, and the snapshot returns time zero with one bid, a book that never was. */
  lemma SnapshotTorn(trail: seq<nat>, op: Op) returns (es: seq<ColdEvent>)
    requires EveryWord(trail) && Adds(op, Bid)
    ensures var c := RunCold(NewBook(trail, Snapshot), es);
      && Finished(c, 0, Snapshot, 0) && c.ops == [op]
      && c.At(0).reply == Snap(0, [Level(op.price, op.quantity)], [])
  {
    es := Opening(Snapshot, op) + Loads(6);
    TornRun(trail, Snapshot, op, Bid, 6);
    SnapshotLoads(op, RunCold(NewBook(trail, Snapshot), es).db.bufs[0]);
  }

  /** Likewise a fast list can return a level with a count of zero. */
  lemma FastListTorn(trail: seq<nat>, op: Op, side: Side) returns (es: seq<ColdEvent>)
    requires EveryWord(trail) && Adds(op, side)
    ensures var q := FastLevels(side); var c := RunCold(NewBook(trail, q), es);
      && Finished(c, 0, q, 0) && c.ops == [op]
      && c.At(0).reply == FastList([Level(op.price, op.quantity)], 0)
  {
    var q := FastLevels(side);
    es := Opening(q, op) + Loads(4);
    TornRun(trail, q, op, side, 4);
    FastLoads(side, op, RunCold(NewBook(trail, q), es).db.bufs[0]);
  }

  // ----- exactly which cold reads return one book -----

  /** The reply is that of the book after some one number of operations: those published at the
      load, or one more. */
  ghost predicate OneBook(c: ColdState, r: nat, q: Query, n: nat)
    requires Finished(c, r, q, n)
  {
    exists k :: n <= k <= n + 1 && k <= |c.ops| && c.At(r).reply == Answer(q, Listing(RunMap(c.ops[..k])))
  }

  /** In every run, of every reader. */
  ghost predicate AlwaysOneBook(q: Query, n: nat) {
    forall c0: ColdState, es: seq<ColdEvent>, r: nat ::
      ColdInit(c0) && Finished(RunCold(c0, es), r, q, n) ==> OneBook(RunCold(c0, es), r, q, n)
  }

  /** A getter that looks once answers, before the first publication, for the empty book or for
      the book after the first operation. */
  lemma {:induction false} EarlyIsOneBook(c0: ColdState, es: seq<ColdEvent>, r: nat, q: Query)
    requires ColdInit(c0) && !LooksTwice(q) && Finished(RunCold(c0, es), r, q, 0)
    ensures OneBook(RunCold(c0, es), r, q, 0)
  {
    RunKeepsStart(c0, es);
    var c := RunCold(c0, es);
    assert Early(c.db, FirstOp(c.ops), q, c.db.readers[r]);
    FollowsIsRun(c.db.hist, c.ops, 0);
    assert c.db.hist[0] == Empty();
    if c.ops != [] {
      FollowsIsRun(c.db.hist, c.ops, 1);
      assert c.db.hist[0 + 1] == StepBook(c.db.hist[0], c.ops[0]);
    }
  }

  lemma {:induction false} LateIsOneBook(c0: ColdState, es: seq<ColdEvent>, r: nat, q: Query, n: nat)
    requires ColdInit(c0) && n > 0 && Finished(RunCold(c0, es), r, q, n)
    ensures OneBook(RunCold(c0, es), r, q, n)
  {
    ColdGettersLinearize(c0, es, r, q, n);
  }

  lemma FirstBooks(op: Op)
    ensures Listing(RunMap([])) == Empty() && Listing(RunMap([op])) == StepBook(Empty(), op)
  {
    FastRefinesSimple([]);
    FastRefinesSimple([op]);
    assert [op][..0] == [];
  }

  lemma NotOneBook(c: ColdState, q: Query, op: Op)
    requires Finished(c, 0, q, 0) && c.ops == [op]
    requires c.At(0).reply != Answer(q, Empty()) && c.At(0).reply != Answer(q, StepBook(Empty(), op))
    ensures !OneBook(c, 0, q, 0)
  {
    FirstBooks(op);
    assert c.ops[..0] == [] && c.ops[..1] == [op];
  }

  lemma LookingTwiceFails(q: Query)
    requires LooksTwice(q)
    ensures !AlwaysOneBook(q, 0)
  {
    var trail := Trail();
    var side := if q.Snapshot? then Bid else q.side;
    var op := Tick(if side.Bid? then BID else ASK, 100, 1, 7);
    var es;
    if q.Snapshot? {
      es := SnapshotTorn(trail, op);
    } else {
      es := FastListTorn(trail, op, side);
      AddedBook(op, side);
    }
    NotOneBook(RunCold(NewBook(trail, q), es), q, op);
  }

  /** With no pointer store between its load and its last word, a cold getter returns one book in
      every run exactly when it was called after the first publication or looks only once. */
  lemma OneBookExactly(q: Query, n: nat)
    ensures AlwaysOneBook(q, n) <==> n > 0 || !LooksTwice(q)
  {
    if n == 0 && LooksTwice(q) {
      LookingTwiceFails(q);
    } else {
      forall c0: ColdState, es: seq<ColdEvent>, r: nat | ColdInit(c0) && Finished(RunCold(c0, es), r, q, n)
        ensures OneBook(RunCold(c0, es), r, q, n)
      {
        if n > 0 { LateIsOneBook(c0, es, r, q, n); } else { EarlyIsOneBook(c0, es, r, q); }
      }
    }
  }
}
