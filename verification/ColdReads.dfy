/** The fast book's cold getters against its concurrent writer: the writer performs the stores of
    each operation on its buffer, the pointer store and the copy back; each getter loads the
    pointer once and then word after word through it, in any interleaving. */
module ColdReads {
  import opened PriceLevels
  import opened Books
  import opened Memory
  import opened ColdLayout
  import opened ColdGetters
  import opened DoubleBuffer

  datatype ColdEvent =
    | Do(op: Op)
    | Write
    | Get(r: nat, q: Query)
    | Go(r: nat)

  /** ops are the operations begun; queries[r] is what reader r last asked. */
  datatype ColdState = ColdState(db: State<Book>, ops: seq<Op>, queries: seq<Query>)
  {
    ghost function At(r: nat): Cursor
      requires r < |queries| && r < |db.readers|
    {
      if db.readers[r].Loaded? then Position(queries[r], db.readers[r].log) else First
    }
  }

  ghost predicate Sized(c: ColdState) {
    WellFormed(c.db) && |c.queries| == |c.db.readers| && |c.db.hist| > 0 && c.db.Words() == COLD_WORDS
  }

  /** A writer that is busy starts nothing; a reader that is busy takes no new question. */
  ghost function StepCold(c: ColdState, e: ColdEvent): (r: ColdState)
    requires Sized(c)
    ensures Sized(r) && |r.queries| == |c.queries| && c.db.hist <= r.db.hist
  {
    match e
    case Do(op) =>
      if !c.db.writer.Quiet? then c
      else
        var b := c.db.hist[|c.db.hist| - 1];
        c.(db := c.db.(writer := Editing(OpWrites(b, op)), hist := c.db.hist + [StepBook(b, op)]), ops := c.ops + [op])
    case Write => c.(db := WriterStep(c.db))
    case Get(r, q) =>
      if r < |c.queries| && (c.db.readers[r].Idle? || c.At(r).Done?)
      then c.(db := Step(ShowsBook, c.db, Load(r)), queries := c.queries[r := q]) else c
    case Go(r) =>
      if r < |c.queries| && c.db.readers[r].Loaded? && !c.At(r).Done?
      then c.(db := Step(ShowsBook, c.db, Read(r, Want(c.queries[r], c.At(r))))) else c
  }

  ghost function RunCold(c: ColdState, es: seq<ColdEvent>): (r: ColdState)
    requires Sized(c)
    ensures Sized(r)
  {
    if es == [] then c else StepCold(RunCold(c, es[..|es| - 1]), es[|es| - 1])
  }

  ghost function Blank(): (cells: seq<int>)
    ensures |cells| == COLD_WORDS
  {
    seq(COLD_WORDS, _ => 0)
  }

  /** The copy back takes every word, in whatever order. */
  ghost predicate EveryWord(trail: seq<nat>) {
    (forall c :: c in trail ==> c < COLD_WORDS) && (forall c: nat :: c < COLD_WORDS ==> c in trail)
  }

  /** The constructed book: both buffers blank, both roles at buffer 0. */
  ghost predicate ColdInit(c: ColdState) {
    && Sized(c)
    && c.db == State([Blank(), Blank()], 0, 0, Quiet, c.db.trail, c.db.readers, false, [Blank()], [Book([], [], 0)])
    && EveryWord(c.db.trail)
    && (forall r :: 0 <= r < |c.db.readers| ==> c.db.readers[r].Idle?)
    && c.ops == []
  }

  /** Until the first pointer store both roles are at buffer 0 and buffer 1 is blank. */
  ghost predicate FirstInv(db: State<Book>)
    requires WellFormed(db)
  {
    db.images[0] == Blank() && (db.Stores() == 0 ==> db.active == db.dark == 0 && db.bufs[1] == Blank())
  }

  /** The buffers and the history of books. */
  ghost predicate BookInv(c: ColdState) {
    && Sized(c) && Inv(ShowsBook, c.db) && FirstInv(c.db)
    && EveryWord(c.db.trail) && !c.db.apart
    && Follows(c.db.hist, c.ops)
  }

  /** A read loaded after a first pointer store is on the book published at its load, as long as
      no pointer store has come between. */
  ghost predicate Late(hist: seq<Book>, q: Query, rd: Reader) {
    rd.Loaded? && rd.at > 0 && rd.stores == rd.at ==>
      rd.at < |hist| && OnBook(q, hist[rd.at], Position(q, rd.log))
  }

  ghost predicate ColdInv(c: ColdState) {
    BookInv(c) && forall r :: 0 <= r < |c.queries| ==> Late(c.db.hist, c.queries[r], c.db.readers[r])
  }

  // ----- between operations -----

  /** Between operations both buffers hold the last published book, word for word. */
  lemma BuffersEqual(c: ColdState)
    requires BookInv(c) && c.db.writer.Quiet?
    ensures c.db.bufs[0] == c.db.bufs[1] == c.db.images[c.db.Stores()]
    ensures ShowsBook(c.db.bufs[c.db.dark], c.db.hist[|c.ops|])
  {
    var dark, active := c.db.bufs[c.db.dark], c.db.bufs[c.db.active];
    forall i: nat | i < COLD_WORDS
      ensures dark[i] == active[i]
    {
      assert i in c.db.trail;
    }
    assert dark == active;
  }

  /** Every operation of the book begins there: its stores turn the write buffer, which shows the
      last book, into one that shows the next. */
  lemma OperationsBegin(c: ColdState, op: Op)
    requires BookInv(c) && c.db.writer.Quiet?
    ensures var b := c.db.hist[|c.ops|];
      StepCold(c, Do(op)).db == Step(ShowsBook, c.db, Begin(StepBook(b, op), OpWrites(b, op)))
  {
    BuffersEqual(c);
    OpStores(c.db.bufs[c.db.dark], c.db.hist[|c.ops|], op);
  }

  // ----- one step -----

  lemma DoKeepsBooks(c: ColdState, op: Op)
    requires BookInv(c)
    ensures BookInv(StepCold(c, Do(op)))
  {
    if c.db.writer.Quiet? {
      var b := c.db.hist[|c.ops|];
      OperationsBegin(c, op);
      StepKeeps(ShowsBook, c.db, Begin(StepBook(b, op), OpWrites(b, op)));
      FollowsOn(c.db.hist, c.ops, op);
    }
  }

  lemma OtherStepKeepsBooks(c: ColdState, e: Event<Book>, queries: seq<Query>)
    requires BookInv(c) && !e.Begin? && |queries| == |c.queries|
    ensures BookInv(c.(db := Step(ShowsBook, c.db, e), queries := queries))
  {
    StepKeeps(ShowsBook, c.db, e);
  }

  lemma StepKeepsBooks(c: ColdState, e: ColdEvent)
    requires BookInv(c)
    ensures BookInv(StepCold(c, e))
  {
    match e
    case Do(op) => DoKeepsBooks(c, op);
    case Write => OtherStepKeepsBooks(c, WriterGo, c.queries);
    case Get(r, q) =>
      if r < |c.queries| { OtherStepKeepsBooks(c, Load(r), c.queries[r := q]); }
    case Go(r) =>
      if r < |c.queries| && c.db.readers[r].Loaded? && !c.At(r).Done? {
        OtherStepKeepsBooks(c, Read(r, Want(c.queries[r], c.At(r))), c.queries);
      }
  }

  /** One more word in the log moves the cursor once. */
  lemma {:induction false} PositionMoves(q: Query, log: seq<(nat, int)>, w: (nat, int))
    requires !Position(q, log).Done?
    ensures Position(q, log + [w]) == Resume(q, Position(q, log), w.1)
  {
    assert (log + [w])[..|log|] == log;
  }

  lemma WordIsOnBook(c: ColdState, r: nat)
    requires BookInv(c) && r < |c.queries| && c.db.readers[r].Loaded? && !c.At(r).Done?
    requires Late(c.db.hist, c.queries[r], c.db.readers[r])
    ensures var rd := c.db.readers[r]; var cell := Want(c.queries[r], c.At(r));
      cell < COLD_WORDS ==>
        Late(c.db.hist, c.queries[r],
             Loaded(rd.buf, rd.at, rd.log + [(cell, c.db.bufs[rd.buf][cell])], c.db.Stores(), Intact(c.db, rd.at)))
  {
    var rd, q := c.db.readers[r], c.queries[r];
    assert ReaderInv(c.db, rd);
    var cell := Want(q, c.At(r));
    if rd.at > 0 && c.db.Stores() == rd.at && cell < COLD_WORDS {
      var b, cells := c.db.hist[rd.at], c.db.bufs[rd.buf];
      assert ShowsBook(cells, b);
      FollowsIsRun(c.db.hist, c.ops, rd.at);
      LoadOnBook(q, b, c.At(r), cells);
      PositionMoves(q, rd.log, (cell, cells[cell]));
    }
  }

  /** Only a question or a load of its own moves a reader. */
  predicate Moves(e: ColdEvent, r: nat) { (e.Get? || e.Go?) && e.r == r }

  lemma Unmoved(c: ColdState, e: ColdEvent, r: nat)
    requires Sized(c) && r < |c.queries| && !Moves(e, r)
    ensures var d := StepCold(c, e); d.queries[r] == c.queries[r] && d.db.readers[r] == c.db.readers[r]
  {
  }

  lemma GetIsLate(c: ColdState, r: nat, q: Query)
    requires BookInv(c) && r < |c.queries| && Late(c.db.hist, c.queries[r], c.db.readers[r])
    ensures var d := StepCold(c, Get(r, q)); Late(d.db.hist, d.queries[r], d.db.readers[r])
  {
    StartOnBook(q, c.db.hist[c.db.Stores()], c.db.images[c.db.Stores()]);
  }

  lemma GoIsLate(c: ColdState, r: nat)
    requires BookInv(c) && r < |c.queries| && Late(c.db.hist, c.queries[r], c.db.readers[r])
    ensures var d := StepCold(c, Go(r)); Late(d.db.hist, d.queries[r], d.db.readers[r])
  {
    if c.db.readers[r].Loaded? && !c.At(r).Done? { WordIsOnBook(c, r); }
  }

  lemma ReaderKeeps(c: ColdState, e: ColdEvent, r: nat)
    requires BookInv(c) && r < |c.queries| && Late(c.db.hist, c.queries[r], c.db.readers[r])
    ensures var d := StepCold(c, e); Late(d.db.hist, d.queries[r], d.db.readers[r])
  {
    if !Moves(e, r) {
      Unmoved(c, e, r);
    } else if e.Get? {
      GetIsLate(c, r, e.q);
    } else {
      GoIsLate(c, r);
    }
  }

  lemma StepKeepsCold(c: ColdState, e: ColdEvent)
    requires ColdInv(c)
    ensures ColdInv(StepCold(c, e))
  {
    StepKeepsBooks(c, e);
    var d := StepCold(c, e);
    forall r | 0 <= r < |d.queries|
      ensures Late(d.db.hist, d.queries[r], d.db.readers[r])
    {
      ReaderKeeps(c, e, r);
    }
  }

  lemma {:induction false} RunKeepsCold(c: ColdState, es: seq<ColdEvent>)
    requires ColdInit(c)
    ensures ColdInv(RunCold(c, es))
  {
    if es == [] {
      assert BookInv(c);
    } else {
      RunKeepsCold(c, es[..|es| - 1]);
      StepKeepsCold(RunCold(c, es[..|es| - 1]), es[|es| - 1]);
    }
  }

  /** Reader r has finished question q, loaded after n pointer stores and with no pointer store
      between its load and its last word. */
  ghost predicate Finished(c: ColdState, r: nat, q: Query, n: nat) {
    && Sized(c) && r < |c.queries| && c.queries[r] == q
    && c.db.readers[r].Loaded? && c.db.readers[r].at == n == c.db.readers[r].stores && c.At(r).Done?
  }

  lemma {:induction false} FinishedLate(c: ColdState, r: nat, q: Query, n: nat)
    requires ColdInv(c) && n > 0 && Finished(c, r, q, n)
    ensures n <= |c.ops| && c.At(r).reply == Answer(q, Listing(RunMap(c.ops[..n])))
  {
    assert Late(c.db.hist, q, c.db.readers[r]);
    FollowsIsRun(c.db.hist, c.ops, n);
  }

  /** Whatever the interleaving of one writer and any number of readers: a cold getter called
      after a first operation was published, with no pointer store between its load and its
      last word, answers for the simple reference book after the operations published at its
      load. */
  lemma {:induction false} ColdGettersLinearize(c0: ColdState, es: seq<ColdEvent>, r: nat, q: Query, n: nat)
    requires ColdInit(c0) && n > 0 && Finished(RunCold(c0, es), r, q, n)
    ensures var c := RunCold(c0, es);
      n <= |c.ops| && c.At(r).reply == Answer(q, Listing(RunMap(c.ops[..n])))
  {
    RunKeepsCold(c0, es);
    FinishedLate(RunCold(c0, es), r, q, n);
  }
}
