/** The hot getters do return: each reads a bounded number of words and, when the writer stands still
    with the version even, ends with the answer for the book shown. */
module HotProgress {
  import opened PriceLevels
  import opened Books
  import opened HotLayout
  import opened Seqlock
  import opened HotReads

  /** The words one getter reads on given memory. */
  ghost function TopWords(side: Side, snap: seq<int>, i: nat): seq<int>
    requires |snap| == HOT_WORDS
    decreases HOT_DEPTH - i
  {
    if i >= HOT_DEPTH then []
    else
      var n := snap[CountCell(side)];
      (if i >= n then [n] else [n, snap[Base(side) + i], snap[Base(side) + HOT_DEPTH + i]])
      + TopWords(side, snap, i + 1)
  }

  ghost function Words(q: Query, snap: seq<int>): seq<int>
    requires |snap| == HOT_WORDS
  {
    match q
    case BestPrice(side) =>
      var n := snap[CountCell(side)]; if n <= 0 then [n] else [n, snap[Base(side)]]
    case Top5(side) => TopWords(side, snap, 0)
    case _ =>
      var n, m := snap[BID_COUNT], snap[ASK_COUNT];
      if n <= 0 then [n] else if m <= 0 then [n, m] else [n, m, snap[BID_BASE], snap[ASK_BASE]]
  }

  lemma {:induction false} TopEnds(side: Side, snap: seq<int>, i: nat, acc: seq<int>)
    requires |snap| == HOT_WORDS && i <= HOT_DEPTH
    ensures var vals := TopWords(side, snap, i);
      TopTrace(side, snap, vals, i, acc) && TopNext(side, vals, i, acc).Return?
    decreases HOT_DEPTH - i
  {
    if i < HOT_DEPTH {
      var n, rest := snap[CountCell(side)], TopWords(side, snap, i + 1);
      var more := if i >= n then [0, 0] else [snap[Base(side) + i], snap[Base(side) + HOT_DEPTH + i]];
      TopEnds(side, snap, i + 1, acc + more);
      if i >= n {
        SkipEnds(side, snap, rest, i, acc);
      } else {
        TakeEnds(side, snap, rest, i, acc);
      }
    }
  }

  lemma {:induction false} SkipEnds(side: Side, snap: seq<int>, rest: seq<int>, i: nat, acc: seq<int>)
    requires |snap| == HOT_WORDS && i < HOT_DEPTH && i >= snap[CountCell(side)]
    requires TopTrace(side, snap, rest, i + 1, acc + [0, 0]) && TopNext(side, rest, i + 1, acc + [0, 0]).Return?
    ensures var vals := [snap[CountCell(side)]] + rest;
      TopTrace(side, snap, vals, i, acc) && TopNext(side, vals, i, acc).Return?
  {
    var vals := [snap[CountCell(side)]] + rest;
    assert vals[1..] == rest;
    forall j | 0 <= j < |vals|
      ensures var a := TopNext(side, vals[..j], i, acc); a.Read? && a.cell < |snap| && vals[j] == snap[a.cell]
    {
      if j > 0 {
        assert vals[..j][1..] == rest[..j - 1] && vals[j] == rest[j - 1];
      }
    }
  }

  lemma {:induction false} TakeEnds(side: Side, snap: seq<int>, rest: seq<int>, i: nat, acc: seq<int>)
    requires |snap| == HOT_WORDS && i < HOT_DEPTH && i < snap[CountCell(side)]
    requires var more := [snap[Base(side) + i], snap[Base(side) + HOT_DEPTH + i]];
      TopTrace(side, snap, rest, i + 1, acc + more) && TopNext(side, rest, i + 1, acc + more).Return?
    ensures var vals := [snap[CountCell(side)], snap[Base(side) + i], snap[Base(side) + HOT_DEPTH + i]] + rest;
      TopTrace(side, snap, vals, i, acc) && TopNext(side, vals, i, acc).Return?
  {
    var p, q := snap[Base(side) + i], snap[Base(side) + HOT_DEPTH + i];
    var vals := [snap[CountCell(side)], p, q] + rest;
    assert vals[3..] == rest && vals[1] == p && vals[2] == q;
    forall j | 0 <= j < |vals|
      ensures var a := TopNext(side, vals[..j], i, acc); a.Read? && a.cell < |snap| && vals[j] == snap[a.cell]
    {
      if j > 2 {
        assert vals[..j][3..] == rest[..j - 3] && vals[j] == rest[j - 3];
        assert vals[..j][1] == p && vals[..j][2] == q;
      }
    }
  }

  lemma {:induction false} PriceEnds(q: Query, snap: seq<int>)
    requires |snap| == HOT_WORDS && !q.Top5?
    ensures var vals := Words(q, snap); Trace(Prog(q), snap, vals) && Prog(q)(vals).Return?
  {
    var vals := Words(q, snap);
    assert |vals| > 0 ==> vals[..0] == [];
    assert |vals| > 1 ==> vals[..1] == [vals[0]];
    assert |vals| > 2 ==> vals[..2] == [vals[0], vals[1]];
    assert |vals| > 3 ==> vals[..3] == [vals[0], vals[1], vals[2]];
  }

  lemma {:induction false} ProgramEnds(q: Query, snap: seq<int>)
    requires |snap| == HOT_WORDS
    ensures var vals := Words(q, snap); Trace(Prog(q), snap, vals) && Prog(q)(vals).Return?
  {
    if q.Top5? {
      var vals := Words(q, snap);
      TopEnds(q.side, snap, 0, []);
      assert forall v :: Prog(q)(v) == TopNext(q.side, v, 0, []);
    } else {
      PriceEnds(q, snap);
    }
  }

  /** A getter called while no update is being written ends, if none begins, with the answer for the
      book of the last update published. */
  lemma {:induction false} GettersEnd(h: HotState, q: Query)
    requires HotInv(h) && h.lock.version % 2 == 0
    ensures exists n: nat :: var rd := ReadAlone(h.lock, Start(Prog(q), h.lock.done), n);
      rd.Done? && 0 <= Shown(h.lock) < |h.lock.hist| && rd.result == Answer(q, h.lock.hist[Shown(h.lock)])
  {
    var s := h.lock;
    var vals := Words(q, s.cells);
    ProgramEnds(q, s.cells);
    ReadsEnd(s, Prog(q), s.done, vals, Prog(q)(vals).result);
    QueryCorrect(q, s.cells, s.hist[Shown(s)], vals, Prog(q)(vals).result);
    assert ReadAlone(s, Start(Prog(q), s.done), |vals| + 2).Done?;
  }
}
