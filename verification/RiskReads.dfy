/** Concurrent publication of risk parameters: limit words behind a version counter, and the
    original parameters behind a double buffer. */
module RiskReads {
  import opened Memory
  import opened RiskEngine
  import Seqlock
  import DoubleBuffer

  /** The five words that publishParams copies, in structure order. */
  ghost function Words(l: Limits): seq<int> {
    [l.maxOrderValue, l.maxPositionValue, l.maxTotalPositionValue, l.minAvailableCapital, l.maxOrdersPerSecond]
  }

  /** The words hold the converted limits of a parameter set. */
  ghost predicate ShowsLimits(conv: real -> int, cells: seq<int>, p: Parameters) {
    cells == [conv(p.maxOrderValue), conv(p.maxPositionValue), conv(p.maxTotalPositionValue),
              conv(p.minAvailableCapital), p.maxOrdersPerSecond]
  }

  ghost function LimitShows(conv: real -> int): (seq<int>, Parameters) -> bool {
    (cells, p) => ShowsLimits(conv, cells, p)
  }

  /** The memcpy of publishParams. */
  ghost function CopyStores(l: Limits): seq<Write> { CopyOf(Words(l)) }

  /** The reading programs of checkOrder (its first four words) and of the rate limiter. */
  function Next(rate: bool, vals: seq<int>): Seqlock.Action {
    if rate then (if |vals| == 0 then Seqlock.Read(4) else Seqlock.Return([vals[0]]))
    else if |vals| < 4 then Seqlock.Read(|vals|)
    else Seqlock.Return(vals[..4])
  }

  function Prog(rate: bool): Seqlock.Program { vals => Next(rate, vals) }

  ghost function Answer(rate: bool, conv: real -> int, p: Parameters): seq<int> {
    if rate then [p.maxOrdersPerSecond]
    else [conv(p.maxOrderValue), conv(p.maxPositionValue), conv(p.maxTotalPositionValue), conv(p.minAvailableCapital)]
  }

  lemma ProgCorrect(
    rate: bool, conv: real -> int, snap: seq<int>, p: Parameters, vals: seq<int>, result: seq<int>)
    requires ShowsLimits(conv, snap, p)
    requires Seqlock.Trace(Prog(rate), snap, vals) && Prog(rate)(vals) == Seqlock.Return(result)
    ensures result == Answer(rate, conv, p)
  {
    assert forall j :: 0 <= j < |vals| ==> Prog(rate)(vals[..j]) == Next(rate, vals[..j]);
  }

  /** An updateParameters call always begins: its copy makes the words show its limits. */
  lemma UpdatesBegin(conv: real -> int, s: Seqlock.State<Parameters>, p: Parameters)
    requires Seqlock.Inv(LimitShows(conv), s) && s.writer.Quiet?
    ensures Seqlock.Step(LimitShows(conv), s, Seqlock.Begin(p, CopyStores(BuildHot(conv, p)))).hist == s.hist + [p]
  {
    StoreCopy(s.cells, Words(BuildHot(conv, p)));
    assert ShowsLimits(conv, s.cells, s.hist[|s.hist| - 1]);
  }

  /** Every read that returns from inside the retry loop sees the converted limits of one published
      parameter set, not older than the last update complete at its start. */
  lemma {:induction false} LimitReadsAreAtomic(
    conv: real -> int, s0: Seqlock.State<Parameters>, es: seq<Seqlock.Event<Parameters>>, r: nat, rate: bool)
    requires Seqlock.Init(LimitShows(conv), s0)
    requires r < |Seqlock.Run(LimitShows(conv), s0, es).readers|
    requires var rd := Seqlock.Run(LimitShows(conv), s0, es).readers[r]; rd.Done? && rd.prog == Prog(rate)
    ensures var s := Seqlock.Run(LimitShows(conv), s0, es); var rd := s.readers[r];
      rd.low <= rd.at <= rd.high < |s.hist| && rd.result == Answer(rate, conv, s.hist[rd.at])
  {
    Seqlock.ReadsAreAtomic(LimitShows(conv), s0, es, r);
    var s := Seqlock.Run(LimitShows(conv), s0, es);
    var rd := s.readers[r];
    ProgCorrect(rate, conv, rd.snap, s.hist[rd.at], rd.vals, rd.result);
  }

  /** Such a read ends when no update is being written: it returns the limits of the last one. */
  lemma {:induction false} LimitReadsEnd(conv: real -> int, s: Seqlock.State<Parameters>, rate: bool)
    requires Seqlock.Inv(LimitShows(conv), s) && s.version % 2 == 0
    ensures exists n: nat :: var rd := Seqlock.ReadAlone(s, Seqlock.Start(Prog(rate), s.done), n);
      rd.Done? && 0 <= Seqlock.Shown(s) < |s.hist| && rd.result == Answer(rate, conv, s.hist[Seqlock.Shown(s)])
  {
    var p := s.hist[Seqlock.Shown(s)];
    assert ShowsLimits(conv, s.cells, p);
    var vals := if rate then [s.cells[4]] else s.cells[..4];
    forall j | 0 <= j < |vals|
      ensures Prog(rate)(vals[..j]) == Seqlock.Read(if rate then 4 else j)
    {
    }
    assert Prog(rate)(vals) == Seqlock.Return(Answer(rate, conv, p));
    Seqlock.ReadsEnd(s, Prog(rate), s.done, vals, Answer(rate, conv, p));
    assert Seqlock.ReadAlone(s, Seqlock.Start(Prog(rate), s.done), |vals| + 2).Done?;
  }

  // ----- the parameters as configured -----

  // A cold buffer: six parameter words, then five limit words, then the update time.
  const PARAM_WORDS: nat := 6
  const COLD_WORDS: nat := 12

  /** The stored form of a parameter set; bits is the bit pattern of a double. */
  ghost function ParamWords(bits: real -> int, p: Parameters): (ws: seq<int>)
    ensures |ws| == PARAM_WORDS
  {
    [bits(p.maxOrderValue), bits(p.maxPositionValue), p.maxOrdersPerSecond,
     bits(p.maxTotalPositionValue), bits(p.minAvailableCapital), bits(p.maxDrawdownPercent)]
  }

  ghost predicate ShowsParams(bits: real -> int, cells: seq<int>, p: Parameters) {
    |cells| == COLD_WORDS && cells[..PARAM_WORDS] == ParamWords(bits, p)
  }

  ghost function ParamShows(bits: real -> int): (seq<int>, Parameters) -> bool {
    (cells, p) => ShowsParams(bits, cells, p)
  }

  /** The stores of updateParameters into the dark buffer: the parameters, the time, the limits. */
  ghost function UpdateStores(bits: real -> int, p: Parameters, l: Limits, now: nat): seq<Write> {
    CopyOf(ParamWords(bits, p))
    + [(11, now), (6, l.maxOrderValue), (7, l.maxPositionValue), (8, l.maxTotalPositionValue),
       (9, l.minAvailableCapital), (10, l.maxOrdersPerSecond)]
  }

  /** After its pointer store an update copies the limit words into the buffer it retired. */
  ghost predicate LimitWords(trail: seq<nat>) {
    forall c :: c in trail ==> 6 <= c < 11
  }

  /** Both buffers hold the defaults, and the roles are in different buffers. */
  ghost predicate ParamInit(bits: real -> int, s: DoubleBuffer.State<Parameters>) {
    && DoubleBuffer.Init(ParamShows(bits), s) && s.apart && s.Words() == COLD_WORDS && LimitWords(s.trail)
    && s.hist == [DEFAULTS]
  }

  /** An update always begins: its stores make the dark buffer show its parameters. */
  lemma {:induction false} ParamUpdatesBegin(
    bits: real -> int, s: DoubleBuffer.State<Parameters>, p: Parameters, l: Limits, now: nat)
    requires DoubleBuffer.Inv(ParamShows(bits), s) && s.writer.Quiet? && s.Words() == COLD_WORDS
    ensures DoubleBuffer.Step(ParamShows(bits), s, DoubleBuffer.Begin(p, UpdateStores(bits, p, l, now))).hist
      == s.hist + [p]
  {
    var cells, ws, all := s.bufs[s.dark], ParamWords(bits, p), UpdateStores(bits, p, l, now);
    var rest := all[PARAM_WORDS..];
    StoreCopy(cells, ws);
    assert all == CopyOf(ws) + rest;
    StoreAppend(cells, CopyOf(ws), rest);
    forall c: nat | c < PARAM_WORDS
      ensures Store(cells, all)[c] == ws[c]
    {
      StoreMisses(Store(cells, CopyOf(ws)), rest, c);
    }
    assert Store(cells, all)[..PARAM_WORDS] == ws;
  }

  /** A copy of the parameter words, load by load. */
  ghost predicate CopiesParams(log: seq<(nat, int)>) {
    |log| == PARAM_WORDS && forall j :: 0 <= j < PARAM_WORDS ==> log[j].0 == j
  }

  /** Whatever the interleaving, a getParameters copy that ends before the second update after its
      load has begun is one whole published parameter set, the last one published at its load. */
  lemma {:induction false} ParameterCopiesAreWhole(
    bits: real -> int, s: DoubleBuffer.State<Parameters>, es: seq<DoubleBuffer.Event<Parameters>>, r: nat)
    requires ParamInit(bits, s) && r < |DoubleBuffer.Run(ParamShows(bits), s, es).readers|
    requires var rd := DoubleBuffer.Run(ParamShows(bits), s, es).readers[r];
      rd.Loaded? && rd.intact && CopiesParams(rd.log)
    ensures var t := DoubleBuffer.Run(ParamShows(bits), s, es); var rd := t.readers[r];
      rd.at < |t.hist| && forall j :: 0 <= j < PARAM_WORDS ==> rd.log[j].1 == ParamWords(bits, t.hist[rd.at])[j]
  {
    DoubleBuffer.ReadBeforeSecondOperation(ParamShows(bits), s, es, r);
    var t := DoubleBuffer.Run(ParamShows(bits), s, es);
    var rd := t.readers[r];
    var image, ws := t.images[rd.at], ParamWords(bits, t.hist[rd.at]);
    forall j | 0 <= j < PARAM_WORDS
      ensures rd.log[j].1 == ws[j]
    {
      assert rd.log[j].0 !in s.trail;
      assert image[..PARAM_WORDS][j] == ws[j];
    }
  }
}
