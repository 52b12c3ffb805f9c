/** Optimistic reads behind a version counter: one writer that changes words one at a time
    between two increments of the version, any number of readers that load the version, run
    a reading program word by word and load the version again, in any interleaving.

    The memory is meant to show values of some type A; shows(cells, a) says when it does. */
module Seqlock {
  import opened Memory

  /** A reading program: given the words read so far, read another word or return. */
  datatype Action = Read(cell: nat) | Return(result: seq<int>)
  type Program = seq<int> -> Action

  /** begun counts the operations begun, done those completed; hist[n] is the value after n
      operations. low and high are done at a call's start and begun at its return. */
  datatype Reader =
    | Idle
    | Start(prog: Program, low: nat)                                      // before the first version load
    | Reading(prog: Program, low: nat, seen: nat, vals: seq<int>, snap: seq<int>, at: nat)
    | Done(prog: Program, low: nat, vals: seq<int>, snap: seq<int>, at: nat, result: seq<int>, high: nat)

  datatype Writer =
    | Quiet
    | Begun(stores: seq<Write>)     // operation begun, version not yet raised; no stores: skipped
    | Writing(stores: seq<Write>)   // version odd, these stores still to do
    | Closed                        // version even again, operation not yet complete

  datatype State<A> = State(
    cells: seq<int>, version: nat, writer: Writer, readers: seq<Reader>,
    hist: seq<A>, done: nat)

  datatype Event<A> =
    | Begin(value: A, stores: seq<Write>)   // the writer starts an operation leading to value
    | WriterGo
    | Call(r: nat, prog: Program)
    | ReaderGo(r: nat)

  /** What the writer must see to: its stores, or skipping them, make the memory show the value. */
  ghost predicate Admissible<A>(shows: (seq<int>, A) -> bool, cells: seq<int>, value: A, stores: seq<Write>) {
    shows(Store(cells, stores), value)
  }

  ghost function WriterStep<A>(s: State<A>): State<A>
    requires |s.hist| > 0
  {
    match s.writer
    case Quiet => s
    case Begun(ws) => if ws == [] then s.(writer := Closed) else s.(version := s.version + 1, writer := Writing(ws))
    case Writing(ws) =>
      if ws == [] then s.(version := s.version + 1, writer := Closed)
      else s.(cells := Store(s.cells, [ws[0]]), writer := Writing(ws[1..]))
    case Closed => s.(done := |s.hist| - 1, writer := Quiet)
  }

  /** The operation whose value the memory shows while the version is even. */
  ghost function Shown<A>(s: State<A>): int {
    if s.writer.Begun? then |s.hist| - 2 else |s.hist| - 1
  }

  ghost function ReaderStep<A>(s: State<A>, rd: Reader): Reader
    requires |s.hist| > 0
  {
    match rd
    case Idle => rd
    case Done(_, _, _, _, _, _, _) => rd
    case Start(p, low) =>
      if s.version % 2 == 1 || Shown(s) < 0 then rd
      else Reading(p, low, s.version, [], s.cells, Shown(s))
    case Reading(p, low, seen, vals, snap, at) =>
      match p(vals)
      case Read(c) => if c < |s.cells| then Reading(p, low, seen, vals + [s.cells[c]], snap, at) else rd
      case Return(x) =>
        if s.version == seen then Done(p, low, vals, snap, at, x, |s.hist| - 1) else Start(p, low)
  }

  ghost function Step<A>(shows: (seq<int>, A) -> bool, s: State<A>, e: Event<A>): State<A>
    requires |s.hist| > 0
  {
    match e
    case Begin(a, ws) =>
      if s.writer.Quiet? && Admissible(shows, s.cells, a, ws) then s.(hist := s.hist + [a], writer := Begun(ws)) else s
    case WriterGo => WriterStep(s)
    case Call(r, p) =>
      if r < |s.readers| && (s.readers[r].Idle? || s.readers[r].Done?)
      then s.(readers := s.readers[r := Start(p, s.done)]) else s
    case ReaderGo(r) =>
      if r < |s.readers| then s.(readers := s.readers[r := ReaderStep(s, s.readers[r])]) else s
  }

  // ----- the invariant -----

  /** vals is what the program reads when run on the words of snap. */
  ghost predicate Trace(p: Program, snap: seq<int>, vals: seq<int>) {
    forall j :: 0 <= j < |vals| ==>
      p(vals[..j]).Read? && p(vals[..j]).cell < |snap| && vals[j] == snap[p(vals[..j]).cell]
  }

  ghost predicate WriterInv<A>(shows: (seq<int>, A) -> bool, s: State<A>) {
    var n := |s.hist| - 1;
    && n >= 0 && s.done == (if s.writer.Quiet? then n else n - 1) && s.done >= 0
    && (s.writer.Writing? <==> s.version % 2 == 1)
    && match s.writer
       case Begun(ws) => shows(s.cells, s.hist[n - 1]) && shows(Store(s.cells, ws), s.hist[n])
       case Writing(ws) => shows(Store(s.cells, ws), s.hist[n])
       case _ => shows(s.cells, s.hist[n])
  }

  ghost predicate ReaderInv<A>(shows: (seq<int>, A) -> bool, s: State<A>, rd: Reader)
    requires |s.hist| > 0
  {
    match rd
    case Idle => true
    case Start(_, low) => low <= s.done
    case Reading(p, low, seen, vals, snap, at) =>
      && low <= s.done && seen % 2 == 0 && seen <= s.version
      && low <= at < |s.hist| && shows(snap, s.hist[at])
      && (seen == s.version ==> s.cells == snap && Trace(p, snap, vals))
    case Done(p, low, vals, snap, at, x, high) =>
      && low <= at <= high < |s.hist| && shows(snap, s.hist[at])
      && Trace(p, snap, vals) && p(vals) == Return(x)
  }

  ghost predicate Inv<A>(shows: (seq<int>, A) -> bool, s: State<A>) {
    && WriterInv(shows, s)
    && forall r :: 0 <= r < |s.readers| ==> ReaderInv(shows, s, s.readers[r])
  }

  ghost predicate Init<A>(shows: (seq<int>, A) -> bool, s: State<A>) {
    && |s.hist| == 1 && shows(s.cells, s.hist[0])
    && s.version == 0 && s.writer.Quiet? && s.done == 0
    && forall r :: 0 <= r < |s.readers| ==> s.readers[r].Idle?
  }

  lemma WriterKeeps<A>(shows: (seq<int>, A) -> bool, s: State<A>)
    requires Inv(shows, s)
    ensures Inv(shows, WriterStep(s))
  {
    var t := WriterStep(s);
    if s.writer.Writing? && s.writer.stores != [] {
      var ws := s.writer.stores;
      assert [ws[0]] + ws[1..] == ws;
      StoreAppend(s.cells, [ws[0]], ws[1..]);
    }
    forall r | 0 <= r < |t.readers|
      ensures ReaderInv(shows, t, t.readers[r])
    {
      assert ReaderInv(shows, s, s.readers[r]);
    }
  }

  lemma ReaderKeeps<A>(shows: (seq<int>, A) -> bool, s: State<A>, rd: Reader)
    requires WriterInv(shows, s) && ReaderInv(shows, s, rd)
    ensures ReaderInv(shows, s, ReaderStep(s, rd))
  {
    if rd.Reading? && rd.prog(rd.vals).Read? && rd.seen == s.version {
      var c := rd.prog(rd.vals).cell;
      if c < |s.cells| {
        var longer := rd.vals + [s.cells[c]];
        assert forall j :: 0 <= j <= |rd.vals| ==> longer[..j] == rd.vals[..j];
      }
    }
  }

  lemma StepKeeps<A>(shows: (seq<int>, A) -> bool, s: State<A>, e: Event<A>)
    requires Inv(shows, s)
    ensures Inv(shows, Step(shows, s, e)) && s.hist <= Step(shows, s, e).hist
  {
    var t := Step(shows, s, e);
    match e
    case WriterGo => WriterKeeps(shows, s);
    case ReaderGo(r) =>
      if r < |s.readers| { ReaderKeeps(shows, s, s.readers[r]); }
      assert forall q :: 0 <= q < |t.readers| && q != r ==> t.readers[q] == s.readers[q];
    case _ =>
      forall q | 0 <= q < |t.readers|
        ensures ReaderInv(shows, t, t.readers[q])
      {
        assert ReaderInv(shows, s, s.readers[q]);
      }
  }

  ghost function Run<A>(shows: (seq<int>, A) -> bool, s: State<A>, es: seq<Event<A>>): (r: State<A>)
    requires |s.hist| > 0
    ensures |r.hist| > 0
  {
    if es == [] then s
    else Step(shows, Run(shows, s, es[..|es| - 1]), es[|es| - 1])
  }

  lemma {:induction false} RunKeeps<A>(shows: (seq<int>, A) -> bool, s: State<A>, es: seq<Event<A>>)
    requires Init(shows, s)
    ensures Inv(shows, Run(shows, s, es))
  {
    if es != [] {
      RunKeeps(shows, s, es[..|es| - 1]);
      StepKeeps(shows, Run(shows, s, es[..|es| - 1]), es[|es| - 1]);
    }
  }

  /** Every finished read is atomic: there is one operation, begun before the read returned and
      not older than what was complete when it was called, such that all words the program
      read, and hence its result, come from one memory image showing that operation's value. */
  lemma {:induction false} ReadsAreAtomic<A>(shows: (seq<int>, A) -> bool, s0: State<A>, es: seq<Event<A>>, r: nat)
    requires Init(shows, s0) && r < |Run(shows, s0, es).readers|
    requires Run(shows, s0, es).readers[r].Done?
    ensures var s := Run(shows, s0, es); var rd := s.readers[r];
      && rd.low <= rd.at <= rd.high < |s.hist|
      && shows(rd.snap, s.hist[rd.at])
      && Trace(rd.prog, rd.snap, rd.vals) && rd.prog(rd.vals) == Return(rd.result)
  {
    RunKeeps(shows, s0, es);
  }

  // ----- reads do end -----

  /** Steps of one reader while the writer stands still. */
  ghost function ReadAlone<A>(s: State<A>, rd: Reader, n: nat): Reader
    requires |s.hist| > 0
  {
    if n == 0 then rd else ReaderStep(s, ReadAlone(s, rd, n - 1))
  }

  lemma {:induction false} AloneReads<A>(s: State<A>, p: Program, low: nat, vals: seq<int>)
    requires |s.hist| > 0 && s.version % 2 == 0 && Shown(s) >= 0 && Trace(p, s.cells, vals)
    ensures ReadAlone(s, Start(p, low), |vals| + 1) == Reading(p, low, s.version, vals, s.cells, Shown(s))
  {
    var n := |vals|;
    if n == 0 {
      assert ReadAlone(s, Start(p, low), 0) == Start(p, low);
    } else {
      var before := vals[..n - 1];
      forall j | 0 <= j < n - 1
        ensures before[..j] == vals[..j] && before[j] == vals[j]
      {
      }
      AloneReads(s, p, low, before);
      assert vals == before + [vals[n - 1]];
    }
  }

  /** While the version is even and the writer stands still, a read ends: after one load of the
      version, the words of its program and one more load of the version, with what the program
      returns on the memory as it is. So a read goes round again only after a write. */
  lemma {:induction false} ReadsEnd<A>(s: State<A>, p: Program, low: nat, vals: seq<int>, result: seq<int>)
    requires |s.hist| > 0 && s.version % 2 == 0 && Shown(s) >= 0
    requires Trace(p, s.cells, vals) && p(vals) == Return(result)
    ensures ReadAlone(s, Start(p, low), |vals| + 2)
      == Done(p, low, vals, s.cells, Shown(s), result, |s.hist| - 1)
  {
    AloneReads(s, p, low, vals);
  }

  /** Steps of the writer alone. */
  ghost function WriteAlone<A>(s: State<A>, n: nat): (r: State<A>)
    requires |s.hist| > 0
    ensures |r.hist| > 0
    decreases n
  {
    if n == 0 then s else WriteAlone(WriterStep(s), n - 1)
  }

  lemma {:induction false} StoresEnd<A>(s: State<A>, ws: seq<Write>)
    requires |s.hist| > 0 && s.writer == Writing(ws)
    ensures WriteAlone(s, |ws| + 2)
      == s.(cells := Store(s.cells, ws), version := s.version + 1, writer := Quiet, done := |s.hist| - 1)
    decreases |ws|
  {
    if ws == [] {
      assert WriteAlone(s, 2) == WriterStep(WriterStep(s));
    } else {
      StoreAppend(s.cells, [ws[0]], ws[1..]);
      assert [ws[0]] + ws[1..] == ws;
      StoresEnd(WriterStep(s), ws[1..]);
    }
  }

  /** An operation that has begun ends, its stores done in order between two increments of the version,
      or with no store and no increment if there is none to do. */
  lemma {:induction false} WritesEnd<A>(s: State<A>, ws: seq<Write>)
    requires |s.hist| > 0 && s.writer == Begun(ws)
    ensures var r := WriteAlone(s, if ws == [] then 2 else |ws| + 3);
      && r.writer.Quiet? && r.done == |s.hist| - 1 && r.hist == s.hist && r.cells == Store(s.cells, ws)
      && r.version == s.version + if ws == [] then 0 else 2
  {
    if ws == [] {
      assert WriteAlone(s, 2) == WriterStep(WriterStep(s));
    } else {
      StoresEnd(WriterStep(s), ws);
    }
  }
}
