/** Two buffers and a published pointer: one writer changes the words of the dark buffer, stores
    the pointer, and copies some words back into the buffer it has just retired; readers load
    the pointer and read words through it, in any interleaving. OrderBookV2 uses this for its
    cold levels, RiskEngine for its parameters.

    A buffer is meant to show values of some type A; shows(cells, a) says when it does. */
module DoubleBuffer {
  import opened Memory

  /** at: pointer stores before the load. stores, intact: as of the last word read, the pointer
      stores so far and whether no later operation had begun to overwrite the loaded buffer. */
  datatype Reader =
    | Idle
    | Loaded(buf: nat, at: nat, log: seq<(nat, int)>, stores: nat, intact: bool)

  datatype Writer =
    | Quiet
    | Editing(stores: seq<Write>)  // these stores into the dark buffer, then the pointer store
    | Trailing(left: seq<nat>)     // published; these words are still to be copied back

  /** trail lists the words copied back after every pointer store: all words for OrderBookV2,
      only the limits for RiskEngine. History: apart says that the two roles started in
      different buffers, images[n] is the published buffer just after n pointer stores, and
      hist[n] the value after n operations, the one being written included. */
  datatype State<A> = State(
    bufs: seq<seq<int>>, active: nat, dark: nat, writer: Writer, trail: seq<nat>, readers: seq<Reader>,
    apart: bool, images: seq<seq<int>>, hist: seq<A>)
  {
    function Stores(): nat requires |images| > 0 { |images| - 1 }

    function Words(): nat requires |bufs| > 0 { |bufs[0]| }
  }

  datatype Event<A> =
    | Begin(value: A, stores: seq<Write>)  // the writer starts an operation leading to value
    | WriterGo
    | Load(r: nat)
    | Read(r: nat, cell: nat)

  ghost predicate WellFormed<A>(s: State<A>) {
    && |s.bufs| == 2 && |s.bufs[0]| == |s.bufs[1]| && s.active < 2 && s.dark < 2
    && |s.images| > 0 && (forall n :: 0 <= n < |s.images| ==> |s.images[n]| == s.Words())
    && (forall c :: c in s.trail ==> c < s.Words())
    && (s.writer.Trailing? ==> forall c :: c in s.writer.left ==> c in s.trail)
    && (forall r :: 0 <= r < |s.readers| && s.readers[r].Loaded? ==>
          s.readers[r].buf < 2 && s.readers[r].at < |s.images|)
  }

  ghost predicate Intact<A>(s: State<A>, at: nat)
    requires WellFormed(s)
  {
    s.Stores() == at || (s.Stores() == at + 1 && !s.writer.Editing?)
  }

  /** What no step changes or takes back. */
  ghost predicate Grows<A>(s: State<A>, r: State<A>)
    requires |s.bufs| > 0 && |r.bufs| > 0
  {
    && r.Words() == s.Words() && |r.readers| == |s.readers| && r.trail == s.trail && r.apart == s.apart
    && s.images <= r.images && s.hist <= r.hist
  }

  ghost function WriterStep<A>(s: State<A>): (r: State<A>)
    requires WellFormed(s)
    ensures WellFormed(r) && Grows(s, r)
  {
    match s.writer
    case Quiet => s
    case Editing(ws) =>
      if ws == [] then
        s.(active := s.dark, dark := 1 - s.dark, writer := Trailing(s.trail), images := s.images + [s.bufs[s.dark]])
      else s.(bufs := s.bufs[s.dark := Store(s.bufs[s.dark], [ws[0]])], writer := Editing(ws[1..]))
    case Trailing(left) =>
      if left == [] then s.(writer := Quiet)
      else
        var c := left[0];
        assert c in left;
        s.(bufs := s.bufs[s.dark := s.bufs[s.dark][c := s.bufs[s.active][c]]], writer := Trailing(left[1..]))
  }

  ghost function Step<A>(shows: (seq<int>, A) -> bool, s: State<A>, e: Event<A>): (r: State<A>)
    requires WellFormed(s)
    ensures WellFormed(r) && Grows(s, r)
  {
    match e
    case Begin(a, ws) =>
      if s.writer.Quiet? && shows(Store(s.bufs[s.dark], ws), a)
      then s.(writer := Editing(ws), hist := s.hist + [a]) else s
    case WriterGo => WriterStep(s)
    case Load(r) =>
      if r < |s.readers|
      then s.(readers := s.readers[r := Loaded(s.active, s.Stores(), [], s.Stores(), true)]) else s
    case Read(r, c) =>
      if r < |s.readers| && s.readers[r].Loaded? && c < s.Words() then
        var rd := s.readers[r];
        var rd' := Loaded(rd.buf, rd.at, rd.log + [(c, s.bufs[rd.buf][c])], s.Stores(), Intact(s, rd.at));
        s.(readers := s.readers[r := rd'])
      else s
  }

  ghost function Run<A>(shows: (seq<int>, A) -> bool, s: State<A>, es: seq<Event<A>>): (r: State<A>)
    requires WellFormed(s)
    ensures WellFormed(r)
  {
    if es == [] then s else Step(shows, Run(shows, s, es[..|es| - 1]), es[|es| - 1])
  }

  ghost predicate Init<A>(shows: (seq<int>, A) -> bool, s: State<A>) {
    && WellFormed(s) && s.writer.Quiet? && s.apart == (s.active != s.dark)
    && s.images == [s.bufs[s.active]] && |s.hist| == 1 && shows(s.bufs[s.active], s.hist[0])
    && Synced(s, [])
    && forall r :: 0 <= r < |s.readers| ==> s.readers[r].Idle?
  }

  // ----- the invariant -----

  /** Of the words to copy back, all but those left are the same in both buffers. */
  ghost predicate Synced<A>(s: State<A>, left: seq<nat>)
    requires WellFormed(s)
  {
    forall c :: c in s.trail && c !in left ==> s.bufs[s.dark][c] == s.bufs[s.active][c]
  }

  ghost predicate WriterInv<A>(shows: (seq<int>, A) -> bool, s: State<A>) {
    && WellFormed(s)
    && |s.hist| == |s.images| + (if s.writer.Editing? then 1 else 0)
    && (forall n :: 0 <= n < |s.images| ==> shows(s.images[n], s.hist[n]))
    && (s.apart || s.Stores() > 0 ==> s.active != s.dark)
    && (s.active != s.dark || s.writer.Quiet? ==> s.bufs[s.active] == s.images[s.Stores()])
    && match s.writer
       case Quiet => Synced(s, [])
       case Editing(ws) => shows(Store(s.bufs[s.dark], ws), s.hist[|s.hist| - 1])
       case Trailing(left) => s.active != s.dark && Synced(s, left)
  }

  /** Every word read comes from the image, except perhaps for the given words. */
  ghost predicate Whole(log: seq<(nat, int)>, image: seq<int>, except: seq<nat>) {
    forall j :: 0 <= j < |log| && log[j].0 !in except ==> log[j].0 < |image| && log[j].1 == image[log[j].0]
  }

  ghost predicate ReaderInv<A>(s: State<A>, rd: Reader)
    requires WellFormed(s) && (rd.Loaded? ==> rd.buf < 2 && rd.at < |s.images|)
  {
    rd.Loaded? ==>
      && rd.at <= rd.stores <= s.Stores()
      && (!rd.intact ==> !Intact(s, rd.at))
      && (s.apart || rd.at > 0 ==> SafeInv(s, rd))
  }

  /** What holds of a read that began when the two roles were in different buffers. */
  ghost predicate SafeInv<A>(s: State<A>, rd: Reader)
    requires WellFormed(s) && rd.Loaded? && rd.buf < 2 && rd.at < |s.images|
  {
    var image := s.images[rd.at];
    && (rd.stores == rd.at ==> Whole(rd.log, image, []))
    && (rd.intact ==> Whole(rd.log, image, s.trail))
    && (s.Stores() == rd.at ==> rd.buf == s.active)
    && (s.Stores() == rd.at + 1 ==> rd.buf == s.dark)
    && (s.Stores() == rd.at + 1 && !s.writer.Editing? ==>
          forall c :: 0 <= c < |image| && c !in s.trail ==> s.bufs[rd.buf][c] == image[c])
  }

  ghost predicate Inv<A>(shows: (seq<int>, A) -> bool, s: State<A>) {
    WriterInv(shows, s) && forall r :: 0 <= r < |s.readers| ==> ReaderInv(s, s.readers[r])
  }

  lemma BeginKeeps<A>(shows: (seq<int>, A) -> bool, s: State<A>, a: A, ws: seq<Write>)
    requires Inv(shows, s)
    ensures Inv(shows, Step(shows, s, Begin(a, ws)))
  {
    var t := Step(shows, s, Begin(a, ws));
    forall q | 0 <= q < |t.readers|
      ensures ReaderInv(t, t.readers[q])
    {
      assert ReaderInv(s, s.readers[q]);
    }
  }

  lemma WriterKeeps<A>(shows: (seq<int>, A) -> bool, s: State<A>)
    requires WriterInv(shows, s)
    ensures WriterInv(shows, WriterStep(s))
  {
    if s.writer.Editing? && s.writer.stores != [] {
      var ws := s.writer.stores;
      assert [ws[0]] + ws[1..] == ws;
      StoreAppend(s.bufs[s.dark], [ws[0]], ws[1..]);
    }
  }

  lemma ReaderUnmoved<A>(shows: (seq<int>, A) -> bool, s: State<A>, rd: Reader)
    requires WriterInv(shows, s)
    requires (rd.Loaded? ==> rd.buf < 2 && rd.at < |s.images|) && ReaderInv(s, rd)
    ensures ReaderInv(WriterStep(s), rd)
  {
  }

  lemma WriterGoKeeps<A>(shows: (seq<int>, A) -> bool, s: State<A>)
    requires Inv(shows, s)
    ensures Inv(shows, WriterStep(s))
  {
    WriterKeeps(shows, s);
    var t := WriterStep(s);
    forall q | 0 <= q < |t.readers|
      ensures ReaderInv(t, t.readers[q])
    {
      assert ReaderInv(s, s.readers[q]);
      ReaderUnmoved(shows, s, s.readers[q]);
    }
  }

  /** What holds of a reader does not depend on the other readers. */
  lemma OtherReaders<A>(s: State<A>, t: State<A>, rd: Reader)
    requires WellFormed(s) && WellFormed(t) && t == s.(readers := t.readers)
    requires (rd.Loaded? ==> rd.buf < 2 && rd.at < |s.images|) && ReaderInv(s, rd)
    ensures ReaderInv(t, rd)
  {
  }

  lemma SetReader<A>(shows: (seq<int>, A) -> bool, s: State<A>, r: nat, rd: Reader)
    requires Inv(shows, s) && r < |s.readers|
    requires rd.Loaded? && rd.buf < 2 && rd.at < |s.images| && ReaderInv(s, rd)
    ensures Inv(shows, s.(readers := s.readers[r := rd]))
  {
    var t := s.(readers := s.readers[r := rd]);
    assert WriterInv(shows, t);
    forall q | 0 <= q < |t.readers|
      ensures ReaderInv(t, t.readers[q])
    {
      if q != r { assert ReaderInv(s, s.readers[q]); }
      OtherReaders(s, t, t.readers[q]);
    }
  }

  lemma WordKeeps<A>(shows: (seq<int>, A) -> bool, s: State<A>, rd: Reader, c: nat)
    requires WriterInv(shows, s) && c < s.Words()
    requires rd.Loaded? && rd.buf < 2 && rd.at < |s.images| && ReaderInv(s, rd)
    ensures ReaderInv(s, Loaded(rd.buf, rd.at, rd.log + [(c, s.bufs[rd.buf][c])], s.Stores(), Intact(s, rd.at)))
  {
  }

  lemma ReadKeeps<A>(shows: (seq<int>, A) -> bool, s: State<A>, e: Event<A>)
    requires Inv(shows, s) && (e.Load? || e.Read?)
    ensures Inv(shows, Step(shows, s, e))
  {
    if e.r < |s.readers| {
      var rd := s.readers[e.r];
      assert ReaderInv(s, rd);
      if e.Load? {
        SetReader(shows, s, e.r, Loaded(s.active, s.Stores(), [], s.Stores(), true));
      } else if rd.Loaded? && e.cell < s.Words() {
        WordKeeps(shows, s, rd, e.cell);
        SetReader(shows, s, e.r,
                  Loaded(rd.buf, rd.at, rd.log + [(e.cell, s.bufs[rd.buf][e.cell])], s.Stores(), Intact(s, rd.at)));
      }
    }
  }

  lemma StepKeeps<A>(shows: (seq<int>, A) -> bool, s: State<A>, e: Event<A>)
    requires Inv(shows, s)
    ensures Inv(shows, Step(shows, s, e))
  {
    match e
    case Begin(a, ws) => BeginKeeps(shows, s, a, ws);
    case WriterGo => WriterGoKeeps(shows, s);
    case _ => ReadKeeps(shows, s, e);
  }

  lemma InitInv<A>(shows: (seq<int>, A) -> bool, s: State<A>)
    requires Init(shows, s)
    ensures Inv(shows, s)
  {
  }

  lemma {:induction false} RunKeeps<A>(shows: (seq<int>, A) -> bool, s: State<A>, es: seq<Event<A>>)
    requires Init(shows, s)
    ensures Inv(shows, Run(shows, s, es)) && Run(shows, s, es).trail == s.trail && Run(shows, s, es).apart == s.apart
  {
    if es == [] {
      InitInv(shows, s);
    } else {
      RunKeeps(shows, s, es[..|es| - 1]);
      StepKeeps(shows, Run(shows, s, es[..|es| - 1]), es[|es| - 1]);
    }
  }

  /** Once a first pointer store has happened the dark buffer is never the published one, and
      the published buffer shows the last published value, word for word its image. */
  lemma {:induction false} DarkIsNotPublished<A>(shows: (seq<int>, A) -> bool, s: State<A>, es: seq<Event<A>>)
    requires Init(shows, s) && Run(shows, s, es).Stores() > 0
    ensures var t := Run(shows, s, es);
      && t.dark != t.active && t.bufs[t.active] == t.images[t.Stores()]
      && t.Stores() < |t.hist| && shows(t.bufs[t.active], t.hist[t.Stores()])
  {
    RunKeeps(shows, s, es);
  }

  /** A read loaded after a first pointer store, or at any time if the roles started apart, with
      no pointer store between its load and its last word, returns words of the one image that
      was published at its load, and that image shows the value published then. */
  lemma {:induction false} ReadBeforeNextStore<A>(shows: (seq<int>, A) -> bool, s: State<A>, es: seq<Event<A>>, r: nat)
    requires Init(shows, s) && r < |Run(shows, s, es).readers|
    requires var rd := Run(shows, s, es).readers[r]; rd.Loaded? && (rd.at > 0 || s.apart) && rd.stores == rd.at
    ensures var t := Run(shows, s, es); var at := t.readers[r].at;
      at < |t.hist| && shows(t.images[at], t.hist[at]) && Whole(t.readers[r].log, t.images[at], [])
  {
    RunKeeps(shows, s, es);
    assert ReaderInv(Run(shows, s, es), Run(shows, s, es).readers[r]);
  }

  /** On words the writer does not touch after its pointer store, such a read may even overlap
      one whole operation: it is torn only once a second one has begun. */
  lemma {:induction false} ReadBeforeSecondOperation<A>(
    shows: (seq<int>, A) -> bool, s: State<A>, es: seq<Event<A>>, r: nat)
    requires Init(shows, s) && r < |Run(shows, s, es).readers|
    requires var rd := Run(shows, s, es).readers[r]; rd.Loaded? && (rd.at > 0 || s.apart) && rd.intact
    ensures var t := Run(shows, s, es); var at := t.readers[r].at;
      at < |t.hist| && shows(t.images[at], t.hist[at]) && Whole(t.readers[r].log, t.images[at], s.trail)
  {
    RunKeeps(shows, s, es);
    assert ReaderInv(Run(shows, s, es), Run(shows, s, es).readers[r]);
  }

  // ----- operations do end -----

  /** Steps of the writer alone. */
  ghost function WriteAlone<A>(s: State<A>, n: nat): (r: State<A>)
    requires WellFormed(s)
    ensures WellFormed(r)
    decreases n
  {
    if n == 0 then s else WriteAlone(WriterStep(s), n - 1)
  }

  lemma {:induction false} WriteInParts<A>(s: State<A>, m: nat, n: nat)
    requires WellFormed(s)
    ensures WriteAlone(s, m + n) == WriteAlone(WriteAlone(s, m), n)
    decreases m
  {
    if m > 0 { WriteInParts(WriterStep(s), m - 1, n); }
  }

  lemma {:induction false} EditsEnd<A>(s: State<A>, ws: seq<Write>)
    requires WellFormed(s) && s.writer == Editing(ws)
    ensures var r := WriteAlone(s, |ws| + 1); var image := Store(s.bufs[s.dark], ws);
      && r.images == s.images + [image] && r.hist == s.hist && r.writer == Trailing(s.trail)
      && r.active == s.dark && r.dark == 1 - s.dark && r.bufs[r.active] == image
    decreases |ws|
  {
    if ws == [] {
      assert WriteAlone(s, 1) == WriterStep(s);
    } else {
      StoreAppend(s.bufs[s.dark], [ws[0]], ws[1..]);
      assert [ws[0]] + ws[1..] == ws;
      EditsEnd(WriterStep(s), ws[1..]);
    }
  }

  lemma {:induction false} TrailEnds<A>(s: State<A>, left: seq<nat>)
    requires WellFormed(s) && s.writer == Trailing(left) && s.active != s.dark
    ensures var r := WriteAlone(s, |left| + 1);
      && r.writer.Quiet? && r.images == s.images && r.hist == s.hist && r.active == s.active
      && r.bufs[r.active] == s.bufs[s.active]
    decreases |left|
  {
    if left == [] {
      assert WriteAlone(s, 1) == WriterStep(s);
    } else {
      TrailEnds(WriterStep(s), left[1..]);
    }
  }

  /** An operation that has begun ends: its stores done in order, the buffer published, the trail
      copied back. */
  lemma {:induction false} OperationsEnd<A>(s: State<A>, ws: seq<Write>)
    requires WellFormed(s) && s.writer == Editing(ws)
    ensures var r := WriteAlone(s, |ws| + 1 + (|s.trail| + 1)); var image := Store(s.bufs[s.dark], ws);
      && r.writer.Quiet? && r.images == s.images + [image] && r.hist == s.hist
      && r.active == s.dark && r.bufs[r.active] == image
  {
    EditsEnd(s, ws);
    WriteInParts(s, |ws| + 1, |s.trail| + 1);
    TrailEnds(WriteAlone(s, |ws| + 1), s.trail);
  }
}
