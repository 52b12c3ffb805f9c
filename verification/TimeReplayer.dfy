/** Replaying several logs as one stream of events: a merge driven by a priority queue with one
    entry per unfinished log. */
module TimeReplayer {
  import opened Logs

  datatype HeapEntry = HeapEntry(timestamp: nat, stream: nat)

  /** Record pos of stream, as handed to the callbacks. */
  datatype Event = Event(stream: nat, pos: nat)

  function Sum(s: seq<nat>): nat {
    if s == [] then 0 else Sum(s[..|s| - 1]) + s[|s| - 1]
  }

  lemma {:induction false} SumBelow(a: seq<nat>, b: seq<nat>)
    requires |a| == |b| && forall i :: 0 <= i < |a| ==> a[i] <= b[i]
    ensures Sum(a) <= Sum(b)
    ensures Sum(a) == Sum(b) ==> a == b
  {
    if a != [] {
      var n := |a| - 1;
      SumBelow(a[..n], b[..n]);
      if Sum(a) == Sum(b) {
        assert a[n] == b[n] && a[..n] == b[..n];
        assert a == a[..n] + [a[n]] == b[..n] + [b[n]] == b;
      }
    }
  }

  lemma {:induction false} SumBump(s: seq<nat>, i: nat)
    requires i < |s|
    ensures Sum(s[i := s[i] + 1]) == Sum(s) + 1
  {
    var n := |s| - 1;
    var t := s[i := s[i] + 1];
    if i == n {
      assert t[..n] == s[..n];
    } else {
      SumBump(s[..n], i);
      assert t[..n] == s[..n][i := s[i] + 1];
    }
  }

  lemma {:induction false} SumPush(s: seq<nat>, x: nat)
    ensures Sum(s + [x]) == Sum(s) + x
  {
    assert (s + [x])[..|s|] == s;
  }

  ghost function CountOf(es: seq<Event>, stream: nat): nat {
    if es == [] then 0
    else CountOf(es[..|es| - 1], stream) + if es[|es| - 1].stream == stream then 1 else 0
  }

  /** A log seen by the replayer: the timestamps of its records, in file order. */
  type Stream = seq<nat>

  function StreamOf(r: LogReader): Stream
    requires r.Valid()
  {
    seq(r.count, i requires 0 <= i < r.count => r.TimestampAt(i))
  }

  /** The streams after addStream: an empty log is skipped. */
  function Kept(streams: seq<Stream>, r: LogReader): seq<Stream>
    requires r.Valid()
  {
    if r.count == 0 then streams else streams + [StreamOf(r)]
  }

  /** The timestamp of an event's record. */
  ghost function TimeOf(streams: seq<Stream>, e: Event): nat {
    if e.stream < |streams| && e.pos < |streams[e.stream]| then streams[e.stream][e.pos] else 0
  }

  ghost predicate SortedStream(s: Stream) {
    forall i, j :: 0 <= i <= j < |s| ==> s[i] <= s[j]
  }

  ghost predicate AllSorted(streams: seq<Stream>) {
    forall i :: 0 <= i < |streams| ==> SortedStream(streams[i])
  }

  function Starts(n: nat): seq<nat> { seq(n, _ => 0) }

  ghost function Counts(streams: seq<Stream>): seq<nat> {
    seq(|streams|, i requires 0 <= i < |streams| => |streams[i]|)
  }

  ghost predicate Within(streams: seq<Stream>, pos: seq<nat>) {
    |pos| == |streams| && forall i :: 0 <= i < |pos| ==> pos[i] <= |streams[i]|
  }

  /** One heap entry per unfinished stream, for its next record, and no others. */
  ghost predicate HeapOk(streams: seq<Stream>, pos: seq<nat>, heap: set<HeapEntry>)
    requires |pos| == |streams|
  {
    && (forall e :: e in heap ==>
          && e.stream < |streams| && pos[e.stream] < |streams[e.stream]|
          && e.timestamp == streams[e.stream][pos[e.stream]])
    && (forall i :: 0 <= i < |streams| && pos[i] < |streams[i]| ==> HeapEntry(streams[i][pos[i]], i) in heap)
  }

  /** es takes the streams from their starts to pos, one record at a time. */
  ghost predicate Delivers(es: seq<Event>, pos: seq<nat>) {
    if es == [] then pos == Starts(|pos|)
    else
      var e := es[|es| - 1];
      e.stream < |pos| && pos[e.stream] == e.pos + 1 && Delivers(es[..|es| - 1], pos[e.stream := e.pos])
  }

  /** Time order of what was delivered, and of all that is left after it. */
  ghost predicate Ordered(streams: seq<Stream>, pos: seq<nat>, es: seq<Event>, now: nat)
    requires |pos| == |streams|
  {
    && (forall j, k :: 0 <= j < k < |es| ==> TimeOf(streams, es[j]) <= TimeOf(streams, es[k]))
    && now == (if es == [] then 0 else TimeOf(streams, es[|es| - 1]))
    && (forall i :: 0 <= i < |streams| && pos[i] < |streams[i]| ==> now <= streams[i][pos[i]])
  }

  // ----- consequences of Delivers -----

  /** Exactly the first pos[i] records of each stream are delivered, once each and in order:
      the k-th event of a stream is its record k. */
  lemma {:induction false} OnceInOrder(es: seq<Event>, pos: seq<nat>)
    requires Delivers(es, pos)
    ensures forall i: nat :: i < |pos| ==> CountOf(es, i) == pos[i]
    ensures forall j :: 0 <= j < |es| ==> es[j].stream < |pos| && es[j].pos == CountOf(es[..j], es[j].stream)
  {
    forall i: nat | i < |pos|
      ensures CountOf(es, i) == pos[i]
    {
      CountIs(es, pos, i);
    }
    forall j | 0 <= j < |es|
      ensures es[j].stream < |pos| && es[j].pos == CountOf(es[..j], es[j].stream)
    {
      PlaceIs(es, pos, j);
    }
  }

  lemma {:induction false} CountIs(es: seq<Event>, pos: seq<nat>, i: nat)
    requires Delivers(es, pos) && i < |pos|
    ensures CountOf(es, i) == pos[i]
  {
    if es != [] {
      var e := es[|es| - 1];
      CountIs(es[..|es| - 1], pos[e.stream := e.pos], i);
    }
  }

  lemma {:induction false} PlaceIs(es: seq<Event>, pos: seq<nat>, j: nat)
    requires Delivers(es, pos) && j < |es|
    ensures es[j].stream < |pos| && es[j].pos == CountOf(es[..j], es[j].stream)
  {
    var n := |es| - 1;
    var e := es[n];
    var before := pos[e.stream := e.pos];
    if j < n {
      PlaceIs(es[..n], before, j);
      assert es[..n][..j] == es[..j];
    } else {
      CountIs(es[..n], before, e.stream);
    }
  }

  lemma {:induction false} DeliversWider(es: seq<Event>, pos: seq<nat>)
    requires Delivers(es, pos)
    ensures Delivers(es, pos + [0])
  {
    if es != [] {
      var e := es[|es| - 1];
      DeliversWider(es[..|es| - 1], pos[e.stream := e.pos]);
      assert (pos + [0])[e.stream := e.pos] == pos[e.stream := e.pos] + [0];
    }
  }

  lemma DeliversNext(es: seq<Event>, pos: seq<nat>, i: nat)
    requires Delivers(es, pos) && i < |pos|
    ensures Delivers(es + [Event(i, pos[i])], pos[i := pos[i] + 1])
  {
    var es' := es + [Event(i, pos[i])];
    assert es'[..|es|] == es;
    assert pos[i := pos[i] + 1][i := pos[i]] == pos;
  }

  // ----- one delivery -----

  /** The heap with stream i's next record queued, if there is one. */
  ghost function Requeued(streams: seq<Stream>, pos: seq<nat>, heap: set<HeapEntry>, i: nat): set<HeapEntry>
    requires i < |pos| == |streams|
  {
    if pos[i] < |streams[i]| then heap + {HeapEntry(streams[i][pos[i]], i)} else heap
  }

  lemma HeapMoves(streams: seq<Stream>, pos: seq<nat>, heap: set<HeapEntry>, e: HeapEntry)
    requires Within(streams, pos) && HeapOk(streams, pos, heap) && e in heap
    ensures var i := e.stream;
      HeapOk(streams, pos[i := pos[i] + 1],
             Requeued(streams, pos[i := pos[i] + 1], heap - {e}, i))
  {
  }

  /** The earliest heap entry keeps time order. */
  lemma EarliestFirst(streams: seq<Stream>, pos: seq<nat>, es: seq<Event>, heap: set<HeapEntry>, e: HeapEntry, now: nat)
    requires Within(streams, pos) && HeapOk(streams, pos, heap) && e in heap
    requires forall x :: x in heap ==> e.timestamp <= x.timestamp
    requires AllSorted(streams) && Ordered(streams, pos, es, now)
    ensures var i := e.stream;
      Ordered(streams, pos[i := pos[i] + 1], es + [Event(i, pos[i])], e.timestamp)
  {
    var i := e.stream;
    var es' := es + [Event(i, pos[i])];
    assert TimeOf(streams, Event(i, pos[i])) == e.timestamp && now <= e.timestamp;
    forall j, k | 0 <= j < k < |es'|
      ensures TimeOf(streams, es'[j]) <= TimeOf(streams, es'[k])
    {
      assert es'[j] == es[j];
      if k == |es| {
        assert j < |es| - 1 ==> TimeOf(streams, es[j]) <= TimeOf(streams, es[|es| - 1]);
      }
    }
    forall k | 0 <= k < |streams| && pos[k] < |streams[k]|
      ensures e.timestamp <= streams[k][pos[k]]
    {
      assert HeapEntry(streams[k][pos[k]], k) in heap;
    }
    assert SortedStream(streams[i]);
  }

  /** The heap is empty exactly when the counters say all is delivered. */
  lemma {:induction false} ExhaustedMeansEmpty(streams: seq<Stream>, pos: seq<nat>, heap: set<HeapEntry>)
    requires Within(streams, pos) && HeapOk(streams, pos, heap)
    ensures Sum(pos) >= Sum(Counts(streams)) <==> heap == {}
    ensures heap == {} <==> pos == Counts(streams)
  {
    SumBelow(pos, Counts(streams));
    if pos != Counts(streams) {
      var i :| 0 <= i < |streams| && pos[i] != Counts(streams)[i];
      assert HeapEntry(streams[i][pos[i]], i) in heap;
    } else {
      assert forall i :: 0 <= i < |streams| ==> pos[i] == Counts(streams)[i];
    }
  }

  lemma {:induction false} LeastExists(h: set<HeapEntry>)
    requires h != {}
    ensures exists e :: e in h && forall x :: x in h ==> e.timestamp <= x.timestamp
    decreases |h|
  {
    var e :| e in h;
    var rest := h - {e};
    if rest != {} {
      LeastExists(rest);
      var f :| f in rest && forall x :: x in rest ==> f.timestamp <= x.timestamp;
      var best := if f.timestamp < e.timestamp then f else e;
      assert best in h && forall x :: x in h ==> x == e || x in rest;
    } else {
      assert forall x :: x in h ==> x == e || x in rest;
    }
  }

  // ----- the object -----

  /** Everything that holds between calls. On time-sorted streams added before the first
      delivery it includes time order. */
  ghost predicate Good(
    streams: seq<Stream>, pos: seq<nat>, heap: set<HeapEntry>, es: seq<Event>, now: nat, upFront: bool)
  {
    && Within(streams, pos) && Delivers(es, pos) && HeapOk(streams, pos, heap)
    && (es == [] ==> now == 0)
    && (upFront && AllSorted(streams) ==> Ordered(streams, pos, es, now))
  }

  lemma {:induction false} PushGood(
    streams: seq<Stream>, pos: seq<nat>, heap: set<HeapEntry>, es: seq<Event>, now: nat, upFront: bool, s: Stream)
    requires Good(streams, pos, heap, es, now, upFront) && |s| > 0
    ensures Good(streams + [s], pos + [0], heap + {HeapEntry(s[0], |streams|)}, es, now, upFront && es == [])
    ensures Sum(pos + [0]) == Sum(pos) && Sum(Counts(streams + [s])) == Sum(Counts(streams)) + |s|
  {
    DeliversWider(es, pos);
    SumPush(pos, 0);
    assert Counts(streams + [s]) == Counts(streams) + [|s|];
    SumPush(Counts(streams), |s|);
  }

  /** With rest the heap after e was popped, delivering e's record leads to a good state. */
  ghost predicate Ready(
    streams: seq<Stream>, pos: seq<nat>, rest: set<HeapEntry>, es: seq<Event>, upFront: bool, e: HeapEntry)
  {
    var i := e.stream;
    && i < |pos| == |streams| && e.timestamp == TimeOf(streams, Event(i, pos[i]))
    && Good(streams, pos[i := pos[i] + 1], Requeued(streams, pos[i := pos[i] + 1], rest, i),
            es + [Event(i, pos[i])], e.timestamp, upFront)
    && Sum(pos[i := pos[i] + 1]) == Sum(pos) + 1
  }

  lemma AdvanceGood(
    streams: seq<Stream>, pos: seq<nat>, heap: set<HeapEntry>, es: seq<Event>, now: nat, upFront: bool, e: HeapEntry)
    requires Good(streams, pos, heap, es, now, upFront)
    requires e in heap && forall x :: x in heap ==> e.timestamp <= x.timestamp
    ensures Ready(streams, pos, heap - {e}, es, upFront, e)
  {
    HeapMoves(streams, pos, heap, e);
    DeliversNext(es, pos, e.stream);
    SumBump(pos, e.stream);
    if upFront && AllSorted(streams) { EarliestFirst(streams, pos, es, heap, e, now); }
  }

  class TimeReplayer {
    var streams: seq<Stream>
    var pos: seq<nat>
    var heap: set<HeapEntry>
    var currentTime: nat
    var processed: nat
    var total: nat
    var paused: bool
    var delivered: seq<Event>      // what the callbacks have been given
    ghost var upFront: bool        // no stream was added after the first delivery

    ghost predicate Valid()
      reads this
    {
      && Good(streams, pos, heap, delivered, currentTime, upFront)
      && processed == Sum(pos) && total == Sum(Counts(streams))
    }

    predicate IsExhausted()
      reads this
    {
      processed >= total
    }

    constructor ()
      ensures Valid() && streams == [] && delivered == [] && upFront && !paused
    {
      streams, pos, heap, delivered := [], [], {}, [];
      currentTime, processed, total, paused := 0, 0, 0, false;
      upFront := true;
    }

    /** addStream: an empty log is skipped. */
    method AddStream(reader: LogReader)
      requires Valid() && reader.Valid()
      modifies this`streams, this`pos, this`heap, this`total, this`upFront
      ensures Valid()
      ensures streams == Kept(old(streams), reader)
      ensures upFront <==> old(upFront) && (reader.count == 0 || delivered == [])
    {
      if reader.count == 0 {
        return;
      }
      Push(StreamOf(reader));
    }

    method Push(s: Stream)
      requires Valid() && |s| > 0
      modifies this`streams, this`pos, this`heap, this`total, this`upFront
      ensures Valid() && streams == old(streams) + [s]
      ensures upFront <==> old(upFront) && delivered == []
    {
      PushGood(streams, pos, heap, delivered, currentTime, upFront, s);
      var idx := |streams|;
      streams := streams + [s];
      pos := pos + [0];
      total := total + |s|;
      heap := heap + {HeapEntry(s[0], idx)};
      upFront := upFront && delivered == [];
    }

    /** top and pop of the priority queue: some entry with the least timestamp, so that delivering
        its record keeps everything good. */
    method PopLeast() returns (entry: HeapEntry)
      requires Good(streams, pos, heap, delivered, currentTime, upFront) && heap != {}
      modifies this`heap
      ensures Ready(streams, pos, heap, delivered, upFront, entry)
    {
      LeastExists(heap);
      entry :| entry in heap && forall x :: x in heap ==> entry.timestamp <= x.timestamp;
      AdvanceGood(streams, pos, heap, delivered, currentTime, upFront, entry);
      heap := heap - {entry};
    }

    /** The part of advanceToNextEvent after the pop: deliver, and queue the stream's next record. */
    method Deliver(entry: HeapEntry)
      requires Ready(streams, pos, heap, delivered, upFront, entry)
      modifies this`pos, this`heap, this`currentTime, this`processed, this`delivered
      ensures Good(streams, pos, heap, delivered, currentTime, upFront)
      ensures Sum(pos) == Sum(old(pos)) + 1 && processed == old(processed) + 1
      ensures |delivered| == |old(delivered)| + 1 && old(delivered) <= delivered
      ensures currentTime == TimeOf(streams, delivered[|delivered| - 1])
    {
      var idx := entry.stream;
      delivered := delivered + [Event(idx, pos[idx])];
      currentTime := entry.timestamp;
      processed := processed + 1;
      pos := pos[idx := pos[idx] + 1];
      if pos[idx] < |streams[idx]| {
        heap := heap + {HeapEntry(streams[idx][pos[idx]], idx)};
      }
    }

    method DeliverLeast()
      requires Good(streams, pos, heap, delivered, currentTime, upFront) && heap != {}
      modifies this`pos, this`heap, this`currentTime, this`processed, this`delivered
      ensures Good(streams, pos, heap, delivered, currentTime, upFront)
      ensures Sum(pos) == Sum(old(pos)) + 1 && processed == old(processed) + 1
      ensures |delivered| == |old(delivered)| + 1 && old(delivered) <= delivered
      ensures currentTime == TimeOf(streams, delivered[|delivered| - 1])
    {
      var entry := PopLeast();
      Deliver(entry);
    }

    /** advanceToNextEvent: nothing when paused or exhausted; otherwise one record of the
        stream whose next record is earliest. */
    method AdvanceToNextEvent() returns (ok: bool)
      requires Valid()
      modifies this`pos, this`heap, this`currentTime, this`processed, this`delivered
      ensures Valid()
      ensures ok <==> !paused && !old(IsExhausted())
      ensures !ok ==> delivered == old(delivered) && pos == old(pos)
      ensures !ok ==> currentTime == old(currentTime) && processed == old(processed)
      ensures ok ==> processed == old(processed) + 1
      ensures ok ==> |delivered| == |old(delivered)| + 1 && old(delivered) <= delivered
      ensures ok ==> currentTime == TimeOf(streams, delivered[|delivered| - 1])
    {
      if paused {
        return false;
      }
      if IsExhausted() {
        return false;
      }
      ExhaustedMeansEmpty(streams, pos, heap);
      DeliverLeast();
      return true;
    }

    /** advanceTo: on time-sorted streams added up front, what is left is not before the target,
        and of the events delivered here all but possibly the last are before it. */
    method AdvanceTo(target: nat) returns (count: nat)
      requires Valid()
      modifies this`pos, this`heap, this`currentTime, this`processed, this`delivered
      ensures Valid() && |delivered| == |old(delivered)| + count && old(delivered) <= delivered
      ensures paused ==> count == 0
      ensures !paused ==> IsExhausted() || currentTime >= target
      ensures !paused && upFront && AllSorted(streams) ==>
        forall i, p :: 0 <= i < |streams| && pos[i] <= p < |streams[i]| ==> streams[i][p] >= target
      ensures AllButLastBefore(streams, delivered, |old(delivered)|, target)
    {
      count := AdvanceWhileBefore(target);
      if !paused && upFront && AllSorted(streams) {
        NothingBefore(streams, pos, heap, delivered, currentTime, target, IsExhausted());
      }
    }

    method AdvanceWhileBefore(target: nat) returns (count: nat)
      requires Valid()
      modifies this`pos, this`heap, this`currentTime, this`processed, this`delivered
      ensures Valid() && |delivered| == |old(delivered)| + count && old(delivered) <= delivered
      ensures paused ==> count == 0
      ensures !paused ==> IsExhausted() || currentTime >= target
      ensures AllButLastBefore(streams, delivered, |old(delivered)|, target)
    {
      count := 0;
      ghost var start := delivered;
      while !IsExhausted() && currentTime < target
        invariant Valid() && |delivered| == |start| + count
        invariant Extends(streams, start, delivered, currentTime, target)
        invariant paused ==> count == 0
        decreases total - processed
      {
        ghost var es, now := delivered, currentTime;
        var ok := AdvanceToNextEvent();
        if !ok { break; }
        count := count + 1;
        LastMoves(streams, start, es, now, delivered, currentTime, target);
      }
    }

    /** advanceToEnd: everything left, unless paused. */
    method AdvanceToEnd() returns (count: nat)
      requires Valid()
      modifies this`pos, this`heap, this`currentTime, this`processed, this`delivered
      ensures Valid() && |delivered| == |old(delivered)| + count && old(delivered) <= delivered
      ensures if paused then count == 0 else pos == Counts(streams) && heap == {}
    {
      count := 0;
      while !IsExhausted()
        invariant Valid() && |delivered| == |old(delivered)| + count && old(delivered) <= delivered
        invariant paused ==> count == 0
        decreases total - processed
      {
        var ok := AdvanceToNextEvent();
        if !ok { break; }
        count := count + 1;
      }
      ExhaustedMeansEmpty(streams, pos, heap);
    }
  }

  ghost predicate AllButLastBefore(streams: seq<Stream>, es: seq<Event>, from: nat, target: nat) {
    forall j :: from <= j < |es| - 1 ==> TimeOf(streams, es[j]) < target
  }

  /** es goes on from start; now is the time of its last event, and those between are before target. */
  ghost predicate Extends(streams: seq<Stream>, start: seq<Event>, es: seq<Event>, now: nat, target: nat) {
    && start <= es && AllButLastBefore(streams, es, |start|, target)
    && (|es| > |start| ==> now == TimeOf(streams, es[|es| - 1]))
  }

  lemma LastMoves(
    streams: seq<Stream>, start: seq<Event>, es: seq<Event>, now: nat, es': seq<Event>, now': nat, target: nat)
    requires Extends(streams, start, es, now, target) && now < target
    requires |es'| == |es| + 1 && es <= es' && now' == TimeOf(streams, es'[|es'| - 1])
    ensures Extends(streams, start, es', now', target)
  {
  }

  lemma {:induction false} NothingBefore(
    streams: seq<Stream>, pos: seq<nat>, heap: set<HeapEntry>, es: seq<Event>, now: nat, target: nat, done: bool)
    requires Good(streams, pos, heap, es, now, true) && AllSorted(streams)
    requires done ==> Sum(pos) >= Sum(Counts(streams))
    requires done || now >= target
    ensures forall i, p :: 0 <= i < |streams| && pos[i] <= p < |streams[i]| ==> streams[i][p] >= target
  {
    if done {
      ExhaustedMeansEmpty(streams, pos, heap);
      assert forall i :: 0 <= i < |streams| ==> pos[i] == Counts(streams)[i];
    } else {
      forall i, p | 0 <= i < |streams| && pos[i] <= p < |streams[i]|
        ensures streams[i][p] >= target
      {
        assert SortedStream(streams[i]);
      }
    }
  }

  /** All records of all streams, once each, in stream order, in non-decreasing time. */
  ghost predicate Complete(streams: seq<Stream>, es: seq<Event>) {
    && (forall i: nat :: i < |streams| ==> CountOf(es, i) == |streams[i]|)
    && (forall j :: 0 <= j < |es| ==> es[j].stream < |streams| && es[j].pos == CountOf(es[..j], es[j].stream))
    && (forall j, k :: 0 <= j < k < |es| ==> TimeOf(streams, es[j]) <= TimeOf(streams, es[k]))
  }

  /** Time-sorted logs added up front and run to the end have been replayed completely. */
  lemma CompleteReplay(r: TimeReplayer)
    requires r.Valid() && r.upFront && AllSorted(r.streams) && (r.IsExhausted() || r.heap == {})
    ensures Complete(r.streams, r.delivered)
  {
    ExhaustedMeansEmpty(r.streams, r.pos, r.heap);
    OnceInOrder(r.delivered, r.pos);
    assert forall i: nat :: i < |r.streams| ==> r.pos[i] == Counts(r.streams)[i];
  }

  /** The logs that addStream keeps. */
  ghost function StreamsOf(readers: seq<LogReader>): seq<Stream>
    requires forall i :: 0 <= i < |readers| ==> readers[i].Valid()
  {
    if readers == [] then []
    else
      Kept(StreamsOf(readers[..|readers| - 1]), readers[|readers| - 1])
  }

  lemma {:induction false} StreamsSorted(readers: seq<LogReader>)
    requires forall i :: 0 <= i < |readers| ==> readers[i].Valid() && TimeSorted(readers[i])
    ensures AllSorted(StreamsOf(readers))
  {
    if readers != [] {
      StreamsSorted(readers[..|readers| - 1]);
      var r := readers[|readers| - 1];
      forall i, j | 0 <= i <= j < r.count
        ensures StreamOf(r)[i] <= StreamOf(r)[j]
      {
        assert r.TimestampAt(i) <= r.TimestampAt(j);
      }
    }
  }

  lemma {:induction false} StreamsOfNext(readers: seq<LogReader>, i: nat)
    requires i < |readers| && forall k :: 0 <= k < |readers| ==> readers[k].Valid()
    ensures StreamsOf(readers[..i + 1]) == Kept(StreamsOf(readers[..i]), readers[i])
  {
    assert readers[..i + 1][..i] == readers[..i];
  }

  method AddAll(readers: seq<LogReader>) returns (r: TimeReplayer)
    requires forall i :: 0 <= i < |readers| ==> readers[i].Valid()
    ensures fresh(r) && r.Valid() && r.upFront && r.delivered == [] && !r.paused && r.streams == StreamsOf(readers)
  {
    r := new TimeReplayer();
    for i := 0 to |readers|
      invariant fresh(r) && r.Valid() && r.upFront && r.delivered == [] && !r.paused
      invariant r.streams == StreamsOf(readers[..i])
    {
      StreamsOfNext(readers, i);
      r.AddStream(readers[i]);
    }
    assert readers[..|readers|] == readers;
  }

  /** The logs that have records. */
  ghost function NonEmpty(readers: seq<LogReader>): seq<LogReader> {
    if readers == [] then []
    else
      var r := readers[|readers| - 1];
      NonEmpty(readers[..|readers| - 1]) + if r.count > 0 then [r] else []
  }

  lemma {:induction false} StreamsAre(readers: seq<LogReader>)
    requires forall i :: 0 <= i < |readers| ==> readers[i].Valid()
    ensures var rs, ss := NonEmpty(readers), StreamsOf(readers);
      && |ss| == |rs| && (forall i :: 0 <= i < |rs| ==> rs[i].Valid() && |ss[i]| == rs[i].count)
      && (forall i, p: nat {:trigger ss[i][p]} :: 0 <= i < |rs| && p < |ss[i]| ==> ss[i][p] == rs[i].TimestampAt(p))
  {
    if readers != [] { StreamsAre(readers[..|readers| - 1]); }
  }

  /** The time an event's record carries in its log. */
  ghost function Stamp(logs: seq<LogReader>, e: Event): nat
    requires forall i :: 0 <= i < |logs| ==> logs[i].Valid()
  {
    if e.stream < |logs| then logs[e.stream].TimestampAt(e.pos) else 0
  }

  ghost predicate AllValid(readers: seq<LogReader>) { forall i :: 0 <= i < |readers| ==> readers[i].Valid() }

  /** Every record of every log that has records, once each: the k-th event of a log is its record
      k, all of them come, and the times in the logs never go back. */
  ghost predicate Replayed(readers: seq<LogReader>, events: seq<Event>) {
    var logs := NonEmpty(readers);
    && AllValid(logs)
    && (forall i: nat :: i < |logs| ==> CountOf(events, i) == logs[i].count)
    && (forall j :: 0 <= j < |events| ==>
          events[j].stream < |logs| && events[j].pos == CountOf(events[..j], events[j].stream))
    && (forall j, k :: 0 <= j < k < |events| ==> Stamp(logs, events[j]) <= Stamp(logs, events[k]))
  }

  lemma {:induction false} CompleteIsReplayed(readers: seq<LogReader>, events: seq<Event>)
    requires (forall i :: 0 <= i < |readers| ==> readers[i].Valid()) && Complete(StreamsOf(readers), events)
    ensures Replayed(readers, events)
  {
    StreamsAre(readers);
    var logs, ss := NonEmpty(readers), StreamsOf(readers);
    forall j | 0 <= j < |events|
      ensures events[j].stream < |logs| && Stamp(logs, events[j]) == TimeOf(ss, events[j])
    {
      CountUpTo(events, j, events[j].stream);
      assert events[j].pos < |ss[events[j].stream]|;
      assert ss[events[j].stream][events[j].pos] == logs[events[j].stream].TimestampAt(events[j].pos);
    }
  }

  /** An event counts among the events of its stream. */
  lemma {:induction false} CountUpTo(es: seq<Event>, j: nat, stream: nat)
    requires j < |es|
    ensures CountOf(es[..j], stream) + (if es[j].stream == stream then 1 else 0) <= CountOf(es, stream)
  {
    var n := |es| - 1;
    if j < n {
      CountUpTo(es[..n], j, stream);
      assert es[..n][..j] == es[..j];
    }
  }

  /** A whole backtest: add every log, then run to the end. Every record of every log comes
      exactly once, in log order, and the times never go back. */
  method ReplayAll(readers: seq<LogReader>) returns (events: seq<Event>)
    requires forall i :: 0 <= i < |readers| ==> readers[i].Valid() && TimeSorted(readers[i])
    ensures Replayed(readers, events)
  {
    var r := AddAll(readers);
    StreamsSorted(readers);
    var count := r.AdvanceToEnd();
    CompleteReplay(r);
    events := r.delivered;
    CompleteIsReplayed(readers, events);
  }
}
