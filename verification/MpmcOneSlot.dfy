/** The queue with a single slot, which its assertion admits: "published" and "free for the next
    ticket" are then the same sequence number. */
module MpmcOneSlot {
  import opened MpmcQueue
  import opened MpmcProofs

  /** One idle thread, one slot, elements of one word; every push so far has won a ticket. */
  function One(word: Word, pushed: seq<seq<Word>>): State {
    State(1, |pushed|, 0, [Slot([word], |pushed|)], [Idle], pushed, map[], [0], [pushed != []], [0])
  }

  /** A whole call of try_push by thread 0. */
  function PushCall(x: Word): seq<Event> {
    var go := Go(0, false);
    [CallPush(0, [x]), go, go, go, go, go]
  }

  lemma {:induction false} RunThree(s: State, a: Event, b: Event, c: Event)
    requires WellFormed(s)
    ensures Run(s, [a, b, c]) == Step(Step(Step(s, a), b), c)
  {
    assert [a][..0] == [];
    assert Run(s, [a]) == Step(s, a);
    assert [a, b][..1] == [a];
    assert Run(s, [a, b]) == Step(Step(s, a), b);
    assert [a, b, c][..2] == [a, b];
  }

  /** The thread finds the slot ready for ticket n, wins it, copies its word and publishes. */
  lemma Approach(w: Word, pushed: seq<seq<Word>>, x: Word)
    ensures var s := One(w, pushed);
      Step(Step(Step(s, CallPush(0, [x])), Go(0, false)), Go(0, false)) == s.(pcs := [PushTry([x], |pushed|)])
  {
  }

  function Won(w: Word, pushed: seq<seq<Word>>, x: Word): State {
    One(w, pushed).(pcs := [PushCopy([x], |pushed|, 0)], head := |pushed| + 1, pushed := pushed + [[x]])
  }

  lemma Wins(w: Word, pushed: seq<seq<Word>>, x: Word)
    ensures var s := One(w, pushed).(pcs := [PushTry([x], |pushed|)]);
      WellFormed(s) && Step(s, Go(0, false)) == Won(w, pushed, x)
  {
  }

  lemma Publishes(w: Word, pushed: seq<seq<Word>>, x: Word)
    ensures var s := Won(w, pushed, x);
      WellFormed(s) && Step(Step(s, Go(0, false)), Go(0, false)) == One(x, pushed + [[x]])
  {
    var s := Won(w, pushed, x);
    assert [w][0 := x] == [x];
    var t := s.(pcs := [PushCopy([x], |pushed|, 1)], slots := [Slot([x], |pushed|)]);
    assert Step(s, Go(0, false)) == t;
  }

  /** A push into the only slot succeeds whatever it holds, and replaces it. */
  lemma {:induction false} PushReplaces(w: Word, pushed: seq<seq<Word>>, x: Word)
    ensures Run(One(w, pushed), PushCall(x)) == One(x, pushed + [[x]])
  {
    var s, go := One(w, pushed), Go(0, false);
    Approach(w, pushed, x);
    Wins(w, pushed, x);
    Publishes(w, pushed, x);
    RunThree(s, CallPush(0, [x]), go, go);
    RunThree(s.(pcs := [PushTry([x], |pushed|)]), go, go, go);
    RunAppend(s, [CallPush(0, [x]), go, go], [go, go, go]);
    assert PushCall(x) == [CallPush(0, [x]), go, go] + [go, go, go];
  }

  /** Two whole pushes both succeed with no pop between them: both threads of control are done,
      the slot holds the second element, and the first is gone though it was never popped. */
  lemma {:induction false} OneSlotOverwrites(z: Word, x: Word, y: Word)
    ensures Init(One(z, []))
    ensures Run(One(z, []), PushCall(x) + PushCall(y)) == One(y, [[x], [y]])
    ensures x != y ==> !NothingOverwritten(One(y, [[x], [y]]))
  {
    PushTwice(z, x, y);
    if x != y { FirstIsGone(x, y); }
  }

  lemma {:induction false} PushTwice(z: Word, x: Word, y: Word)
    ensures Run(One(z, []), PushCall(x) + PushCall(y)) == One(y, [[x], [y]])
  {
    PushReplaces(z, [], x);
    PushReplaces(x, [[x]], y);
    RunAppend(One(z, []), PushCall(x), PushCall(y));
    assert [] + [[x]] == [[x]] && [[x]] + [[y]] == [[x], [y]];
  }

  lemma FirstIsGone(x: Word, y: Word)
    requires x != y
    ensures !NothingOverwritten(One(y, [[x], [y]]))
  {
    var s := One(y, [[x], [y]]);
    assert [x][0] == x && [y][0] == y;
    assert s.pushed[0] == [x] && s.slots[s.Index(0)].data == [y];
    assert 0 !in s.popped && forall t: nat :: !PushingAt(s, t, 0);
  }

  /** After two such pushes a lone pop never returns: however often its thread steps, it reloads
      the same position and finds the sequence number too high. */
  lemma {:induction false} PopSpins(w: Word, pushed: seq<seq<Word>>, es: seq<Event>)
    requires |pushed| >= 2 && forall i :: 0 <= i < |es| ==> es[i].Go? && es[i].tid == 0
    ensures var s := One(w, pushed); var r := Run(Step(s, CallPop(0)), es);
      r == s.(pcs := [PopStart]) || r == s.(pcs := [PopLook(0)])
  {
    if es != [] { PopSpins(w, pushed, es[..|es| - 1]); }
  }

  /** Two slots are exactly what the queue needs, although its assertion also admits one: for the
      bound on the indices and for keeping every element until it is popped. */
  lemma {:induction false} TwoSlotsNeeded(n: nat)
    requires n > 0
    ensures (forall s0: State, es: seq<Event> :: Init(s0) && |s0.slots| == n ==>
               Run(s0, es).head <= Run(s0, es).tail + n) <==> n >= 2
    ensures (forall s0: State, es: seq<Event> :: Init(s0) && |s0.slots| == n ==>
               NothingOverwritten(Run(s0, es))) <==> n >= 2
  {
    if n >= 2 {
      forall s0: State, es: seq<Event> | Init(s0) && |s0.slots| == n
        ensures Run(s0, es).head <= Run(s0, es).tail + n && NothingOverwritten(Run(s0, es))
      {
        RunKeeps(s0, es);
        StoredUntilPopped(Run(s0, es));
      }
    } else {
      OneSlotOverwrites(0, 1, 2);
      assert Init(One(0, [])) && |One(0, []).slots| == n;
    }
  }
}
