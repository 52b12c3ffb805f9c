/** Whole calls on the step machine: a thread that runs its call with no other call in flight
    finishes in a fixed number of steps, pushing exactly when there is room and popping the oldest
    element exactly when there is one. */
module MpmcAlone {
  import opened MpmcQueue
  import opened MpmcProofs

  /** n steps of thread t, none failing spuriously. */
  function Steps(t: nat, n: nat): seq<Event> { seq(n, _ => Go(t, false)) }

  lemma {:induction false} RunFirst(s: State, t: nat, n: nat)
    requires WellFormed(s) && n > 0
    ensures Run(s, Steps(t, n)) == Run(Step(s, Go(t, false)), Steps(t, n - 1))
  {
    var first := [Go(t, false)];
    assert Steps(t, n) == first + Steps(t, n - 1);
    RunAppend(s, first, Steps(t, n - 1));
    assert first[..0] == [];
    assert Run(s, first) == Step(s, Go(t, false));
  }

  /** A call and then three and n steps. */
  lemma {:induction false} CallRuns(s: State, call: Event, t: nat, n: nat)
    requires WellFormed(s)
    ensures Run(s, [call] + Steps(t, n)) == Run(Step(s, call), Steps(t, n))
    ensures Run(s, [call] + Steps(t, 3 + n)) == Run(Run(Step(s, call), Steps(t, 3)), Steps(t, n))
  {
    assert [call][..0] == [];
    assert Run(s, [call]) == Step(s, call);
    RunAppend(s, [call], Steps(t, n));
    RunAppend(s, [call], Steps(t, 3 + n));
    assert Steps(t, 3 + n) == Steps(t, 3) + Steps(t, n);
    RunAppend(Step(s, call), Steps(t, 3), Steps(t, n));
  }

  /** Every other thread is idle. */
  ghost predicate Alone(s: State, t: nat) {
    t < |s.pcs| && forall u :: 0 <= u < |s.pcs| && u != t ==> s.pcs[u].Idle?
  }

  // ----- push -----

  /** From the won ticket to the end of the call. */
  lemma {:induction false} PushFinishes(s: State, t: nat, n: nat)
    requires Inv(s) && Alone(s, t) && s.pcs[t].PushCopy? && n == s.width - s.pcs[t].done + 1
    ensures var r := Run(s, Steps(t, n));
      Inv(r) && Quiet(r) && r.pushed == s.pushed && r.tail == s.tail && r.popped == s.popped
    decreases n
  {
    RunFirst(s, t, n);
    var r := Step(s, Go(t, false));
    StepKeeps(s, Go(t, false));
    if s.pcs[t].done < s.width {
      PushFinishes(r, t, n - 1);
    } else {
      assert Run(r, Steps(t, 0)) == r;
    }
  }

  /** The call and its load of head. */
  lemma PushLooks(s: State, t: nat, v: seq<Word>)
    requires Inv(s) && Quiet(s) && t < |s.pcs| && |v| == s.width
    ensures var b := Step(Step(s, CallPush(t, v)), Go(t, false));
      Inv(b) && Alone(b, t) && b == At(s, t, PushLook(v, s.head))
  {
    StepKeeps(s, CallPush(t, v));
    StepKeeps(Step(s, CallPush(t, v)), Go(t, false));
  }

  lemma PushTries(s: State, t: nat)
    requires Inv(s) && Alone(s, t) && s.pcs[t].PushTry? && s.pcs[t].pos == s.head
    ensures var r := Step(s, Go(t, false));
      && Inv(r) && Alone(r, t) && r.pcs[t] == PushCopy(s.pcs[t].val, s.head, 0)
      && r.pushed == s.pushed + [s.pcs[t].val] && r.tail == s.tail && r.popped == s.popped
  {
    StepKeeps(s, Go(t, false));
  }

  /** The first three steps of a push: load head, look at the slot, win the ticket. */
  lemma {:induction false} PushWinsAlone(s: State, t: nat, v: seq<Word>)
    requires Inv(s) && Quiet(s) && t < |s.pcs| && |v| == s.width && |s.Contents()| < |s.slots|
    ensures var r := Run(Step(s, CallPush(t, v)), Steps(t, 3));
      && Inv(r) && Alone(r, t) && r.pcs[t] == PushCopy(v, s.head, 0)
      && r.pushed == s.pushed + [v] && r.tail == s.tail && r.popped == s.popped
  {
    var go := Go(t, false);
    var a := Step(s, CallPush(t, v));
    var b := Step(a, go);
    PushLooks(s, t, v);
    AloneIsExact(b, t);
    LookDecides(b, t);
    var c := Step(b, go);
    StepKeeps(b, go);
    PushTries(c, t);
    ThreeSteps(a, t);
  }

  lemma {:induction false} ThreeSteps(s: State, t: nat)
    requires WellFormed(s)
    ensures var go := Go(t, false); Run(s, Steps(t, 3)) == Step(Step(Step(s, go), go), go)
    ensures var go := Go(t, false); Run(s, Steps(t, 2)) == Step(Step(s, go), go)
  {
    var go := Go(t, false);
    RunFirst(s, t, 3);
    RunFirst(Step(s, go), t, 2);
    RunFirst(s, t, 2);
    RunFirst(Step(s, go), t, 1);
    RunFirst(Step(Step(s, go), go), t, 1);
  }

  /** A look at the current position does not retry: it goes on or returns false. */
  lemma LookDecides(s: State, t: nat)
    requires Inv(s) && t < |s.pcs|
    ensures s.pcs[t].PushLook? && s.pcs[t].pos == s.head && !PushStep(s, t, false).pcs[t].Idle? ==>
      PushStep(s, t, false) == At(s, t, PushTry(s.pcs[t].val, s.head))
    ensures s.pcs[t].PopLook? && s.pcs[t].pos == s.tail && !PopStep(s, t, false).pcs[t].Idle? ==>
      PopStep(s, t, false) == At(s, t, PopTry(s.tail))
  {
    RetryMeansProgress(s, t);
  }

  /** With room, a lone push ends after width + 4 steps, and the element is in the queue. */
  lemma {:induction false} PushAlone(s: State, t: nat, v: seq<Word>)
    requires Inv(s) && Quiet(s) && t < |s.pcs| && |v| == s.width && |s.Contents()| < |s.slots|
    ensures var r := Run(s, [CallPush(t, v)] + Steps(t, 3 + (s.width + 1)));
      Inv(r) && Quiet(r) && r.Contents() == s.Contents() + [v] && r.popped == s.popped
  {
    CallRuns(s, CallPush(t, v), t, s.width + 1);
    PushWinsAlone(s, t, v);
    PushFinishes(Run(Step(s, CallPush(t, v)), Steps(t, 3)), t, s.width + 1);
    assert (s.pushed + [v])[s.tail..] == s.pushed[s.tail..] + [v];
  }

  /** Without room it ends after two steps, and nothing has changed. */
  lemma {:induction false} PushAloneFull(s: State, t: nat, v: seq<Word>)
    requires Inv(s) && Quiet(s) && t < |s.pcs| && |v| == s.width && |s.Contents()| == |s.slots|
    ensures Run(s, [CallPush(t, v)] + Steps(t, 2)) == s
  {
    CallRuns(s, CallPush(t, v), t, 2);
    ThreeSteps(Step(s, CallPush(t, v)), t);
    PushLooks(s, t, v);
    var b := At(s, t, PushLook(v, s.head));
    AloneIsExact(b, t);
    assert Step(b, Go(t, false)).pcs == s.pcs;
  }

  // ----- pop -----

  lemma {:induction false} PopFinishes(s: State, t: nat, n: nat)
    requires Inv(s) && Alone(s, t) && s.pcs[t].PopCopy? && n == s.width - |s.pcs[t].got| + 1
    ensures var r := Run(s, Steps(t, n));
      && Inv(r) && Quiet(r) && r.pushed == s.pushed && r.tail == s.tail
      && s.pcs[t].pos in r.popped
    decreases n
  {
    RunFirst(s, t, n);
    var r := Step(s, Go(t, false));
    StepKeeps(s, Go(t, false));
    if |s.pcs[t].got| < s.width {
      PopFinishes(r, t, n - 1);
    } else {
      assert Run(r, Steps(t, 0)) == r;
    }
  }

  /** The call and its load of tail. */
  lemma PopLooks(s: State, t: nat)
    requires Inv(s) && Quiet(s) && t < |s.pcs|
    ensures var b := Step(Step(s, CallPop(t)), Go(t, false));
      Inv(b) && Alone(b, t) && b == At(s, t, PopLook(s.tail))
  {
    StepKeeps(s, CallPop(t));
    StepKeeps(Step(s, CallPop(t)), Go(t, false));
  }

  lemma PopTries(s: State, t: nat)
    requires Inv(s) && Alone(s, t) && s.pcs[t].PopTry? && s.pcs[t].pos == s.tail
    ensures var r := Step(s, Go(t, false));
      && Inv(r) && Alone(r, t) && r.pcs[t] == PopCopy(s.tail, [])
      && r.width == s.width && r.pushed == s.pushed && r.tail == s.tail + 1
  {
    StepKeeps(s, Go(t, false));
  }

  lemma {:induction false} PopWinsAlone(s: State, t: nat)
    requires Inv(s) && Quiet(s) && t < |s.pcs| && s.Contents() != []
    ensures var r := Run(Step(s, CallPop(t)), Steps(t, 3));
      && Inv(r) && Alone(r, t) && r.pcs[t] == PopCopy(s.tail, [])
      && r.width == s.width && r.pushed == s.pushed && r.tail == s.tail + 1
  {
    var go := Go(t, false);
    var a := Step(s, CallPop(t));
    var b := Step(a, go);
    PopLooks(s, t);
    AloneIsExact(b, t);
    LookDecides(b, t);
    var c := Step(b, go);
    StepKeeps(b, go);
    PopTries(c, t);
    ThreeSteps(a, t);
  }

  lemma Popped(s: State, r: State)
    requires Inv(s) && Inv(r) && s.Contents() != []
    requires r.pushed == s.pushed && r.tail == s.tail + 1 && s.tail in r.popped
    ensures s.Contents() == [s.Contents()[0]] + r.Contents() && r.popped[s.tail] == s.Contents()[0]
  {
    assert s.pushed[s.tail..] == [s.pushed[s.tail]] + s.pushed[s.tail + 1..];
  }

  /** With something in the queue, a lone pop ends after width + 4 steps and has returned the
      oldest element, which is gone from the queue. */
  lemma {:induction false} PopAlone(s: State, t: nat)
    requires Inv(s) && Quiet(s) && t < |s.pcs| && s.Contents() != []
    ensures var r := Run(s, [CallPop(t)] + Steps(t, 3 + (s.width + 1)));
      && Inv(r) && Quiet(r) && s.Contents() == [s.Contents()[0]] + r.Contents()
      && s.tail in r.popped && r.popped[s.tail] == s.Contents()[0]
  {
    CallRuns(s, CallPop(t), t, s.width + 1);
    PopWinsAlone(s, t);
    var c := Run(Step(s, CallPop(t)), Steps(t, 3));
    PopFinishes(c, t, s.width + 1);
    Popped(s, Run(c, Steps(t, s.width + 1)));
  }

  /** With nothing there it ends after two steps, and nothing has changed. */
  lemma {:induction false} PopAloneEmpty(s: State, t: nat)
    requires Inv(s) && Quiet(s) && t < |s.pcs| && s.Contents() == []
    ensures Run(s, [CallPop(t)] + Steps(t, 2)) == s
  {
    CallRuns(s, CallPop(t), t, 2);
    ThreeSteps(Step(s, CallPop(t)), t);
    PopLooks(s, t);
    var b := At(s, t, PopLook(s.tail));
    AloneIsExact(b, t);
    assert Step(b, Go(t, false)).pcs == s.pcs;
  }
}
