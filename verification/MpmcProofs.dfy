/** What every interleaving of the queue keeps: slot ownership, first-in-first-out by
    ticket, and what a failure or a retry means. */
module MpmcProofs {
  import opened MpmcQueue
  import Arithmetic

  // ----- the inductive invariant -----

  ghost predicate PushingAt(s: State, t: nat, pos: nat) {
    t < |s.pcs| && s.pcs[t].PushCopy? && s.pcs[t].pos == pos
  }

  ghost predicate PoppingAt(s: State, t: nat, pos: nat) {
    t < |s.pcs| && s.pcs[t].PopCopy? && s.pcs[t].pos == pos
  }

  /** Slot i is in the lap of ticket turn[i]: free for its push, or published for its pop.
      Once the ticket is claimed, the owner is at work on it. */
  ghost predicate SlotInv(s: State, i: nat)
    requires WellFormed(s) && i < |s.slots|
  {
    var t := s.turn[i];
    && s.Index(t) == i
    && (if s.full[i] then
          && s.slots[i].seqno == t + 1
          && t < s.head <= t + |s.slots| && t < |s.pushed| && s.slots[i].data == s.pushed[t]
          && (t < s.tail ==> PoppingAt(s, s.owner[i], t))
        else
          && s.slots[i].seqno == t
          && s.tail <= t < s.tail + |s.slots|
          && (t < s.head ==> PushingAt(s, s.owner[i], t)))
  }

  ghost predicate Turn(s: State, pos: nat, full: bool)
    requires WellFormed(s)
  {
    s.turn[s.Index(pos)] == pos && s.full[s.Index(pos)] == full
  }

  /** What thread t may rely on. The compare-exchange cases are the stability argument: a
      slot seen ready for pos stays ready until head (or tail) leaves pos. */
  ghost predicate PcInv(s: State, t: nat)
    requires WellFormed(s) && t < |s.pcs|
  {
    match s.pcs[t]
    case PushLook(_, pos) => pos <= s.head
    case PushTry(_, pos) => pos <= s.head && (pos == s.head ==> Turn(s, pos, false))
    case PushCopy(v, pos, n) =>
      && pos < s.head && pos < |s.pushed| && s.pushed[pos] == v
      && Turn(s, pos, false) && s.owner[s.Index(pos)] == t
      && s.slots[s.Index(pos)].data[..n] == v[..n]
    case PopLook(pos) => pos <= s.tail
    case PopTry(pos) => pos <= s.tail && (pos == s.tail ==> Turn(s, pos, true))
    case PopCopy(pos, got) =>
      && pos < s.tail && pos < |s.pushed| && pos !in s.popped
      && Turn(s, pos, true) && s.owner[s.Index(pos)] == t
      && got <= s.pushed[pos]
    case _ => true
  }

  ghost predicate Shape(s: State) {
    && WellFormed(s) && |s.slots| >= 2
    && s.tail <= s.head <= s.tail + |s.slots|
    && |s.pushed| == s.head
    && (forall k :: 0 <= k < |s.pushed| ==> |s.pushed[k]| == s.width)
  }

  ghost predicate Ledger(s: State)
    requires Shape(s)
  {
    && (forall k :: k in s.popped ==> k < s.tail && s.popped[k] == s.pushed[k])
    && (forall k: nat :: k < s.tail ==> k in s.popped || Turn(s, k, true))
  }

  ghost predicate Inv(s: State) {
    && Shape(s)
    && (forall i :: 0 <= i < |s.slots| ==> SlotInv(s, i))
    && (forall t :: 0 <= t < |s.pcs| ==> PcInv(s, t))
    && Ledger(s)
  }

  // ----- tickets and slots -----

  lemma {:induction false} WrapIsModulo(pos: nat, n: nat)
    requires n > 0
    ensures Wrap(pos, n) == pos % n
    decreases pos
  {
    if pos < n {
      Arithmetic.DivModUnique(pos, n, 0, pos);
    } else {
      WrapIsModulo(pos - n, n);
      Arithmetic.ModAddOnce(pos - n, n);
    }
  }

  /** Tickets of the same slot are equal or at least a lap apart. */
  lemma {:induction false} Laps(a: nat, b: nat, n: nat)
    requires n > 0 && Wrap(a, n) == Wrap(b, n) && a < b
    ensures a + n <= b
  {
    if n <= a { Laps(a - n, b - n, n); }
  }

  lemma InitInv(s: State)
    requires Init(s) && |s.slots| >= 2
    ensures Inv(s)
  {
  }

  // ----- one step -----

  /** Steps that only move a program counter between places that own no slot. */
  lemma MoveKeeps(s: State, t: nat, pc: Pc)
    requires Inv(s) && t < |s.pcs| && PcFits(pc, s.width)
    requires !s.pcs[t].PushCopy? && !s.pcs[t].PopCopy? && !pc.PushCopy? && !pc.PopCopy?
    requires PcInv(At(s, t, pc), t)
    ensures Inv(At(s, t, pc))
  {
    var r := At(s, t, pc);
    forall i | 0 <= i < |s.slots|
      ensures SlotInv(r, i)
    {
      assert SlotInv(s, i);
    }
    forall u | 0 <= u < |s.pcs|
      ensures PcInv(r, u)
    {
      assert PcInv(s, u);
    }
  }

  lemma PushWinsSlot(s: State, t: nat, i: nat)
    requires Inv(s) && t < |s.pcs| && s.pcs[t].PushTry? && s.head == s.pcs[t].pos
    requires i < |s.slots|
    ensures SlotInv(PushStep(s, t, false), i)
  {
    var pos := s.pcs[t].pos;
    assert PcInv(s, t) && SlotInv(s, s.Index(pos));
    assert SlotInv(s, i);
  }

  lemma PushWinsPc(s: State, t: nat, u: nat)
    requires Inv(s) && t < |s.pcs| && s.pcs[t].PushTry? && s.head == s.pcs[t].pos
    requires u < |s.pcs|
    ensures PcInv(PushStep(s, t, false), u)
  {
    var pos := s.pcs[t].pos;
    assert PcInv(s, t) && SlotInv(s, s.Index(pos));
    assert PcInv(s, u);
  }

  lemma PushWins(s: State, t: nat)
    requires Inv(s) && t < |s.pcs| && s.pcs[t].PushTry? && s.head == s.pcs[t].pos
    ensures Inv(PushStep(s, t, false))
  {
    var r := PushStep(s, t, false);
    var pos := s.pcs[t].pos;
    assert PcInv(s, t) && SlotInv(s, s.Index(pos));
    forall i | 0 <= i < |s.slots|
      ensures SlotInv(r, i)
    {
      PushWinsSlot(s, t, i);
    }
    forall u | 0 <= u < |s.pcs|
      ensures PcInv(r, u)
    {
      PushWinsPc(s, t, u);
    }
  }

  lemma PopWinsSlot(s: State, t: nat, i: nat)
    requires Inv(s) && t < |s.pcs| && s.pcs[t].PopTry? && s.tail == s.pcs[t].pos
    requires i < |s.slots|
    ensures SlotInv(PopStep(s, t, false), i)
  {
    var pos := s.pcs[t].pos;
    assert PcInv(s, t) && SlotInv(s, s.Index(pos));
    assert SlotInv(s, i);
  }

  lemma PopWinsPc(s: State, t: nat, u: nat)
    requires Inv(s) && t < |s.pcs| && s.pcs[t].PopTry? && s.tail == s.pcs[t].pos
    requires u < |s.pcs|
    ensures PcInv(PopStep(s, t, false), u)
  {
    var pos := s.pcs[t].pos;
    assert PcInv(s, t) && SlotInv(s, s.Index(pos));
    assert PcInv(s, u);
  }

  lemma PopWins(s: State, t: nat)
    requires Inv(s) && t < |s.pcs| && s.pcs[t].PopTry? && s.tail == s.pcs[t].pos
    ensures Inv(PopStep(s, t, false))
  {
    var r := PopStep(s, t, false);
    var pos := s.pcs[t].pos;
    assert PcInv(s, t) && SlotInv(s, s.Index(pos));
    forall i | 0 <= i < |s.slots|
      ensures SlotInv(r, i)
    {
      PopWinsSlot(s, t, i);
    }
    forall u | 0 <= u < |s.pcs|
      ensures PcInv(r, u)
    {
      PopWinsPc(s, t, u);
    }
  }

  lemma PushCopiesSlot(s: State, t: nat, i: nat)
    requires Inv(s) && t < |s.pcs| && s.pcs[t].PushCopy? && s.pcs[t].done < s.width
    requires i < |s.slots|
    ensures SlotInv(PushStep(s, t, false), i)
  {
    var r := PushStep(s, t, false);
    var v, pos, n := s.pcs[t].val, s.pcs[t].pos, s.pcs[t].done;
    var j := s.Index(pos);
    assert PcInv(s, t) && SlotInv(s, j);
    assert r.slots[j].data[..n + 1] == s.slots[j].data[..n] + [v[n]] == v[..n + 1];
    assert SlotInv(s, i);
  }

  lemma PushCopiesPc(s: State, t: nat, u: nat)
    requires Inv(s) && t < |s.pcs| && s.pcs[t].PushCopy? && s.pcs[t].done < s.width
    requires u < |s.pcs|
    ensures PcInv(PushStep(s, t, false), u)
  {
    var r := PushStep(s, t, false);
    var v, pos, n := s.pcs[t].val, s.pcs[t].pos, s.pcs[t].done;
    var j := s.Index(pos);
    assert PcInv(s, t) && SlotInv(s, j);
    assert r.slots[j].data[..n + 1] == s.slots[j].data[..n] + [v[n]] == v[..n + 1];
    assert PcInv(s, u);
  }

  lemma PushCopies(s: State, t: nat)
    requires Inv(s) && t < |s.pcs| && s.pcs[t].PushCopy? && s.pcs[t].done < s.width
    ensures Inv(PushStep(s, t, false))
  {
    var r := PushStep(s, t, false);
    var v, pos, n := s.pcs[t].val, s.pcs[t].pos, s.pcs[t].done;
    var j := s.Index(pos);
    assert PcInv(s, t) && SlotInv(s, j);
    assert r.slots[j].data[..n + 1] == s.slots[j].data[..n] + [v[n]] == v[..n + 1];
    forall i | 0 <= i < |s.slots|
      ensures SlotInv(r, i)
    {
      PushCopiesSlot(s, t, i);
    }
    forall u | 0 <= u < |s.pcs|
      ensures PcInv(r, u)
    {
      PushCopiesPc(s, t, u);
    }
  }

  lemma PushPublishesSlot(s: State, t: nat, i: nat)
    requires Inv(s) && t < |s.pcs| && s.pcs[t].PushCopy? && s.pcs[t].done >= s.width
    requires i < |s.slots|
    ensures SlotInv(PushStep(s, t, false), i)
  {
    var v, pos, n := s.pcs[t].val, s.pcs[t].pos, s.pcs[t].done;
    var j := s.Index(pos);
    assert PcInv(s, t) && SlotInv(s, j);
    assert s.slots[j].data == s.slots[j].data[..n] == v[..n] == v;
    assert SlotInv(s, i);
  }

  lemma PushPublishesPc(s: State, t: nat, u: nat)
    requires Inv(s) && t < |s.pcs| && s.pcs[t].PushCopy? && s.pcs[t].done >= s.width
    requires u < |s.pcs|
    ensures PcInv(PushStep(s, t, false), u)
  {
    var v, pos, n := s.pcs[t].val, s.pcs[t].pos, s.pcs[t].done;
    var j := s.Index(pos);
    assert PcInv(s, t) && SlotInv(s, j);
    assert s.slots[j].data == s.slots[j].data[..n] == v[..n] == v;
    assert PcInv(s, u);
  }

  lemma PushPublishes(s: State, t: nat)
    requires Inv(s) && t < |s.pcs| && s.pcs[t].PushCopy? && s.pcs[t].done >= s.width
    ensures Inv(PushStep(s, t, false))
  {
    var r := PushStep(s, t, false);
    var v, pos, n := s.pcs[t].val, s.pcs[t].pos, s.pcs[t].done;
    var j := s.Index(pos);
    assert PcInv(s, t) && SlotInv(s, j);
    assert s.slots[j].data == s.slots[j].data[..n] == v[..n] == v;
    forall i | 0 <= i < |s.slots|
      ensures SlotInv(r, i)
    {
      PushPublishesSlot(s, t, i);
    }
    forall u | 0 <= u < |s.pcs|
      ensures PcInv(r, u)
    {
      PushPublishesPc(s, t, u);
    }
  }

  lemma PopCopiesSlot(s: State, t: nat, i: nat)
    requires Inv(s) && t < |s.pcs| && s.pcs[t].PopCopy? && |s.pcs[t].got| < s.width
    requires i < |s.slots|
    ensures SlotInv(PopStep(s, t, false), i)
  {
    assert PcInv(s, t) && SlotInv(s, s.Index(s.pcs[t].pos));
    assert SlotInv(s, i);
  }

  lemma PopCopiesPc(s: State, t: nat, u: nat)
    requires Inv(s) && t < |s.pcs| && s.pcs[t].PopCopy? && |s.pcs[t].got| < s.width
    requires u < |s.pcs|
    ensures PcInv(PopStep(s, t, false), u)
  {
    assert PcInv(s, t) && SlotInv(s, s.Index(s.pcs[t].pos));
    assert PcInv(s, u);
  }

  lemma PopCopies(s: State, t: nat)
    requires Inv(s) && t < |s.pcs| && s.pcs[t].PopCopy? && |s.pcs[t].got| < s.width
    ensures Inv(PopStep(s, t, false))
  {
    var r := PopStep(s, t, false);
    assert PcInv(s, t) && SlotInv(s, s.Index(s.pcs[t].pos));
    forall i | 0 <= i < |s.slots|
      ensures SlotInv(r, i)
    {
      PopCopiesSlot(s, t, i);
    }
    forall u | 0 <= u < |s.pcs|
      ensures PcInv(r, u)
    {
      PopCopiesPc(s, t, u);
    }
  }

  lemma PopReleasesSlot(s: State, t: nat, i: nat)
    requires Inv(s) && t < |s.pcs| && s.pcs[t].PopCopy? && |s.pcs[t].got| >= s.width
    requires i < |s.slots|
    ensures SlotInv(PopStep(s, t, false), i)
  {
    var pos := s.pcs[t].pos;
    assert PcInv(s, t) && SlotInv(s, s.Index(pos));
    assert s.pcs[t].got == s.pushed[pos];
    assert SlotInv(s, i);
  }

  lemma PopReleasesPc(s: State, t: nat, u: nat)
    requires Inv(s) && t < |s.pcs| && s.pcs[t].PopCopy? && |s.pcs[t].got| >= s.width
    requires u < |s.pcs|
    ensures PcInv(PopStep(s, t, false), u)
  {
    var pos := s.pcs[t].pos;
    assert PcInv(s, t) && SlotInv(s, s.Index(pos));
    assert s.pcs[t].got == s.pushed[pos];
    assert PcInv(s, u);
  }

  lemma PopReleases(s: State, t: nat)
    requires Inv(s) && t < |s.pcs| && s.pcs[t].PopCopy? && |s.pcs[t].got| >= s.width
    ensures Inv(PopStep(s, t, false))
  {
    var r := PopStep(s, t, false);
    var pos := s.pcs[t].pos;
    assert PcInv(s, t) && SlotInv(s, s.Index(pos));
    assert s.pcs[t].got == s.pushed[pos];
    forall i | 0 <= i < |s.slots|
      ensures SlotInv(r, i)
    {
      PopReleasesSlot(s, t, i);
    }
    forall u | 0 <= u < |s.pcs|
      ensures PcInv(r, u)
    {
      PopReleasesPc(s, t, u);
    }
    forall k: nat | k < r.tail
      ensures k in r.popped || Turn(r, k, true)
    {
      assert k in s.popped || Turn(s, k, true);
    }
  }

  /** A thread that looks at a slot learns what the comparison promises. */
  lemma LookKeeps(s: State, t: nat)
    requires Inv(s) && t < |s.pcs|
    requires s.pcs[t].PushLook? || s.pcs[t].PopLook?
    ensures s.pcs[t].PushLook? ==> Inv(PushStep(s, t, false))
    ensures s.pcs[t].PopLook? ==> Inv(PopStep(s, t, false))
  {
    var pos, n := s.pcs[t].pos, |s.slots|;
    var i := s.Index(pos);
    assert PcInv(s, t) && SlotInv(s, i);
    if s.turn[i] < pos { Laps(s.turn[i], pos, n); }
    if pos < s.turn[i] { Laps(pos, s.turn[i], n); }
    var r := if s.pcs[t].PushLook? then PushStep(s, t, false) else PopStep(s, t, false);
    MoveKeeps(s, t, r.pcs[t]);
  }

  lemma GoKeeps(s: State, t: nat, spurious: bool)
    requires Inv(s) && t < |s.pcs|
    ensures Inv(Step(s, Go(t, spurious)))
  {
    var pc := s.pcs[t];
    if pc.PushTry? || pc.PopTry? {
      TryKeeps(s, t, spurious);
    } else if pc.PushCopy? || pc.PopCopy? {
      CopyKeeps(s, t);
    } else if pc.PushLook? || pc.PopLook? {
      LookKeeps(s, t);
    } else if !pc.Idle? {
      MoveKeeps(s, t, if pc.PushStart? then PushLook(pc.val, s.head) else PopLook(s.tail));
    }
  }

  lemma StepKeeps(s: State, e: Event)
    requires Inv(s)
    ensures Inv(Step(s, e))
  {
    if e.tid < |s.pcs| {
      match e
      case Go(t, spurious) => GoKeeps(s, t, spurious);
      case CallPush(t, v) =>
        if s.pcs[t].Idle? && |v| == s.width { MoveKeeps(s, t, PushStart(v)); }
      case CallPop(t) =>
        if s.pcs[t].Idle? { MoveKeeps(s, t, PopStart); }
    }
  }

  lemma TryKeeps(s: State, t: nat, spurious: bool)
    requires Inv(s) && t < |s.pcs| && (s.pcs[t].PushTry? || s.pcs[t].PopTry?)
    ensures s.pcs[t].PushTry? ==> Inv(PushStep(s, t, spurious))
    ensures s.pcs[t].PopTry? ==> Inv(PopStep(s, t, spurious))
  {
    var pc := s.pcs[t];
    if pc.PushTry? && s.head == pc.pos && !spurious {
      PushWins(s, t);
    } else if pc.PopTry? && s.tail == pc.pos && !spurious {
      PopWins(s, t);
    } else {
      MoveKeeps(s, t, if pc.PushTry? then PushLook(pc.val, s.head) else PopLook(s.tail));
    }
  }

  lemma CopyKeeps(s: State, t: nat)
    requires Inv(s) && t < |s.pcs| && (s.pcs[t].PushCopy? || s.pcs[t].PopCopy?)
    ensures s.pcs[t].PushCopy? ==> Inv(PushStep(s, t, false))
    ensures s.pcs[t].PopCopy? ==> Inv(PopStep(s, t, false))
  {
    if s.pcs[t].PushCopy? {
      if s.pcs[t].done < s.width { PushCopies(s, t); } else { PushPublishes(s, t); }
    } else {
      if |s.pcs[t].got| < s.width { PopCopies(s, t); } else { PopReleases(s, t); }
    }
  }

  // ----- every interleaving -----

  lemma {:induction false} RunAppend(s: State, a: seq<Event>, b: seq<Event>)
    requires WellFormed(s)
    ensures Run(s, a + b) == Run(Run(s, a), b)
  {
    if b == [] {
      assert a + b == a;
    } else {
      var n := |b| - 1;
      RunAppend(s, a, b[..n]);
      assert (a + b)[..|a + b| - 1] == a + b[..n];
    }
  }

  lemma {:induction false} RunKeeps(s: State, es: seq<Event>)
    requires Init(s) && |s.slots| >= 2
    ensures Inv(Run(s, es)) && |Run(s, es).slots| == |s.slots|
  {
    if es == [] {
      InitInv(s);
    } else {
      RunKeeps(s, es[..|es| - 1]);
      StepKeeps(Run(s, es[..|es| - 1]), es[|es| - 1]);
    }
  }

  /** At most one thread copies into or out of a slot, and the indices never drift more than
      a capacity apart. */
  lemma {:induction false} Ownership(s0: State, es: seq<Event>)
    requires Init(s0) && |s0.slots| >= 2
    ensures var s := Run(s0, es);
      && s.tail <= s.head <= s.tail + |s0.slots|
      && forall t, u :: 0 <= t < u < |s.pcs|
           && (s.pcs[t].PushCopy? || s.pcs[t].PopCopy?) && (s.pcs[u].PushCopy? || s.pcs[u].PopCopy?)
           ==> s.Index(s.pcs[t].pos) != s.Index(s.pcs[u].pos)
  {
    RunKeeps(s0, es);
    var s := Run(s0, es);
    forall t, u | 0 <= t < u < |s.pcs|
      && (s.pcs[t].PushCopy? || s.pcs[t].PopCopy?) && (s.pcs[u].PushCopy? || s.pcs[u].PopCopy?)
      ensures s.Index(s.pcs[t].pos) != s.Index(s.pcs[u].pos)
    {
      assert PcInv(s, t) && PcInv(s, u);
    }
  }

  /** First in, first out by ticket: whatever the interleaving, the pop that won ticket k
      returned the argument of the push that won ticket k, word for word, and every ticket
      below tail has been returned or is being copied out by the one thread that won it. */
  lemma {:induction false} FifoByTicket(s0: State, es: seq<Event>)
    requires Init(s0) && |s0.slots| >= 2
    ensures var s := Run(s0, es);
      && (forall k :: k in s.popped ==> k < s.tail <= s.head == |s.pushed| && s.popped[k] == s.pushed[k])
      && (forall k: nat :: k < s.tail && k !in s.popped ==>
            s.owner[s.Index(k)] < |s.pcs| && s.pcs[s.owner[s.Index(k)]].PopCopy?
            && s.pcs[s.owner[s.Index(k)]].pos == k)
  {
    RunKeeps(s0, es);
    var s := Run(s0, es);
    forall k: nat | k < s.tail && k !in s.popped
      ensures PoppingAt(s, s.owner[s.Index(k)], k)
    {
      assert Turn(s, k, true) && SlotInv(s, s.Index(k));
    }
  }

  ghost predicate Quiet(s: State) {
    forall t :: 0 <= t < |s.pcs| ==> s.pcs[t].Idle?
  }

  /** With no call in flight nothing is lost or duplicated: the tickets below tail are exactly
      the values returned, and the queue's contents lie in order in the slots. */
  lemma {:induction false} QuietContents(s0: State, es: seq<Event>)
    requires Init(s0) && |s0.slots| >= 2 && Quiet(Run(s0, es))
    ensures var s := Run(s0, es);
      && s.tail <= s.head == |s.pushed|
      && (forall k: nat :: k in s.popped <==> k < s.tail)
      && (forall k: nat :: s.tail <= k < s.head ==>
            s.slots[s.Index(k)].seqno == k + 1 && s.slots[s.Index(k)].data == s.pushed[k])
  {
    RunKeeps(s0, es);
    QuietReturned(Run(s0, es));
    QuietStored(Run(s0, es));
  }

  lemma QuietReturned(s: State)
    requires Inv(s) && Quiet(s)
    ensures forall k: nat :: k in s.popped <==> k < s.tail
  {
    forall k: nat | k < s.tail
      ensures k in s.popped
    {
      assert SlotInv(s, s.Index(k));
    }
  }

  lemma QuietStored(s: State)
    requires Inv(s) && Quiet(s)
    ensures forall k: nat :: s.tail <= k < s.head ==>
      s.slots[s.Index(k)].seqno == k + 1 && s.slots[s.Index(k)].data == s.pushed[k]
  {
    forall k: nat | s.tail <= k < s.head
      ensures s.slots[s.Index(k)].seqno == k + 1 && s.slots[s.Index(k)].data == s.pushed[k]
    {
      var i := s.Index(k);
      assert SlotInv(s, i);
      if s.turn[i] < k { Laps(s.turn[i], k, |s.slots|); }
      if k < s.turn[i] { Laps(k, s.turn[i], |s.slots|); }
    }
  }

  // ----- refinement of an atomic queue -----

  /** How one step looks to an atomic bounded queue of sequences. */
  ghost predicate Enqueues(s: State, r: State, v: seq<Word>)
    requires Shape(s) && Shape(r)
  {
    |s.Contents()| < |s.slots| && r.Contents() == s.Contents() + [v] && r.popped == s.popped
  }

  ghost predicate Dequeues(s: State, r: State, pos: nat)
    requires Shape(s) && Shape(r)
  {
    pos == s.tail && pos < |r.pushed| && s.Contents() == [r.pushed[pos]] + r.Contents() && r.popped == s.popped
  }

  ghost predicate Returns(s: State, r: State, pos: nat)
    requires Shape(s) && Shape(r)
  {
    && r.Contents() == s.Contents()
    && pos !in s.popped && pos < |s.pushed| && r.popped == s.popped[pos := s.pushed[pos]]
  }

  /** Every step of every thread is a step of the atomic queue: the winning compare-exchange
      of a push enqueues its argument into a queue with room, that of a pop dequeues the
      oldest element, the release of a pop hands over the element it dequeued (and no earlier
      pop returned that ticket), and every other step is invisible. Tickets once given keep
      their values. */
  lemma StepRefines(s: State, e: Event)
    requires Inv(s)
    ensures Inv(Step(s, e)) && s.pushed <= Step(s, e).pushed
    ensures var r := Step(s, e); var pc := if e.tid < |s.pcs| then s.pcs[e.tid] else Idle;
      if e.Go? && pc.PushTry? && s.head == pc.pos && !e.spurious then Enqueues(s, r, pc.val)
      else if e.Go? && pc.PopTry? && s.tail == pc.pos && !e.spurious then Dequeues(s, r, pc.pos)
      else if e.Go? && pc.PopCopy? && |pc.got| == s.width then Returns(s, r, pc.pos)
      else r.Contents() == s.Contents() && r.popped == s.popped
  {
    StepKeeps(s, e);
    StepLogs(s, e);
    if e.Go? && e.tid < |s.pcs| {
      var pc := s.pcs[e.tid];
      if pc.PushTry? && s.head == pc.pos && !e.spurious {
        PushWinRefines(s, e.tid);
      } else if pc.PopTry? && s.tail == pc.pos && !e.spurious {
        PopWinRefines(s, e.tid);
      } else if pc.PopCopy? && |pc.got| == s.width {
        ReleaseRefines(s, e.tid);
      }
    }
  }

  /** Only a winning compare-exchange or a release touches the logs. */
  lemma StepLogs(s: State, e: Event)
    requires WellFormed(s)
    ensures var r := Step(s, e); var pc := if e.tid < |s.pcs| then s.pcs[e.tid] else Idle;
      && s.pushed <= r.pushed
      && (!(e.Go? && pc.PushTry? && s.head == pc.pos && !e.spurious) ==> r.pushed == s.pushed)
      && (!(e.Go? && pc.PopTry? && s.tail == pc.pos && !e.spurious) ==> r.tail == s.tail)
      && (!(e.Go? && pc.PopCopy? && |pc.got| == s.width) ==> r.popped == s.popped)
  {
  }

  lemma PushWinRefines(s: State, t: nat)
    requires Inv(s) && t < |s.pcs| && s.pcs[t].PushTry? && s.head == s.pcs[t].pos
    requires Shape(PushStep(s, t, false))
    ensures Enqueues(s, PushStep(s, t, false), s.pcs[t].val)
  {
    assert PcInv(s, t) && SlotInv(s, s.Index(s.head));
  }

  lemma PopWinRefines(s: State, t: nat)
    requires Inv(s) && t < |s.pcs| && s.pcs[t].PopTry? && s.tail == s.pcs[t].pos
    requires Shape(PopStep(s, t, false))
    ensures Dequeues(s, PopStep(s, t, false), s.tail)
  {
    assert PcInv(s, t) && SlotInv(s, s.Index(s.tail));
    assert s.pushed[s.tail..] == [s.pushed[s.tail]] + s.pushed[s.tail + 1..];
  }

  lemma ReleaseRefines(s: State, t: nat)
    requires Inv(s) && t < |s.pcs| && s.pcs[t].PopCopy? && |s.pcs[t].got| == s.width
    requires Shape(PopStep(s, t, false))
    ensures Returns(s, PopStep(s, t, false), s.pcs[t].pos)
  {
    assert PcInv(s, t);
    assert s.pcs[t].got == s.pushed[s.pcs[t].pos];
  }

  /** A ticket's value and a returned value never change again. */
  lemma {:induction false} TicketsPersist(s: State, es: seq<Event>)
    requires Inv(s)
    ensures Inv(Run(s, es)) && s.pushed <= Run(s, es).pushed
    ensures forall k :: k in s.popped ==> k in Run(s, es).popped && Run(s, es).popped[k] == s.popped[k]
  {
    if es != [] {
      var n := |es| - 1;
      TicketsPersist(s, es[..n]);
      StepRefines(Run(s, es[..n]), es[n]);
    }
  }

  // ----- what a failure means -----

  /** A push whose step out of the look returns false saw, at its load of the sequence number,
      head still at its pos and ticket pos - N not yet released: its element is unpopped, or the
      push or the pop that owns it is still copying. Without such a copy the queue is exactly
      full. */
  lemma FullMeans(s: State, t: nat, spurious: bool)
    requires Inv(s) && t < |s.pcs| && s.pcs[t].PushLook? && PushStep(s, t, spurious).pcs[t].Idle?
    ensures var pos, n := s.pcs[t].pos, |s.slots|; var i := s.Index(pos);
      && pos == s.head && n <= pos && s.turn[i] == pos - n && pos - n !in s.popped
      && (s.head - s.tail == n || PushingAt(s, s.owner[i], pos - n) || PoppingAt(s, s.owner[i], pos - n))
  {
    var pos, n := s.pcs[t].pos, |s.slots|;
    var i := s.Index(pos);
    assert PcInv(s, t) && SlotInv(s, i);
    Laps(s.turn[i], pos, n);
    if PoppingAt(s, s.owner[i], pos - n) { assert PcInv(s, s.owner[i]); }
  }

  /** A pop whose step out of the look returns false saw tail still at its pos with nothing
      published there: the queue is exactly empty, or the push that owns that ticket is still
      copying. */
  lemma EmptyMeans(s: State, t: nat, spurious: bool)
    requires Inv(s) && t < |s.pcs| && s.pcs[t].PopLook? && PopStep(s, t, spurious).pcs[t].Idle?
    ensures var pos := s.pcs[t].pos;
      && pos == s.tail
      && (s.head == s.tail || PushingAt(s, s.owner[s.Index(pos)], pos))
  {
    var pos, n := s.pcs[t].pos, |s.slots|;
    var i := s.Index(pos);
    assert PcInv(s, t) && SlotInv(s, i);
    if s.turn[i] < pos { Laps(s.turn[i], pos, n); }
  }

  ghost predicate CopyingAt(s: State, t: nat, pos: int) {
    t < |s.pcs| && (s.pcs[t].PushCopy? || s.pcs[t].PopCopy?) && s.pcs[t].pos == pos
  }

  /** Some thread is still copying into or out of the slot for this ticket. */
  ghost predicate SomeCopier(s: State, pos: int) { exists t: nat :: CopyingAt(s, t, pos) }

  /** How a call ends, whatever step ends it: with false out of a look at head (or tail), for the
      reasons above, or with true after its last word. A call that has been overtaken goes on. */
  lemma CallsEnd(s: State, t: nat, spurious: bool)
    requires Inv(s) && t < |s.pcs| && !s.pcs[t].Idle? && Step(s, Go(t, spurious)).pcs[t].Idle?
    ensures match s.pcs[t]
      case PushLook(_, pos) => pos == s.head && (s.head - s.tail == |s.slots| || SomeCopier(s, pos - |s.slots|))
      case PushCopy(_, _, n) => n == s.width
      case PopLook(pos) => pos == s.tail && (s.head == s.tail || SomeCopier(s, pos))
      case PopCopy(_, got) => |got| == s.width
      case _ => false
  {
    if s.pcs[t].PushLook? {
      FullMeans(s, t, spurious);
      var pos, n := s.pcs[t].pos, |s.slots|;
      if s.head - s.tail != n { assert CopyingAt(s, s.owner[s.Index(pos)], pos - n); }
    }
    if s.pcs[t].PopLook? {
      EmptyMeans(s, t, spurious);
      var pos := s.pcs[t].pos;
      if s.head != s.tail { assert CopyingAt(s, s.owner[s.Index(pos)], pos); }
    }
  }

  /** With no other thread copying, the answer of the look is exact in both directions: a push
      fails if and only if the queue is full, a pop if and only if it is empty. */
  lemma AloneIsExact(s: State, t: nat)
    requires Inv(s) && t < |s.pcs|
    requires forall u :: 0 <= u < |s.pcs| ==> !s.pcs[u].PushCopy? && !s.pcs[u].PopCopy?
    requires (s.pcs[t].PushLook? && s.pcs[t].pos == s.head) || (s.pcs[t].PopLook? && s.pcs[t].pos == s.tail)
    ensures s.pcs[t].PushLook? ==>
      (PushStep(s, t, false).pcs[t].Idle? <==> |s.Contents()| == |s.slots|)
    ensures s.pcs[t].PopLook? ==>
      (PopStep(s, t, false).pcs[t].Idle? <==> |s.Contents()| == 0)
  {
    var pos, n := s.pcs[t].pos, |s.slots|;
    var i := s.Index(pos);
    assert SlotInv(s, i);
    if s.turn[i] < pos { Laps(s.turn[i], pos, n); }
    if pos < s.turn[i] { Laps(pos, s.turn[i], n); }
  }

  /** A thread goes round its loop, other than by a spurious failure, only if head (or tail)
      has moved past the position it held: some other call won a ticket meanwhile. */
  lemma RetryMeansProgress(s: State, t: nat)
    requires Inv(s) && t < |s.pcs|
    ensures s.pcs[t].PushLook? && PushStep(s, t, false).pcs[t].PushStart? ==> s.pcs[t].pos < s.head
    ensures s.pcs[t].PushTry? && PushStep(s, t, false).pcs[t].PushLook? ==> s.pcs[t].pos < s.head
    ensures s.pcs[t].PopLook? && PopStep(s, t, false).pcs[t].PopStart? ==> s.pcs[t].pos < s.tail
    ensures s.pcs[t].PopTry? && PopStep(s, t, false).pcs[t].PopLook? ==> s.pcs[t].pos < s.tail
  {
    assert PcInv(s, t);
    if s.pcs[t].PushLook? || s.pcs[t].PopLook? {
      var pos, n := s.pcs[t].pos, |s.slots|;
      var i := s.Index(pos);
      assert SlotInv(s, i);
      if s.turn[i] < pos { Laps(s.turn[i], pos, n); }
      if pos < s.turn[i] { Laps(pos, s.turn[i], n); }
    }
  }

  // ----- nothing is overwritten -----

  /** Every element is still in its slot, whole, from the end of its push to the end of its pop. */
  ghost predicate NothingOverwritten(s: State)
    requires WellFormed(s)
  {
    forall k: nat :: k < |s.pushed| && k !in s.popped ==>
      (exists t: nat :: PushingAt(s, t, k)) || s.slots[s.Index(k)].data == s.pushed[k]
  }

  lemma StoredUntilPopped(s: State)
    requires Inv(s)
    ensures NothingOverwritten(s)
  {
    forall k: nat | k < |s.pushed| && k !in s.popped
      ensures (exists t: nat :: PushingAt(s, t, k)) || s.slots[s.Index(k)].data == s.pushed[k]
    {
      var i := s.Index(k);
      assert SlotInv(s, i);
      if k >= s.tail {
        if s.turn[i] < k { Laps(s.turn[i], k, |s.slots|); }
        if k < s.turn[i] { Laps(k, s.turn[i], |s.slots|); }
      }
    }
  }
}
