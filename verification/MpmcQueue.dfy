/** The bounded multi-producer multi-consumer queue as a machine of interleaved atomic
    steps: every load, compare-exchange, store and copied word is one step, any number of
    threads take steps in any order, under sequential consistency. Tickets are unbounded. */
module MpmcQueue {

  /** One machine word of a trivially copyable element. */
  type Word = int

  datatype Slot = Slot(data: seq<Word>, seqno: nat)

  /** Where a thread stands inside try_push or try_pop. */
  datatype Pc =
    | Idle
    | PushStart(val: seq<Word>)                       // before head_.load
    | PushLook(val: seq<Word>, pos: nat)              // before s.seq.load
    | PushTry(val: seq<Word>, pos: nat)               // diff == 0, before the compare-exchange
    | PushCopy(val: seq<Word>, pos: nat, done: nat)   // owns ticket pos, done words copied
    | PopStart
    | PopLook(pos: nat)
    | PopTry(pos: nat)
    | PopCopy(pos: nat, got: seq<Word>)               // owns ticket pos, got is the part read

  /** pos modulo n, by subtraction; WrapIsModulo in MpmcProofs says so. With n a power of two
      this is the source's pos & (n - 1). */
  function Wrap(pos: nat, n: nat): (i: nat)
    requires n > 0
    ensures i < n
  {
    if pos < n then pos else Wrap(pos - n, n)
  }

  /** The last five fields are history variables: no step reads them.
      pushed[k] is the argument of the push that won ticket k, popped[k] what the pop that
      won ticket k returned, turn[i] the ticket whose lap slot i is in, full[i] whether that
      ticket has been published and not yet released, owner[i] the last thread to win slot i. */
  datatype State = State(
    width: nat, head: nat, tail: nat, slots: seq<Slot>, pcs: seq<Pc>,
    pushed: seq<seq<Word>>, popped: map<nat, seq<Word>>, turn: seq<nat>, full: seq<bool>, owner: seq<nat>)
  {
    function Capacity(): nat { |slots| }

    function Index(pos: nat): (i: nat)
      requires Capacity() > 0
      ensures i < Capacity()
    {
      Wrap(pos, Capacity())
    }

    /** The queue's contents as a caller sees them: pushes that won a ticket no pop has won. */
    function Contents(): seq<seq<Word>>
      requires tail <= |pushed|
    {
      pushed[tail..]
    }
  }

  datatype Event =
    | CallPush(tid: nat, val: seq<Word>)
    | CallPop(tid: nat)
    | Go(tid: nat, spurious: bool)  // the thread's next atomic step; a weak CAS may fail spuriously

  ghost predicate PcFits(pc: Pc, width: nat) {
    match pc
    case PushStart(v) => |v| == width
    case PushLook(v, _) => |v| == width
    case PushTry(v, _) => |v| == width
    case PushCopy(v, _, n) => |v| == width && n <= width
    case PopCopy(_, got) => |got| <= width
    case _ => true
  }

  ghost predicate WellFormed(s: State) {
    && |s.slots| > 0
    && |s.turn| == |s.slots| && |s.full| == |s.slots| && |s.owner| == |s.slots|
    && (forall i :: 0 <= i < |s.slots| ==> |s.slots[i].data| == s.width)
    && (forall t :: 0 <= t < |s.pcs| ==> PcFits(s.pcs[t], s.width))
  }

  /** The constructor: slot i starts with sequence number i and arbitrary data. */
  ghost predicate Init(s: State) {
    && WellFormed(s)
    && s.head == 0 && s.tail == 0
    && (forall i :: 0 <= i < |s.slots| ==> s.slots[i].seqno == i && s.turn[i] == i && !s.full[i])
    && (forall t :: 0 <= t < |s.pcs| ==> s.pcs[t] == Idle)
    && s.pushed == [] && s.popped == map[]
  }

  ghost function At(s: State, t: nat, pc: Pc): (r: State)
    requires WellFormed(s) && t < |s.pcs| && PcFits(pc, s.width)
    ensures WellFormed(r)
  {
    s.(pcs := s.pcs[t := pc])
  }

  ghost function PushStep(s: State, t: nat, spurious: bool): (r: State)
    requires WellFormed(s) && t < |s.pcs|
    requires s.pcs[t].PushStart? || s.pcs[t].PushLook? || s.pcs[t].PushTry? || s.pcs[t].PushCopy?
    ensures WellFormed(r)
  {
    match s.pcs[t]
    case PushStart(v) => At(s, t, PushLook(v, s.head))
    case PushLook(v, pos) =>
      var seqno := s.slots[s.Index(pos)].seqno;
      if seqno == pos then At(s, t, PushTry(v, pos))
      else if seqno < pos then At(s, t, Idle)        // return false
      else At(s, t, PushStart(v))                    // reload head_
    case PushTry(v, pos) =>
      if s.head == pos && !spurious then
        At(s, t, PushCopy(v, pos, 0)).(
          head := s.head + 1, pushed := s.pushed + [v], owner := s.owner[s.Index(pos) := t])
      else At(s, t, PushLook(v, s.head))             // a failed CAS leaves head_ in pos
    case PushCopy(v, pos, n) =>
      var i := s.Index(pos);
      if n < s.width then
        At(s, t, PushCopy(v, pos, n + 1))
          .(slots := s.slots[i := s.slots[i].(data := s.slots[i].data[n := v[n]])])
      else
        At(s, t, Idle)                               // return true
          .(slots := s.slots[i := s.slots[i].(seqno := pos + 1)], full := s.full[i := true])
  }

  ghost function PopStep(s: State, t: nat, spurious: bool): (r: State)
    requires WellFormed(s) && t < |s.pcs|
    requires s.pcs[t].PopStart? || s.pcs[t].PopLook? || s.pcs[t].PopTry? || s.pcs[t].PopCopy?
    ensures WellFormed(r)
  {
    match s.pcs[t]
    case PopStart => At(s, t, PopLook(s.tail))
    case PopLook(pos) =>
      var seqno := s.slots[s.Index(pos)].seqno;
      if seqno == pos + 1 then At(s, t, PopTry(pos))
      else if seqno < pos + 1 then At(s, t, Idle)    // return false
      else At(s, t, PopStart)                        // reload tail_
    case PopTry(pos) =>
      if s.tail == pos && !spurious then 
        At(s, t, PopCopy(pos, [])).(tail := s.tail + 1, owner := s.owner[s.Index(pos) := t])
      else At(s, t, PopLook(s.tail))
    case PopCopy(pos, got) =>
      var i := s.Index(pos);
      if |got| < s.width then
        At(s, t, PopCopy(pos, got + [s.slots[i].data[|got|]]))
      else
        At(s, t, Idle)                               // return true with got
          .(slots := s.slots[i := s.slots[i].(seqno := pos + s.Capacity())],
            popped := s.popped[pos := got],
            turn := s.turn[i := pos + s.Capacity()], full := s.full[i := false])
  }

  /** One event. An event that does not apply (a call by a busy thread, a step of an idle
      one, an element of the wrong width) changes nothing. */
  ghost function Step(s: State, e: Event): (r: State)
    requires WellFormed(s)
    ensures WellFormed(r)
  {
    if e.tid >= |s.pcs| then s
    else match e
      case CallPush(t, v) =>
        if s.pcs[t].Idle? && |v| == s.width then At(s, t, PushStart(v)) else s
      case CallPop(t) =>
        if s.pcs[t].Idle? then At(s, t, PopStart) else s
      case Go(t, spurious) =>
        var pc := s.pcs[t];
        if pc.Idle? then s
        else if pc.PushStart? || pc.PushLook? || pc.PushTry? || pc.PushCopy? then PushStep(s, t, spurious)
        else PopStep(s, t, spurious)
  }

  /** Every interleaving is a sequence of events. */
  ghost function Run(s: State, es: seq<Event>): (r: State)
    requires WellFormed(s)
    ensures WellFormed(r)
  {
    if es == [] then s else Step(Run(s, es[..|es| - 1]), es[|es| - 1])
  }
}
