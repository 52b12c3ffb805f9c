/** The queue object as one thread alone uses it: the constructor and whole calls of
    try_push and try_pop, loop by loop, against the sequence of elements they hold. */
module MpmcCalls {
  import opened MpmcQueue
  import MpmcProofs

  class Queue<T> {
    const data: array<T>
    const seqno: array<nat>
    var head: nat
    var tail: nat
    ghost var log: seq<T>  // log[k]: the element pushed with ticket k

    /** Tickets tail..head are published in their slots, the rest of the lap is free. */
    ghost predicate Valid()
      reads this, data, seqno
    {
      && data.Length == seqno.Length >= 2 && data as object != seqno
      && tail <= head <= tail + data.Length && |log| == head
      && (forall k: nat :: tail <= k < head ==>
            seqno[Wrap(k, data.Length)] == k + 1 && data[Wrap(k, data.Length)] == log[k])
      && (forall k: nat :: head <= k < tail + data.Length ==> seqno[Wrap(k, data.Length)] == k)
    }

    ghost function Contents(): (s: seq<T>)
      requires Valid()
      reads this, data, seqno
      ensures |s| == head - tail
    {
      log[tail..]
    }

    /** Any capacity the assertion admits; two slots or more make a valid queue. */
    constructor (n: nat, filler: T)
      requires n > 0
      ensures data.Length == seqno.Length == n && head == tail == 0 && log == []
      ensures forall i :: 0 <= i < n ==> seqno[i] == i && data[i] == filler
      ensures n >= 2 ==> Valid() && Contents() == []
      ensures fresh(data) && fresh(seqno)
    {
      data := new T[n](_ => filler);
      seqno := new nat[n](_ => 0);
      head, tail, log := 0, 0, [];
      new;
      for i := 0 to n
        modifies seqno
        invariant forall k :: 0 <= k < i ==> seqno[k] == k
      {
        seqno[i] := i;
      }
      assert forall k: nat :: k < n ==> Wrap(k, n) == k;
    }

    /** The part of try_push after a successful compare-exchange. */
    method Publish(pos: nat, i: nat, val: T)
      requires Valid() && pos == head < tail + data.Length && i == Wrap(pos, data.Length)
      modifies this`head, this`log, data, seqno
      ensures Valid() && Contents() == old(Contents()) + [val] && tail == old(tail)
    {
      Apart(tail, pos, data.Length);
      head := pos + 1;
      data[i] := val;
      seqno[i] := pos + 1;
      log := log + [val];
    }

    /** Fails exactly when full; otherwise appends. The weak compare-exchange may fail
        spuriously any number of times first. */
    method TryPush(val: T, spurious: nat) returns (ok: bool)
      requires Valid()
      modifies this, data, seqno
      ensures Valid()
      ensures ok <==> |old(Contents())| < data.Length
      ensures Contents() == if ok then old(Contents()) + [val] else old(Contents())
    {
      var failures := spurious;
      var pos := head;
      while true
        invariant Valid() && pos == head == old(head) && log == old(log) && tail == old(tail)
        invariant data[..] == old(data[..]) && seqno[..] == old(seqno[..])
        decreases failures
      {
        var i := Wrap(pos, data.Length);
        var diff := seqno[i] as int - pos as int;
        assert Wrap(tail + data.Length, data.Length) == Wrap(tail, data.Length);
        if diff == 0 {
          if failures == 0 {
            Publish(pos, i, val);
            return true;
          }
          failures := failures - 1;
          pos := head;
        } else if diff < 0 {
          return false;
        } else {
          assert false;
        }
      }
    }

    /** The part of try_pop after a successful compare-exchange. */
    method Release(pos: nat, i: nat) returns (val: T)
      requires Valid() && pos == tail < head && i == Wrap(pos, data.Length)
      modifies this`tail, seqno
      ensures Valid() && old(Contents()) == [val] + Contents() && head == old(head)
    {
      Apart(tail, pos, data.Length);
      tail := pos + 1;
      val := data[i];
      seqno[i] := pos + data.Length;
      assert Wrap(pos + data.Length, data.Length) == i;
    }

    /** Fails exactly when empty; otherwise removes and returns the oldest element. */
    method TryPop(spurious: nat, none: T) returns (ok: bool, val: T)
      requires Valid()
      modifies this, seqno
      ensures Valid()
      ensures ok <==> old(Contents()) != []
      ensures if ok then old(Contents()) == [val] + Contents() else Contents() == old(Contents()) && val == none
    {
      var failures := spurious;
      var pos := tail;
      val := none;
      while true
        invariant Valid() && pos == tail == old(tail) && head == old(head) && log == old(log) && val == none
        invariant seqno[..] == old(seqno[..])
        decreases failures
      {
        var i := Wrap(pos, data.Length);
        var diff := seqno[i] as int - (pos + 1) as int;
        if diff == 0 {
          if failures == 0 {
            val := Release(pos, i);
            return true, val;
          }
          failures := failures - 1;
          pos := tail;
        } else if diff < 0 {
          return false, val;
        } else {
          assert false;
        }
      }
    }
  }

  /** In one lap no other ticket has the slot of pos. */
  lemma {:induction false} Apart(start: nat, pos: nat, n: nat)
    requires n > 0 && start <= pos < start + n
    ensures forall k: nat :: start <= k < start + n && k != pos ==> Wrap(k, n) != Wrap(pos, n)
  {
    forall k: nat | start <= k < start + n && k != pos
      ensures Wrap(k, n) != Wrap(pos, n)
    {
      if Wrap(k, n) == Wrap(pos, n) {
        if k < pos { MpmcProofs.Laps(k, pos, n); } else { MpmcProofs.Laps(pos, k, n); }
      }
    }
  }
}
