/** The order gateway: its table of pending orders and its statistics, changed by requests from
    the order queue, by fills, acknowledgements and rejects from the exchange, and by shutdown.
    Each method is one critical section, so that exchange events may come between the steps
    of a request. */
module OrderGateway {
  import opened Options
  import Maps

  datatype Status = PENDING | ACCEPTED | REJECTED | PARTIALLY_FILLED | FILLED | CANCELLED | EXPIRED

  predicate Live(s: Status) { s.PENDING? || s.ACCEPTED? || s.PARTIALLY_FILLED? }

  datatype Request = Request(orderId: nat, exchangeId: nat, symbol: nat, strategy: nat, price: int, quantity: int)

  /** serial is a history field: the n-th order tracked has serial n. */
  datatype Pending = Pending(
    orderId: nat, symbol: nat, strategy: nat, status: Status,
    price: int, quantity: int, filled: int, serial: nat)

  datatype Fill = Fill(orderId: nat, symbol: nat, strategy: nat, price: int, quantity: int)

  datatype Stats = Stats(
    received: nat, sent: nat, rejected: nat, cancelled: nat, modified: nat,
    fills: nat, fillErrors: nat, mismatched: nat)

  /** How far the I/O thread is with its current request. */
  datatype Io =
    | Free
    | Received(o: Request)
    | Cancelling(o: Request)   // the cancel message is out
    | Cancelled                // removed from the table, not yet counted
    | NewOrder(o: Request)     // found not to be a modification
    | Tracked(o: Request)
    | Closing(left: set<nat>)           // shutting down; these ids still to cancel
    | Erasing(id: nat, left: set<nat>)  // the cancel message for id is out
    | Counting(left: set<nat>)          // erased, not yet counted

  /** A request has been received and not yet counted. */
  predicate Requesting(io: Io) {
    io.Received? || io.Cancelling? || io.Cancelled? || io.NewOrder? || io.Tracked?
  }

  // ----- what a fill does -----

  /** The entry a fill belongs to: by our id, else by the exchange's id. */
  function Match(t: map<nat, Pending>, exchangeToLocal: map<nat, nat>, orderId: nat): (r: Option<nat>)
    ensures r.Some? ==> r.value in t
  {
    if orderId in t then Some(orderId)
    else if orderId in exchangeToLocal && exchangeToLocal[orderId] in t then Some(exchangeToLocal[orderId])
    else None
  }

  predicate Completes(p: Pending, f: Fill) { p.filled + f.quantity >= p.quantity }

  function AfterFill(t: map<nat, Pending>, m: Option<nat>, f: Fill): map<nat, Pending>
    requires m.Some? ==> m.value in t
  {
    if m.None? then t
    else
      var p := t[m.value];
      if Completes(p, f) then t - {m.value}
      else t[m.value := p.(filled := p.filled + f.quantity, status := PARTIALLY_FILLED)]
  }

  /** What the callback is given: the fill with the tracked order's symbol and strategy. */
  function Delivered(t: map<nat, Pending>, m: Option<nat>, f: Fill): seq<Fill>
    requires m.Some? ==> m.value in t
  {
    if m.None? then [] else [f.(symbol := t[m.value].symbol, strategy := t[m.value].strategy)]
  }

  function FillStats(s: Stats, m: Option<nat>): Stats {
    if m.None? then s.(fillErrors := s.fillErrors + 1) else s.(fills := s.fills + 1)
  }

  class OrderGateway {
    const exchangeId: nat
    const simulate: bool
    const hasCallback: bool
    const hasClient: bool
    var pending: map<nat, Pending>
    var exchangeToLocal: map<nat, nat>
    var stats: Stats
    var io: Io
    var callbacks: seq<Fill>
    // history
    var owner: seq<nat>                    // owner[n]: the id of the n-th order tracked
    ghost var departed: map<nat, Status>   // serials that left the table, and how
    ghost var acked: map<nat, nat>         // the serial last acknowledged under an exchange id
    ghost var injectedRejects: nat
    ghost var shutdownCancels: nat

    /** Every entry is filed under its own id with a live status. */
    ghost predicate TableOk()
      reads this`pending
    {
      forall id :: id in pending ==> pending[id].orderId == id && Live(pending[id].status)
    }

    /** Every tracked order is in the table or has left it, never both. */
    ghost predicate HistoryOk()
      reads this`pending, this`owner, this`departed
    {
      && (forall id :: id in pending ==>
            pending[id].serial < |owner| && owner[pending[id].serial] == id && pending[id].serial !in departed)
      && (forall n :: 0 <= n < |owner| && n !in departed ==> owner[n] in pending && pending[owner[n]].serial == n)
      && (forall n :: n in departed ==> n < |owner| && !Live(departed[n]))
    }

    /** Every request and every outside event is counted once. */
    ghost predicate LedgerOk()
      reads this`stats, this`io, this`injectedRejects, this`shutdownCancels
    {
      stats.received + injectedRejects + shutdownCancels
      == stats.mismatched + stats.sent + stats.modified + stats.rejected + stats.cancelled
         + (if Requesting(io) then 1 else 0)
    }

    /** The exchange's ids lead to the local ids of the orders acknowledged under them. */
    ghost predicate AcksOk()
      reads this`exchangeToLocal, this`acked, this`owner
    {
      && exchangeToLocal.Keys == acked.Keys
      && forall e :: e in acked ==> acked[e] < |owner| && exchangeToLocal[e] == owner[acked[e]]
    }

    /** Only the I/O thread adds entries, so while it waits to add one there is none, and once
        it has been joined the table only shrinks. */
    ghost predicate IoOk()
      reads this`io, this`pending
    {
      match io
      case NewOrder(o) => o.orderId !in pending
      case Closing(left) => pending.Keys <= left
      case Erasing(id, left) => pending.Keys <= left + {id}
      case Counting(left) => pending.Keys <= left
      case _ => true
    }

    ghost predicate Valid()
      reads this
    {
      TableOk() && HistoryOk() && LedgerOk() && AcksOk() && IoOk()
    }

    constructor (exchangeId: nat, simulate: bool, hasCallback: bool, hasClient: bool)
      ensures Valid() && io.Free? && pending == map[] && owner == [] && departed == map[] && acked == map[]
      ensures this.exchangeId == exchangeId && this.simulate == simulate
      ensures this.hasCallback == hasCallback && this.hasClient == hasClient
    {
      this.exchangeId, this.simulate, this.hasCallback, this.hasClient := exchangeId, simulate, hasCallback, hasClient;
      pending, exchangeToLocal, callbacks, io := map[], map[], [], Free;
      stats := Stats(0, 0, 0, 0, 0, 0, 0, 0);
      owner, departed, acked, injectedRejects, shutdownCancels := [], map[], map[], 0, 0;
    }

    /** Erase an entry that has reached a final status. */
    method Depart(id: nat, how: Status)
      requires TableOk() && HistoryOk() && id in pending && !Live(how)
      modifies this`pending, this`departed
      ensures TableOk() && HistoryOk() && pending == old(pending) - {id}
      ensures departed == old(departed)[old(pending)[id].serial := how] && old(pending)[id].serial !in old(departed)
    {
      departed := departed[pending[id].serial := how];
      pending := pending - {id};
    }

    // ----- requests: the steps of processOrder -----

    method Receive(o: Request)
      requires Valid() && io.Free?
      modifies this`stats, this`io
      ensures Valid() && io == Received(o) && stats == old(stats).(received := old(stats).received + 1)
    {
      stats := stats.(received := stats.received + 1);
      io := Received(o);
    }

    /** Filter, then cancel, modify or new order. A request for a pending id changes only that
        entry's price and quantity; it never becomes a new order. encoded says whether the wire
        encoding succeeded. */
    method Dispatch(encoded: bool)
      requires Valid() && io.Received?
      modifies this`stats, this`io, this`pending
      ensures Valid()
      ensures var o, s, p := old(io).o, old(stats), old(pending);
        if o.exchangeId != exchangeId then
          io.Free? && pending == p && stats == s.(mismatched := s.mismatched + 1)
        else if o.quantity == 0 then
          && pending == p
          && (if encoded || (!simulate && hasClient) then io == Cancelling(o) && stats == s
              else io.Free? && stats == s.(rejected := s.rejected + 1))
        else if o.orderId in p then
          && io.Free?
          && (if encoded then
                pending == p[o.orderId := p[o.orderId].(price := o.price, quantity := o.quantity)]
                && stats == s.(modified := s.modified + 1)
              else pending == p && stats == s.(rejected := s.rejected + 1))
        else io == NewOrder(o) && pending == p && stats == s
    {
      var o := io.o;
      if o.exchangeId != exchangeId {
        stats := stats.(mismatched := stats.mismatched + 1);
        io := Free;
      } else if o.quantity == 0 {
        if !encoded && !(!simulate && hasClient) {
          stats := stats.(rejected := stats.rejected + 1);
          io := Free;
        } else {
          io := Cancelling(o);
        }
      } else if o.orderId in pending && Live(pending[o.orderId].status) {
        if !encoded {
          stats := stats.(rejected := stats.rejected + 1);
        } else {
          pending := pending[o.orderId := pending[o.orderId].(price := o.price, quantity := o.quantity)];
          stats := stats.(modified := stats.modified + 1);
        }
        io := Free;
      } else {
        io := NewOrder(o);
      }
    }

    method ApplyCancel()
      requires Valid() && io.Cancelling?
      modifies this`pending, this`departed, this`io
      ensures Valid() && io.Cancelled? && pending == old(pending) - {old(io).o.orderId}
      ensures OnlyGrows(old(departed), departed)
    {
      if io.o.orderId in pending {
        Depart(io.o.orderId, CANCELLED);
      }
      io := Cancelled;
    }

    method CountCancel()
      requires Valid() && io.Cancelled?
      modifies this`stats, this`io
      ensures Valid() && io.Free? && stats == old(stats).(cancelled := old(stats).cancelled + 1)
    {
      stats := stats.(cancelled := stats.cancelled + 1);
      io := Free;
    }

    /** trackPending of a new order. The id cannot have become pending since Dispatch looked,
        because only this thread adds entries; so nothing is overwritten. */
    method Track(encoded: bool)
      requires Valid() && io.NewOrder?
      modifies this`pending, this`owner, this`stats, this`io
      ensures Valid()
      ensures !encoded ==> io.Free? && pending == old(pending) && owner == old(owner)
      ensures !encoded ==> stats == old(stats).(rejected := old(stats).rejected + 1)
      ensures encoded ==> io == Tracked(old(io).o) && stats == old(stats) && owner == old(owner) + [old(io).o.orderId]
      ensures encoded ==> var o := old(io).o;
        o.orderId !in old(pending) && pending == old(pending)[o.orderId :=
          Pending(o.orderId, o.symbol, o.strategy, PENDING, o.price, o.quantity, 0, |old(owner)|)]
    {
      var o := io.o;
      if !encoded {
        stats := stats.(rejected := stats.rejected + 1);
        io := Free;
        return;
      }
      pending := pending[o.orderId :=
        Pending(o.orderId, o.symbol, o.strategy, PENDING, o.price, o.quantity, 0, |owner|)];
      owner := owner + [o.orderId];
      io := Tracked(o);
    }

    /** A tracked order is counted as sent, or as rejected when there is an exchange and its
        answer is a failure; either way it stays in the table. */
    method CountSent(sent: bool)
      requires Valid() && io.Tracked? && !simulate
      modifies this`stats, this`io
      ensures Valid() && io.Free?
      ensures stats == if sent || !hasClient then old(stats).(sent := old(stats).sent + 1)
                       else old(stats).(rejected := old(stats).rejected + 1)
    {
      stats := if sent || !hasClient then stats.(sent := stats.sent + 1) else stats.(rejected := stats.rejected + 1);
      io := Free;
    }

    /** In simulation a tracked order is filled at once, in full, and counted as sent. */
    method AutoFill()
      requires Valid() && io.Tracked? && simulate
      modifies this`pending, this`departed, this`stats, this`callbacks, this`io
      ensures Valid() && io.Free? && OnlyGrows(old(departed), departed)
      ensures var o, t, s := old(io).o, old(pending), old(stats);
        var f := Fill(o.orderId, o.symbol, o.strategy, o.price, o.quantity);
        var m := Match(t, exchangeToLocal, o.orderId);
        if hasCallback then
          && pending == AfterFill(t, m, f) && callbacks == old(callbacks) + Delivered(t, m, f)
          && stats == FillStats(s, m).(sent := s.sent + 1)
        else pending == t && callbacks == old(callbacks) && stats == s.(sent := s.sent + 1)
    {
      var o := io.o;
      if hasCallback {
        InjectFill(Fill(o.orderId, o.symbol, o.strategy, o.price, o.quantity));
      }
      stats := stats.(sent := stats.sent + 1);
      io := Free;
    }

    // ----- events from the exchange -----

    /** The part of injectFill under the table's lock, for a matched entry. */
    method BookFill(id: nat, f: Fill)
      requires Valid() && id in pending
      modifies this`pending, this`departed
      ensures Valid() && pending == AfterFill(old(pending), Some(id), f)
      ensures var p := old(pending)[id];
        departed == if Completes(p, f) then old(departed)[p.serial := FILLED] else old(departed)
      ensures OnlyGrows(old(departed), departed)
    {
      var p := pending[id];
      if p.filled + f.quantity >= p.quantity {
        Depart(id, FILLED);
      } else {
        pending := pending[id := p.(filled := p.filled + f.quantity, status := PARTIALLY_FILLED)];
      }
    }

    /** injectFill: an unmatched fill is an error; a matched one reaches the callback with the
        tracked order's symbol and strategy, and completes the order when enough is filled. */
    method InjectFill(f: Fill)
      requires Valid()
      modifies this`pending, this`departed, this`stats, this`callbacks
      ensures Valid() && OnlyGrows(old(departed), departed)
      ensures var t := old(pending); var m := Match(t, exchangeToLocal, f.orderId);
        && pending == AfterFill(t, m, f) && stats == FillStats(old(stats), m)
        && callbacks == old(callbacks) + (if hasCallback then Delivered(t, m, f) else [])
        && departed == if m.Some? && Completes(t[m.value], f) then old(departed)[t[m.value].serial := FILLED]
                       else old(departed)
    {
      var m := Match(pending, exchangeToLocal, f.orderId);
      if m.None? {
        stats := stats.(fillErrors := stats.fillErrors + 1);
        return;
      }
      var p := pending[m.value];
      BookFill(m.value, f);
      Report(f.(symbol := p.symbol, strategy := p.strategy));
    }

    /** The part after it: the callback, then the count. */
    method Report(f: Fill)
      requires Valid()
      modifies this`stats, this`callbacks
      ensures Valid() && callbacks == old(callbacks) + (if hasCallback then [f] else [])
      ensures stats == old(stats).(fills := old(stats).fills + 1)
    {
      if hasCallback {
        callbacks := callbacks + [f];
      }
      stats := stats.(fills := stats.fills + 1);
    }

    method InjectOrderAck(orderId: nat, exchangeOrderId: nat)
      requires Valid()
      modifies this`pending, this`exchangeToLocal, this`acked
      ensures Valid()
      ensures orderId in old(pending) ==>
        pending == old(pending)[orderId := old(pending)[orderId].(status := ACCEPTED)]
      ensures orderId !in old(pending) ==> pending == old(pending)
      ensures if orderId in old(pending) && exchangeOrderId != 0 then
          && exchangeToLocal == old(exchangeToLocal)[exchangeOrderId := orderId]
          && acked == old(acked)[exchangeOrderId := old(pending)[orderId].serial]
        else exchangeToLocal == old(exchangeToLocal) && acked == old(acked)
    {
      if orderId in pending {
        if exchangeOrderId != 0 {
          exchangeToLocal := exchangeToLocal[exchangeOrderId := orderId];
          acked := acked[exchangeOrderId := pending[orderId].serial];
        }
        pending := pending[orderId := pending[orderId].(status := ACCEPTED)];
      }
    }

    /** injectOrderReject counts as a rejection whether or not the order was pending. */
    method InjectOrderReject(orderId: nat)
      requires Valid()
      modifies this`pending, this`departed, this`stats, this`injectedRejects
      ensures Valid() && pending == old(pending) - {orderId}
      ensures OnlyGrows(old(departed), departed)
      ensures stats == old(stats).(rejected := old(stats).rejected + 1) && injectedRejects == old(injectedRejects) + 1
    {
      if orderId in pending {
        Depart(orderId, REJECTED);
      }
      stats := stats.(rejected := stats.rejected + 1);
      injectedRejects := injectedRejects + 1;
    }

    // ----- shutdown: the steps of cancelAllPending, with the I/O thread joined -----

    method BeginShutdown()
      requires Valid() && io.Free?
      modifies this`io
      ensures Valid() && io == Closing(pending.Keys)
    {
      io := Closing(pending.Keys);
    }

    /** Takes the next id. With an exchange, an order that has left meanwhile is passed over. */
    method CloseNext(id: nat)
      requires Valid() && io.Closing? && id in io.left
      modifies this`io
      ensures Valid()
      ensures var left := old(io).left - {id};
        io == if !simulate && hasClient && id !in pending then Closing(left) else Erasing(id, left)
    {
      var left := io.left - {id};
      if !simulate && hasClient && id !in pending {
        io := Closing(left);
      } else {
        io := Erasing(id, left);
      }
    }

    method EraseClosing()
      requires Valid() && io.Erasing?
      modifies this`pending, this`departed, this`io
      ensures Valid() && OnlyGrows(old(departed), departed)
      ensures pending == old(pending) - {old(io).id} && io == Counting(old(io).left)
    {
      if io.id in pending {
        Depart(io.id, CANCELLED);
      }
      io := Counting(io.left);
    }

    method CountClosing()
      requires Valid() && io.Counting?
      modifies this`stats, this`io, this`shutdownCancels
      ensures Valid() && io == Closing(old(io).left) && shutdownCancels == old(shutdownCancels) + 1
      ensures stats == old(stats).(cancelled := old(stats).cancelled + 1)
    {
      stats := stats.(cancelled := stats.cancelled + 1);
      shutdownCancels := shutdownCancels + 1;
      io := Closing(io.left);
    }

    /** Whatever the exchange sent meanwhile, a finished shutdown leaves nothing pending. */
    method FinishShutdown()
      requires Valid() && io.Closing? && io.left == {}
      modifies this`io
      ensures Valid() && io.Free? && pending == map[]
    {
      assert pending.Keys == {};
      assert pending == map[];
      io := Free;
    }

    /** cancelAllPending with nothing from the exchange meanwhile: every pending order leaves,
        each counted once. */
    method CancelAllPending()
      requires Valid() && io.Free?
      modifies this`pending, this`departed, this`stats, this`shutdownCancels, this`io
      ensures Valid() && io.Free? && pending == map[] && OnlyGrows(old(departed), departed)
      ensures stats == old(stats).(cancelled := old(stats).cancelled + |old(pending)|)
    {
      assert |pending.Keys| == |pending|;
      BeginShutdown();
      while io.left != {}
        invariant Valid() && io.Closing? && io.left == pending.Keys && OnlyGrows(old(departed), departed)
        invariant |pending| <= |old(pending)|
        invariant stats == old(stats).(cancelled := old(stats).cancelled + |old(pending)| - |pending|)
        decreases |io.left|
      {
        var id :| id in io.left;
        CloseOne(id);
      }
      FinishShutdown();
    }

    /** One round of cancelAllPending, undisturbed. */
    method CloseOne(id: nat)
      requires Valid() && io.Closing? && io.left == pending.Keys && id in pending
      modifies this`pending, this`departed, this`stats, this`shutdownCancels, this`io
      ensures Valid() && io == Closing(pending.Keys) && OnlyGrows(old(departed), departed)
      ensures pending == old(pending) - {id} && |pending| == |old(pending)| - 1 && |pending.Keys| < |old(io).left|
      ensures stats == old(stats).(cancelled := old(stats).cancelled + 1)
    {
      CloseNext(id);
      EraseClosing();
      CountClosing();
      assert pending.Keys == old(pending).Keys - {id};
      assert |pending| == |pending.Keys| && |old(pending)| == |old(pending).Keys|;
    }
  }

  /** What has left stays recorded as it left. */
  ghost predicate OnlyGrows(a: map<nat, Status>, b: map<nat, Status>) {
    forall n :: n in a ==> n in b && b[n] == a[n]
  }

  // ----- whole runs -----

  /** What can happen next: the I/O thread takes a request or goes on with the one it has
      (encoded and sent are what the wire and the exchange answer), the exchange sends
      something, or the gateway shuts down. */
  datatype Happening =
    | Take(o: Request)
    | GoOn(encoded: bool, sent: bool)
    | FillArrives(f: Fill)
    | AckArrives(orderId: nat, exchangeOrderId: nat)
    | RejectArrives(orderId: nat)
    | Shutdown

  /** Steps left at most: a request is done with after four, a shutdown after three for each order. */
  ghost function ToGo(io: Io): nat {
    match io
    case Free => 0
    case Received(_) => 4
    case Cancelling(_) => 3
    case NewOrder(_) => 3
    case Cancelled => 2
    case Tracked(_) => 2
    case Closing(left) => 3 * |left| + 1
    case Erasing(_, left) => 3 * |left| + 3
    case Counting(left) => 3 * |left| + 2
  }

  /** One step of the I/O thread, or of the shutdown that has joined it. */
  method IoStep(g: OrderGateway, encoded: bool, sent: bool)
    requires g.Valid()
    modifies g
    ensures g.Valid() && OnlyGrows(old(g.departed), g.departed) && old(g.owner) <= g.owner
    ensures !old(g.io).Free? ==> ToGo(g.io) < ToGo(old(g.io))
  {
    match g.io
    case Free =>
    case Received(o) => g.Dispatch(encoded);
    case Cancelling(o) => g.ApplyCancel();
    case Cancelled => g.CountCancel();
    case NewOrder(o) => g.Track(encoded);
    case Tracked(o) => if g.simulate { g.AutoFill(); } else { g.CountSent(sent); }
    case Closing(left) =>
      if left == {} {
        g.FinishShutdown();
      } else {
        var id :| id in left;
        g.CloseNext(id);
      }
    case Erasing(id, left) => g.EraseClosing();
    case Counting(left) => g.CountClosing();
  }

  /** Over every run, in whatever order things happen: the table and the ledger stay right, no
      serial is ever reused, and an order that has left the table has left it for good. */
  method RunGateway(g: OrderGateway, hs: seq<Happening>)
    requires g.Valid()
    modifies g
    ensures g.Valid() && OnlyGrows(old(g.departed), g.departed) && old(g.owner) <= g.owner
    ensures !Requesting(g.io) ==>
      g.stats.received + g.injectedRejects + g.shutdownCancels
      == g.stats.mismatched + g.stats.sent + g.stats.modified + g.stats.rejected + g.stats.cancelled
  {
    for i := 0 to |hs|
      invariant g.Valid() && OnlyGrows(old(g.departed), g.departed) && old(g.owner) <= g.owner
    {
      match hs[i]
      case Take(o) => if g.io.Free? { g.Receive(o); }
      case GoOn(encoded, sent) => IoStep(g, encoded, sent);
      case FillArrives(f) => g.InjectFill(f);
      case AckArrives(id, ex) => g.InjectOrderAck(id, ex);
      case RejectArrives(id) => g.InjectOrderReject(id);
      case Shutdown => if g.io.Free? { g.BeginShutdown(); }
    }
  }

  // ----- counting -----

  /** The first n serials. */
  function Range(n: nat): (r: set<nat>)
    ensures |r| == n && forall i: nat :: i in r <==> i < n
  {
    if n == 0 then {} else Range(n - 1) + {n - 1}
  }

  ghost function Serials(t: map<nat, Pending>): set<nat> { set id | id in t :: t[id].serial }

  lemma {:induction false} SerialsSize(t: map<nat, Pending>)
    requires forall i, j :: i in t && j in t && t[i].serial == t[j].serial ==> i == j
    ensures |Serials(t)| == |t|
    decreases |t|
  {
    if |t| == 0 {
      assert forall id :: id in t ==> id in t.Keys;
    } else {
      var id := Maps.AnyKey(t);
      var u := t - {id};
      assert u.Keys == t.Keys - {id};
      SerialsSize(u);
      forall n | n in Serials(t)
        ensures n in Serials(u) + {t[id].serial}
      {
        var i :| i in t && t[i].serial == n;
        if i != id { assert i in u && u[i].serial == n; }
      }
      assert t[id].serial !in Serials(u);
      assert Serials(t) == Serials(u) + {t[id].serial};
    }
  }

  /** Over every run: each order ever tracked is pending or has left, exactly once. */
  lemma NoneLostNoneTwice(g: OrderGateway)
    requires g.Valid()
    ensures |g.owner| == |g.pending| + |g.departed|
    ensures Serials(g.pending) !! g.departed.Keys
  {
    SerialsSize(g.pending);
    var all := Serials(g.pending) + g.departed.Keys;
    forall n: nat | n < |g.owner|
      ensures n in all
    {
      if n !in g.departed { assert g.owner[n] in g.pending && g.pending[g.owner[n]].serial == n; }
    }
    forall n | n in all
      ensures n in Range(|g.owner|)
    {
      if n in Serials(g.pending) { var id :| id in g.pending && g.pending[id].serial == n; }
    }
    assert Range(|g.owner|) == all;
    assert |g.departed.Keys| == |g.departed|;
  }

  // ----- which order a fill reaches -----

  /** A fill with this order id would be booked on the order with this serial. */
  ghost predicate Reaches(g: OrderGateway, orderId: nat, serial: nat)
    reads g
  {
    var m := Match(g.pending, g.exchangeToLocal, orderId);
    m.Some? && g.pending[m.value].serial == serial
  }

  /** In every reachable state: a fill under an exchange id reaches the order acknowledged under it
      exactly when that order has not left the table and no other pending order has that number
      as its own id. The map of exchange ids is never cleaned, and our ids are tried first. */
  lemma FillReachesAcked(g: OrderGateway, e: nat)
    requires g.Valid() && e in g.acked
    ensures Reaches(g, e, g.acked[e]) <==>
      g.acked[e] !in g.departed && (e !in g.pending || g.owner[g.acked[e]] == e)
  {
  }

  /** A fill under the id of a pending order reaches that order; one under neither such an id nor an
      exchange id of a pending order reaches none. */
  lemma FillReachesOwn(g: OrderGateway, orderId: nat)
    requires g.Valid()
    ensures orderId in g.pending ==> Reaches(g, orderId, g.pending[orderId].serial)
    ensures (exists n: nat :: Reaches(g, orderId, n)) <==>
      orderId in g.pending || (orderId in g.acked && g.owner[g.acked[orderId]] in g.pending)
  {
    var m := Match(g.pending, g.exchangeToLocal, orderId);
    if m.Some? { assert Reaches(g, orderId, g.pending[m.value].serial); }
  }

  // ----- several fills of one order -----

  ghost function Filled(fs: seq<Fill>): int {
    if fs == [] then 0 else Filled(fs[..|fs| - 1]) + fs[|fs| - 1].quantity
  }

  ghost predicate Partial(fs: seq<Fill>, id: nat) {
    forall i :: 0 <= i < |fs| ==> fs[i].orderId == id && fs[i].quantity >= 0
  }

  /** The table after fills that came one by one. */
  ghost function AfterFills(t: map<nat, Pending>, x: map<nat, nat>, fs: seq<Fill>): map<nat, Pending> {
    if fs == [] then t
    else
      var u, f := AfterFills(t, x, fs[..|fs| - 1]), fs[|fs| - 1];
      AfterFill(u, Match(u, x, f.orderId), f)
  }

  /** An order that is not yet filled stays pending, with the sum of its fills on record, exactly as
      long as that sum is short of its quantity. */
  lemma {:induction false} FillsComplete(t: map<nat, Pending>, x: map<nat, nat>, id: nat, fs: seq<Fill>)
    requires id in t && t[id].filled < t[id].quantity && Partial(fs, id)
    ensures var u := AfterFills(t, x, fs);
      && (id in u <==> t[id].filled + Filled(fs) < t[id].quantity)
      && (id in u ==> u[id].filled == t[id].filled + Filled(fs) && u[id].quantity == t[id].quantity)
      && (id in u && fs != [] ==> u[id].status == PARTIALLY_FILLED)
      && Filled(fs) >= 0
  {
    if fs != [] { FillsComplete(t, x, id, fs[..|fs| - 1]); }
  }

  /** The same through the gateway: the order has left as filled exactly when its fills add up. */
  method FillOrder(g: OrderGateway, id: nat, fs: seq<Fill>)
    requires g.Valid() && id in g.pending && g.pending[id].filled < g.pending[id].quantity && Partial(fs, id)
    modifies g`pending, g`departed, g`stats, g`callbacks
    ensures g.Valid() && g.pending == AfterFills(old(g.pending), g.exchangeToLocal, fs)
    ensures var p := old(g.pending)[id];
      && (id in g.pending <==> p.filled + Filled(fs) < p.quantity)
      && (id !in g.pending ==> p.serial in g.departed)
  {
    for i := 0 to |fs|
      invariant g.Valid() && OnlyGrows(old(g.departed), g.departed)
      invariant g.pending == AfterFills(old(g.pending), g.exchangeToLocal, fs[..i])
    {
      assert fs[..i + 1][..i] == fs[..i];
      g.InjectFill(fs[i]);
    }
    assert fs[..|fs|] == fs;
    FillsComplete(old(g.pending), g.exchangeToLocal, id, fs);
  }

  /** A whole request for a new order that the exchange takes. */
  method PlaceOrder(g: OrderGateway, o: Request)
    requires g.Valid() && g.io.Free? && !g.simulate && o.exchangeId == g.exchangeId && o.quantity != 0
    requires o.orderId !in g.pending
    modifies g
    ensures g.Valid() && g.io.Free? && g.owner == old(g.owner) + [o.orderId]
    ensures g.pending == old(g.pending)[o.orderId :=
      Pending(o.orderId, o.symbol, o.strategy, PENDING, o.price, o.quantity, 0, |old(g.owner)|)]
    ensures g.departed == old(g.departed) && g.acked == old(g.acked) && g.exchangeToLocal == old(g.exchangeToLocal)
  {
    g.Receive(o);
    g.Dispatch(true);
    g.Track(true);
    g.CountSent(true);
  }

  /** Order 1 is acknowledged under exchange id 2, then order 2 is placed: a fill under exchange
      id 2 completes order 2, and order 1 is left as it was. */
  method MisattributedFill() returns (g: OrderGateway)
    ensures fresh(g) && g.Valid() && g.owner == [1, 2] && g.acked == map[2 := 0]
    ensures g.departed == map[1 := FILLED] && g.pending.Keys == {1} && g.pending[1].filled == 0
  {
    g := TwoOrders();
    var f := Fill(2, 0, 0, 100, 5);
    assert Match(g.pending, g.exchangeToLocal, 2) == Some(2) && Completes(g.pending[2], f);
    g.InjectFill(f);
  }

  method TwoOrders() returns (g: OrderGateway)
    ensures fresh(g) && g.Valid() && g.owner == [1, 2] && g.acked == map[2 := 0] && g.departed == map[]
    ensures g.pending == map[1 := Pending(1, 0, 0, ACCEPTED, 100, 5, 0, 0),
                             2 := Pending(2, 0, 0, PENDING, 100, 5, 0, 1)]
  {
    g := FirstAcked();
    PlaceOrder(g, Request(2, 0, 0, 0, 100, 5));
  }

  method FirstAcked() returns (g: OrderGateway)
    ensures fresh(g) && g.Valid() && g.io.Free? && !g.simulate && g.exchangeId == 0
    ensures g.owner == [1] && g.acked == map[2 := 0] && g.departed == map[]
    ensures g.pending == map[1 := Pending(1, 0, 0, ACCEPTED, 100, 5, 0, 0)]
  {
    g := new OrderGateway(0, false, false, false);
    PlaceOrder(g, Request(1, 0, 0, 0, 100, 5));
    assert g.pending == map[1 := Pending(1, 0, 0, PENDING, 100, 5, 0, 0)];
    g.InjectOrderAck(1, 2);
    assert g.pending[1] == Pending(1, 0, 0, ACCEPTED, 100, 5, 0, 0);
  }
}
