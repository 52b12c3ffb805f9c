/** The records of the three logs as their structures lie in memory, and that the time a reader
    finds in a record is the time its writer put there. */
module LogRecords {
  import opened Bytes
  import opened Options
  import opened Logs

  /** Integer fields hold bit patterns; reserved bytes are whatever they are. */
  datatype Record =
    | Tick(exchangeTime: nat, receiveTime: nat, exchangeId: nat, symbolId: nat, price: nat, quantity: nat,
           side: nat, flags: nat, reserved: seq<Byte>)
    | Order(orderId: nat, time: nat, price: nat, quantity: nat, stopPrice: nat, clientOrderId: nat,
            symbolId: nat, exchangeId: nat, strategyId: nat, side: nat, kind: nat, tif: nat, flags: nat,
            reserved: seq<Byte>)
    | Fill(executionId: nat, fillId: nat, orderId: nat, exchangeTime: nat, receiveTime: nat, fillPrice: nat,
           fillQuantity: nat, symbolId: nat, exchangeId: nat, strategyId: nat, side: nat, isMaker: nat,
           reserved: seq<Byte>)

  function LogType(r: Record): nat { if r.Tick? then 0 else if r.Order? then 1 else 2 }

  /** The time by which a record is replayed. */
  function Time(r: Record): nat { if r.Order? then r.time else r.exchangeTime }

  ghost predicate Shaped(r: Record) {
    Time(r) < Pow256(8) && |r.reserved| == if r.Tick? then 22 else if r.Order? then 64 else 58
  }

  /** What follows the time in each structure. */
  function Tail(r: Record): (b: seq<Byte>)
    ensures |b| == |r.reserved| + if r.Tick? then 34 else if r.Order? then 48 else 38
  {
    match r
    case Tick(_, receive, ex, sym, price, qty, side, flags, reserved) =>
      LittleEndian(receive, 8) + LittleEndian(ex, 4) + LittleEndian(sym, 4) + LittleEndian(price, 8)
      + LittleEndian(qty, 8) + LittleEndian(side, 1) + LittleEndian(flags, 1) + reserved
    case Order(_, _, price, qty, stop, client, sym, ex, strategy, side, kind, tif, flags, reserved) =>
      LittleEndian(price, 8) + LittleEndian(qty, 8) + LittleEndian(stop, 8) + LittleEndian(client, 8)
      + LittleEndian(sym, 4) + LittleEndian(ex, 4) + LittleEndian(strategy, 4)
      + LittleEndian(side, 1) + LittleEndian(kind, 1) + LittleEndian(tif, 1) + LittleEndian(flags, 1) + reserved
    case Fill(_, _, _, _, receive, price, qty, sym, ex, strategy, side, maker, reserved) =>
      LittleEndian(receive, 8) + LittleEndian(price, 8) + LittleEndian(qty, 8)
      + LittleEndian(sym, 4) + LittleEndian(ex, 4) + LittleEndian(strategy, 4)
      + LittleEndian(side, 1) + LittleEndian(maker, 1) + reserved
  }

  /** What comes before it. */
  function Head(r: Record): seq<Byte> {
    match r
    case Tick(_, _, _, _, _, _, _, _, _) => []
    case Order(id, _, _, _, _, _, _, _, _, _, _, _, _, _) => LittleEndian(id, 8)
    case Fill(exec, fill, id, _, _, _, _, _, _, _, _, _, _) =>
      LittleEndian(exec, 8) + LittleEndian(fill, 8) + LittleEndian(id, 8)
  }

  function Layout(r: Record): seq<Byte> { Head(r) + LittleEndian(Time(r), 8) + Tail(r) }

  /** A structure has the size of its log's records, and its time lies where the reader looks. */
  lemma {:induction false} TimeIsThere(r: Record)
    requires Shaped(r)
    ensures |Layout(r)| == RecordSize(LogType(r))
    ensures var at := TimestampOffset(LogType(r)); FromLittleEndian(Layout(r)[at..at + 8]) == Time(r)
  {
    var h := |Head(r)|;
    assert Layout(r)[h..h + 8] == LittleEndian(Time(r), 8);
    LittleEndianRoundTrip(Time(r), 8);
  }

  /** Every log written from structures replays by their times: the reader's timestamp of record i is
      the time of the i-th structure accepted. */
  lemma {:induction false} TimesReadBack(w: LogWriter, rs: seq<Record>, i: nat)
    requires w.Valid() && w.file != [] && i < w.flushed && |rs| == |w.accepted|
    requires forall k :: 0 <= k < |rs| ==>
      Shaped(rs[k]) && LogType(rs[k]) == w.logType && w.accepted[k] == Layout(rs[k])
    ensures OpenLog(w.file).Some? && OpenLog(w.file).value.TimestampAt(i) == Time(rs[i])
  {
    WrittenReadsBack(w);
    var r := OpenLog(w.file).value;
    assert r.TypedRecordAt(w.logType, i) == Some(w.accepted[i]);
    TypeReadsBack(w);
    TimeIsThere(rs[i]);
  }

  lemma {:induction false} TypeReadsBack(w: LogWriter)
    requires w.Valid() && w.file != []
    ensures OpenLog(w.file).Some? && OpenLog(w.file).value.logType == w.logType
    ensures OpenLog(w.file).value.timestampOffset == TimestampOffset(w.logType)
  {
    FileOpens(w.logType, w.created, w.accepted[..w.flushed]);
  }

  lemma {:induction false} Unroll(a: Byte, b: Byte, c: Byte, d: Byte, rest: seq<Byte>)
    ensures FromLittleEndian([a, b, c, d] + rest)
      == a + 256 * (b + 256 * (c + 256 * (d + 256 * FromLittleEndian(rest))))
  {
    var s := [a, b, c, d] + rest;
    assert s[1..][1..] == s[2..] && s[2..][1..] == s[3..] && s[3..][1..] == rest;
    assert FromLittleEndian(s[3..]) == d + 256 * FromLittleEndian(rest);
    assert FromLittleEndian(s[2..]) == c + 256 * FromLittleEndian(s[3..]);
    assert FromLittleEndian(s[1..]) == b + 256 * FromLittleEndian(s[2..]);
  }

  /** A reader takes a file for a log when it starts with C H R O N 0 and the bytes 1 and 0. */
  lemma {:induction false} MagicText(c: Byte, h: Byte, r: Byte, o: Byte, n: Byte, zero: Byte)
    requires c == 'C' as int && h == 'H' as int && r == 'R' as int && o == 'O' as int && n == 'N' as int
    requires zero == '0' as int
    ensures FromLittleEndian([c, h, r, o] + ([n, zero, 1, 0] + [])) == MAGIC
  {
    Unroll(c, h, r, o, [n, zero, 1, 0] + []);
    Unroll(n, zero, 1, 0, []);
  }
}
