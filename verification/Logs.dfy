/** Binary logs: the buffered writer of one log file and the reader of such files. */
module Logs {
  import Arithmetic
  import opened Bytes
  import opened Options

  // 0x01304E4F524843 and the other header constants, shared by writer and reader
  const MAGIC: nat := 0x01304E4F524843
  const VERSION: nat := 1
  const HEADER_SIZE: nat := 64

  /** Little-endian bytes of the low k bytes of n. */
  function LittleEndian(n: nat, k: nat): (r: seq<Byte>)
    ensures |r| == k
    decreases k
  {
    if k == 0 then [] else [n % 256] + LittleEndian(n / 256, k - 1)
  }

  function FromLittleEndian(b: seq<Byte>): nat {
    if b == [] then 0 else b[0] + 256 * FromLittleEndian(b[1..])
  }

  function Pow256(k: nat): (p: nat)
    ensures p > 0
  {
    if k == 0 then 1 else 256 * Pow256(k - 1)
  }

  lemma {:induction false} LittleEndianRoundTrip(n: nat, k: nat)
    requires n < Pow256(k)
    ensures FromLittleEndian(LittleEndian(n, k)) == n
    decreases k
  {
    if k > 0 {
      LittleEndianRoundTrip(n / 256, k - 1);
      assert LittleEndian(n, k)[1..] == LittleEndian(n / 256, k - 1);
    }
  }

  /** Record size and timestamp offset by log type: 0 ticks, 1 orders, 2 fills; 0 if unknown. */
  function RecordSize(logType: nat): nat {
    if logType == 0 then 64 else if logType == 1 || logType == 2 then 128 else 0
  }

  function TimestampOffset(logType: nat): nat {
    if logType == 1 then 8 else if logType == 2 then 24 else 0
  }

  function Padding(n: nat): seq<Byte> { seq(n, _ => 0) }

  /** writeFileHeader. */
  function Header(logType: nat, created: nat): (h: seq<Byte>)
    ensures |h| == HEADER_SIZE
  {
    LittleEndian(MAGIC, 8) + LittleEndian(VERSION, 4) + LittleEndian(logType, 4) + LittleEndian(created, 8)
    + Padding(40)
  }

  ghost function Concat(rs: seq<seq<Byte>>): seq<Byte> {
    if rs == [] then [] else Concat(rs[..|rs| - 1]) + rs[|rs| - 1]
  }

  lemma {:induction false} ConcatAppend(a: seq<seq<Byte>>, b: seq<seq<Byte>>)
    ensures Concat(a + b) == Concat(a) + Concat(b)
  {
    if b == [] {
      assert a + b == a;
    } else {
      var n := |b| - 1;
      ConcatAppend(a, b[..n]);
      assert (a + b)[..|a + b| - 1] == a + b[..n];
    }
  }

  ghost predicate AllOfSize(rs: seq<seq<Byte>>, size: nat) {
    forall i :: 0 <= i < |rs| ==> |rs[i]| == size
  }

  lemma {:induction false} ConcatLength(rs: seq<seq<Byte>>, size: nat)
    requires AllOfSize(rs, size)
    ensures |Concat(rs)| == |rs| * size
  {
    if rs != [] {
      ConcatLength(rs[..|rs| - 1], size);
      assert |rs| * size == (|rs| - 1) * size + size;
    }
  }

  /** Record i of a concatenation of equal-sized records. */
  lemma {:induction false} ConcatRecord(rs: seq<seq<Byte>>, size: nat, i: nat)
    requires AllOfSize(rs, size) && i < |rs|
    ensures 0 <= i * size && i * size + size <= |Concat(rs)|
    ensures Concat(rs)[i * size..i * size + size] == rs[i]
  {
    var a, b := rs[..i], rs[i + 1..];
    assert rs == a + [rs[i]] + b;
    ConcatAppend(a + [rs[i]], b);
    ConcatAppend(a, [rs[i]]);
    var one := [rs[i]];
    assert Concat(one) == Concat(one[..0]) + rs[i];
    ConcatLength(a, size);
  }

  // ----- writing -----

  /** The bytes are the header and then the records. */
  ghost predicate Holds(bytes: seq<Byte>, header: seq<Byte>, rs: seq<seq<Byte>>) { bytes == header + Concat(rs) }

  /** One log file and its buffer. accepted lists the records that Append took, of which the
      first flushed have reached the file. */
  class LogWriter {
    const logType: nat
    const buf: array<Byte>
    var writePos: nat
    var file: seq<Byte>
    var isOpen: bool
    var created: nat
    ghost var accepted: seq<seq<Byte>>
    ghost var flushed: nat

    ghost predicate Valid()
      reads this, buf
    {
      && logType <= 2 && writePos <= buf.Length
      && AllOfSize(accepted, RecordSize(logType)) && flushed <= |accepted|
      && (file == [] ==> !isOpen && flushed == 0)
      && (file != [] ==> Holds(file, Header(logType, created), accepted[..flushed]))
      && Holds(buf[..writePos], [], accepted[flushed..])
    }

    constructor (logType: nat, bufferSize: nat)
      requires logType <= 2
      ensures Valid() && this.logType == logType && buf.Length == bufferSize
      ensures file == [] && accepted == [] && fresh(buf)
    {
      this.logType := logType;
      buf := new Byte[bufferSize](_ => 0);
      writePos, file, isOpen, created := 0, [], false, 0;
      accepted, flushed := [], 0;
    }

    /** openLogFile: appends to what is there, writing a header only into an empty file. */
    method Open(now: nat)
      requires Valid()
      modifies this`file, this`isOpen, this`created
      ensures Valid() && isOpen
      ensures file == if old(file) == [] then Header(logType, now) else old(file)
    {
      if |file| == 0 {
        file := Header(logType, now);
        created := now;
        assert accepted[..0] == [];
        assert Header(logType, now) + [] == Header(logType, now);
      }
      isOpen := true;
    }

    /** appendToBuffer: refuses exactly the record that does not fit. */
    method Append(record: seq<Byte>) returns (ok: bool)
      requires Valid() && |record| == RecordSize(logType)
      modifies this`writePos, this`accepted, buf
      ensures Valid()
      ensures ok <==> old(writePos) + |record| <= buf.Length
      ensures accepted == if ok then old(accepted) + [record] else old(accepted)
    {
      if writePos + |record| > buf.Length {
        return false;
      }
      ghost var before := buf[..writePos];
      BufferGrows(before, accepted, flushed, record, RecordSize(logType));
      CopyBytes(buf, writePos, record);
      writePos := writePos + |record|;
      accepted := accepted + [record];
      assert buf[..writePos] == before + record;
      return true;
    }

    /** flushBuffer: everything buffered goes to the end of the file, if one is open. */
    method Flush()
      requires Valid()
      modifies this`file, this`writePos, this`flushed
      ensures Valid()
      ensures isOpen ==> flushed == |accepted| && writePos == 0
      ensures !isOpen ==> file == old(file) && flushed == old(flushed)
    {
      if writePos > 0 && isOpen {
        FileGrows(file, buf[..writePos], accepted, flushed, Header(logType, created));
        file := file + buf[..writePos];
        writePos := 0;
        flushed := |accepted|;
      } else if isOpen {
        ConcatLength(accepted[flushed..], RecordSize(logType));
        NoRecords(|accepted| - flushed, RecordSize(logType));
      }
    }

    method Close()
      requires Valid()
      modifies this`isOpen
      ensures Valid() && !isOpen
    {
      isOpen := false;
    }
  }

  lemma FileGrows(file: seq<Byte>, buffered: seq<Byte>, rs: seq<seq<Byte>>, flushed: nat, h: seq<Byte>)
    requires flushed <= |rs| && Holds(file, h, rs[..flushed]) && Holds(buffered, [], rs[flushed..])
    ensures Holds(file + buffered, h, rs[..|rs|]) && Holds([], [], rs[|rs|..])
  {
    var a, b := rs[..flushed], rs[flushed..];
    assert rs[..|rs|] == a + b;
    ConcatAppend(a, b);
    assert h + (Concat(a) + Concat(b)) == h + Concat(a) + Concat(b);
    assert [] + Concat(b) == Concat(b);
  }

  /** memcpy into a byte buffer. */
  method CopyBytes(buf: array<Byte>, at: nat, record: seq<Byte>)
    requires at + |record| <= buf.Length
    modifies buf
    ensures buf[..at + |record|] == old(buf[..at]) + record
  {
    for i := 0 to |record|
      invariant buf[..at + i] == old(buf[..at]) + record[..i]
    {
      buf[at + i] := record[i];
      assert buf[..at + i + 1] == buf[..at + i] + [record[i]];
    }
  }

  lemma BufferGrows(buffered: seq<Byte>, rs: seq<seq<Byte>>, flushed: nat, r: seq<Byte>, size: nat)
    requires flushed <= |rs| && Holds(buffered, [], rs[flushed..]) && AllOfSize(rs, size) && |r| == size
    ensures AllOfSize(rs + [r], size) && (rs + [r])[..flushed] == rs[..flushed]
    ensures Holds(buffered + r, [], (rs + [r])[flushed..])
  {
    var tail := (rs + [r])[flushed..];
    assert tail == rs[flushed..] + [r];
    assert tail[..|tail| - 1] == rs[flushed..];
    assert [] + Concat(rs[flushed..]) == Concat(rs[flushed..]);
  }

  lemma NoRecords(n: nat, size: nat)
    requires n * size == 0 && size > 0
    ensures n == 0
  {
    if n > 0 { Arithmetic.MulMonotone(1, n, size); }
  }

  // ----- reading -----

  /** An opened log: the mapped bytes and what open worked out from the header. */
  datatype LogReader = LogReader(bytes: seq<Byte>, logType: nat, recordSize: nat, timestampOffset: nat, count: nat)
  {
    ghost predicate Valid() {
      && recordSize == RecordSize(logType) > 0 && timestampOffset == TimestampOffset(logType)
      && HEADER_SIZE + count * recordSize <= |bytes|
    }

    /** recordAt: None past the last whole record. */
    function RecordAt(i: nat): Option<seq<Byte>>
      requires Valid()
    {
      if i >= count then None
      else
        Arithmetic.MulMonotone(i + 1, count, recordSize);
        assert (i + 1) * recordSize == i * recordSize + recordSize;
        Some(bytes[HEADER_SIZE + i * recordSize..HEADER_SIZE + i * recordSize + recordSize])
    }

    /** tickAt, orderAt and fillAt: only from a log of that type. */
    function TypedRecordAt(wanted: nat, i: nat): Option<seq<Byte>>
      requires Valid()
    {
      if logType != wanted then None else RecordAt(i)
    }

    function TimestampAt(i: nat): nat
      requires Valid()
    {
      var r := RecordAt(i);
      if r.None? then 0
      else FromLittleEndian(r.value[timestampOffset..timestampOffset + 8])
    }
  }

  /** open on the bytes of a file. */
  function OpenLog(bytes: seq<Byte>): (r: Option<LogReader>)
    ensures r.Some? ==> r.value.Valid()
  {
    if |bytes| < HEADER_SIZE then None
    else if FromLittleEndian(bytes[..8]) != MAGIC then None
    else
      var logType := FromLittleEndian(bytes[12..16]);
      var size := RecordSize(logType);
      if size == 0 then None
      else
        var count := (|bytes| - HEADER_SIZE) / size;
        Some(LogReader(bytes, logType, size, TimestampOffset(logType), count))
  }

  lemma Powers()
    ensures Pow256(4) == 0x1_0000_0000 && Pow256(8) == 0x1_0000_0000_0000_0000
  {
    assert Pow256(2) == 256 * Pow256(1) && Pow256(4) == 256 * Pow256(3);
    assert Pow256(6) == 256 * Pow256(5) && Pow256(8) == 256 * Pow256(7);
  }

  lemma FieldsOf(a: seq<Byte>, b: seq<Byte>, c: seq<Byte>, d: seq<Byte>, e: seq<Byte>, rest: seq<Byte>)
    requires |a| == 8 && |b| == |c| == 4
    ensures var s := a + b + c + d + e + rest; s[..8] == a && s[12..16] == c
  {
  }

  lemma HeaderParses(logType: nat, created: nat, rest: seq<Byte>)
    requires logType <= 2
    ensures var b := Header(logType, created) + rest;
      FromLittleEndian(b[..8]) == MAGIC && FromLittleEndian(b[12..16]) == logType
  {
    FieldsOf(LittleEndian(MAGIC, 8), LittleEndian(VERSION, 4), LittleEndian(logType, 4), LittleEndian(created, 8),
             Padding(40), rest);
    Powers();
    LittleEndianRoundTrip(MAGIC, 8);
    LittleEndianRoundTrip(logType, 4);
  }

  /** A header followed by whole records opens with their number and their bytes. */
  lemma {:induction false} FileOpens(logType: nat, created: nat, rs: seq<seq<Byte>>)
    requires logType <= 2 && AllOfSize(rs, RecordSize(logType))
    ensures var file := Header(logType, created) + Concat(rs); var size := RecordSize(logType);
      && |file| == HEADER_SIZE + |rs| * size
      && OpenLog(file) == Some(LogReader(file, logType, size, TimestampOffset(logType), |rs|))
  {
    var size := RecordSize(logType);
    HeaderParses(logType, created, Concat(rs));
    ConcatLength(rs, size);
    Arithmetic.DivModUnique(|rs| * size, size, |rs|, 0);
  }

  /** Bytes of a last record that is not whole are not counted. */
  lemma {:induction false} PartialRecordIgnored(logType: nat, created: nat, rs: seq<seq<Byte>>, extra: seq<Byte>)
    requires logType <= 2 && AllOfSize(rs, RecordSize(logType)) && |extra| < RecordSize(logType)
    ensures var file := Header(logType, created) + (Concat(rs) + extra);
      OpenLog(file).Some? && OpenLog(file).value.count == |rs| && OpenLog(file).value.logType == logType
  {
    var size := RecordSize(logType);
    HeaderParses(logType, created, Concat(rs) + extra);
    ConcatLength(rs, size);
    Arithmetic.DivModUnique(|rs| * size + |extra|, size, |rs|, |extra|);
  }

  /** A file opens exactly when it has a whole header with the right magic and a known type. */
  lemma {:induction false} OpensExactly(bytes: seq<Byte>)
    ensures OpenLog(bytes).Some? <==>
      |bytes| >= 64 && FromLittleEndian(bytes[..8]) == 0x01304E4F524843 && FromLittleEndian(bytes[12..16]) <= 2
  {
  }

  lemma {:induction false} RecordReads(r: LogReader, created: nat, rs: seq<seq<Byte>>, i: nat)
    requires r.Valid() && AllOfSize(rs, r.recordSize) && i < |rs| == r.count
    requires r.bytes == Header(r.logType, created) + Concat(rs)
    ensures r.RecordAt(i) == Some(rs[i])
  {
    var size := r.recordSize;
    ConcatRecord(rs, size, i);
    SliceAfter(Header(r.logType, created), Concat(rs), i * size, i * size + size);
  }

  lemma SliceAfter(h: seq<Byte>, c: seq<Byte>, lo: nat, hi: nat)
    requires lo <= hi <= |c|
    ensures (h + c)[|h| + lo..|h| + hi] == c[lo..hi]
  {
  }

  /** The file opens as a log of this type holding exactly these records: record i reads as
      the i-th of them, through the accessors of its own type only. */
  ghost predicate ReadsAs(file: seq<Byte>, logType: nat, records: seq<seq<Byte>>) {
    && OpenLog(file).Some? && OpenLog(file).value.count == |records|
    && forall wanted: nat, i: nat :: OpenLog(file).value.TypedRecordAt(wanted, i) ==
         if wanted == logType && i < |records| then Some(records[i]) else None
  }

  /** What was written reads back: the file is one header and whole records, and reads as the
      records flushed, which are the first ones accepted, whatever the order of writes,
      refusals, flushes and reopenings that led here. */
  lemma WrittenReadsBack(w: LogWriter)
    requires w.Valid() && w.file != []
    ensures |w.file| == HEADER_SIZE + w.flushed * RecordSize(w.logType)
    ensures ReadsAs(w.file, w.logType, w.accepted[..w.flushed])
  {
    var rs := w.accepted[..w.flushed];
    FileOpens(w.logType, w.created, rs);
    var r := OpenLog(w.file).value;
    forall i: nat | i < w.flushed
      ensures r.RecordAt(i) == Some(rs[i])
    {
      RecordReads(r, w.created, rs, i);
    }
  }

  datatype LogOp = WriteRecord(record: seq<Byte>) | FlushBuffer | CloseFile | OpenFile(now: nat)

  /** Any sequence of writes, flushes, closings and reopenings of one file; records of the wrong
      size cannot be written. What was accepted before stays accepted, in order. */
  method RunWriter(w: LogWriter, ops: seq<LogOp>)
    requires w.Valid()
    modifies w, w.buf
    ensures w.Valid() && old(w.accepted) <= w.accepted
    ensures w.file != [] ==> ReadsAs(w.file, w.logType, w.accepted[..w.flushed])
  {
    for i := 0 to |ops|
      invariant w.Valid() && old(w.accepted) <= w.accepted
    {
      match ops[i]
      case WriteRecord(r) => if |r| == RecordSize(w.logType) { var ok := w.Append(r); }
      case FlushBuffer => w.Flush();
      case CloseFile => w.Close();
      case OpenFile(now) => w.Open(now);
    }
    if w.file != [] { WrittenReadsBack(w); }
  }

  ghost predicate TimeSorted(r: LogReader)
    requires r.Valid()
  {
    forall i: nat, j: nat :: i <= j < r.count ==> r.TimestampAt(i) <= r.TimestampAt(j)
  }

  /** seekToTimestamp: on a time-sorted log, the first record not before the given time. */
  method SeekToTimestamp(r: LogReader, t: nat) returns (lo: nat)
    requires r.Valid() && TimeSorted(r)
    ensures lo <= r.count
    ensures forall i: nat :: i < lo ==> r.TimestampAt(i) < t
    ensures forall i: nat :: lo <= i < r.count ==> r.TimestampAt(i) >= t
  {
    if r.count == 0 {
      return 0;
    }
    if r.TimestampAt(r.count - 1) < t {
      return r.count;
    }
    lo := 0;
    var hi := r.count;
    while lo < hi
      invariant lo <= hi <= r.count
      invariant forall i: nat :: i < lo ==> r.TimestampAt(i) < t
      invariant forall i: nat :: hi <= i < r.count ==> r.TimestampAt(i) >= t
    {
      var mid := lo + (hi - lo) / 2;
      if r.TimestampAt(mid) < t {
        lo := mid + 1;
      } else {
        hi := mid;
      }
    }
  }
}
