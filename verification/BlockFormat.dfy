/** The bytes of rows, micro blocks and macro blocks, and how a reader finds the rows again. */
module RowFormat {
  import opened Common
  import opened Bytes
  import opened Framing

  datatype RowData = RowData(dml: byte, key: seq<byte>, value: seq<byte>)

  /** The length fields of a row have 32 bits and a sign. */
  type Row = r: RowData | |r.key| < 0x8000_0000 && |r.value| < 0x8000_0000 witness RowData(0, [], [])

  function EncodeRow(r: Row): (s: seq<byte>)
    ensures |s| == 9 + |r.key| + |r.value|
  {
    [r.dml] + Put32(|r.key|) + r.key + Put32(|r.value|) + r.value
  }

  /** The row that starts at the front of `b`. */
  function DecodeRow(b: seq<byte>): Option<Row> {
    if |b| < 5 then None
    else
      var keyLen := Get32(b[1..5]);
      if keyLen < 0 || |b| < 9 + keyLen then None
      else
        var valLen := Get32(b[5 + keyLen..9 + keyLen]);
        if valLen < 0 || |b| < 9 + keyLen + valLen then None
        else Some(RowData(b[0], b[5..5 + keyLen], b[9 + keyLen..9 + keyLen + valLen]))
  }

  lemma RowSlices(dml: byte, kl: seq<byte>, key: seq<byte>, vl: seq<byte>, value: seq<byte>, rest: seq<byte>)
    requires |kl| == 4 && |vl| == 4
    ensures var b := [dml] + kl + key + vl + value + rest;
            && b[0] == dml && b[1..5] == kl && b[5..5 + |key|] == key
            && b[5 + |key|..9 + |key|] == vl && b[9 + |key|..9 + |key| + |value|] == value
  {
  }

  lemma DecodeEncodeRow(r: Row, rest: seq<byte>)
    ensures DecodeRow(EncodeRow(r) + rest) == Some(r)
  {
    RowSlices(r.dml, Put32(|r.key|), r.key, Put32(|r.value|), r.value, rest);
    Get32Put32(|r.key|);
    Get32Put32(|r.value|);
  }

  /** Flag, key length, key, value length, value. */
  lemma RowLayout(r: Row)
    ensures var s, k := EncodeRow(r), |r.key|;
            && s[0] == r.dml && s[1..5] == Put32(k) && s[5..5 + k] == r.key
            && s[5 + k..9 + k] == Put32(|r.value|) && s[9 + k..] == r.value
  {
  }

  function Rows(rows: seq<Row>): seq<byte> {
    Flatten(EncodeRow, rows)
  }
}

/** Micro blocks: a header, the rows, and an index of where each row starts. */
module MicroFormat {
  import opened Common
  import opened Bytes
  import opened Framing
  import opened RowFormat

  const MICRO_HEADER_SIZE := 56

  /** The two counts of the table description that the headers repeat. */
  datatype Desc = Desc(tablet: u64, columns: nat, rowkeyColumns: nat)

  /** The fields before the row count: magic 1005, version 1, and the column counts. */
  function HeaderStart(d: Desc): (s: seq<byte>)
    ensures |s| == 16
  {
    [0xED, 0x03] + [1, 0] + Blank(6) + Put(d.columns, 2) + Put(d.rowkeyColumns, 2) + Blank(2)
  }

  function MicroHeader(d: Desc, rowCount: nat, indexStart: nat, length: nat): (s: seq<byte>)
    ensures |s| == MICRO_HEADER_SIZE
  {
    HeaderStart(d) + Put(rowCount, 4) + [0, 1, 0, 0] + Put(indexStart, 4) + (Put(length, 4) + Blank(8)) +
    Put(length, 4) + (Put(length, 4) + Blank(8))
  }

  lemma HeaderStartLayout(d: Desc)
    ensures var h := HeaderStart(d);
            && h[0..2] == [0xED, 0x03] && h[2..4] == [1, 0] && h[4..10] == Blank(6)
            && h[10..12] == Put(d.columns, 2) && h[12..14] == Put(d.rowkeyColumns, 2) && h[14..16] == Blank(2)
  {
  }

  lemma MicroHeaderSlices(a: seq<byte>, n: seq<byte>, f: seq<byte>, x: seq<byte>, l: seq<byte>)
    requires |a| == 16 && |n| == 4 && |f| == 4 && |x| == 4 && |l| == 4
    ensures var h := a + n + f + x + (l + Blank(8)) + l + (l + Blank(8));
            && h[..16] == a && h[16..20] == n && h[20..24] == f && h[24..28] == x && h[28..32] == l
            && h[32..40] == Blank(8) && h[40..44] == l && h[44..48] == l && h[48..56] == Blank(8)
  {
  }

  /** The fields of the micro block header at their places: row count at 16, store type and flags at 20, index at 24,
      and the length at 28, 40 and 44. */
  lemma MicroHeaderLayout(d: Desc, rowCount: nat, indexStart: nat, length: nat)
    ensures var h := MicroHeader(d, rowCount, indexStart, length);
            && h[..16] == HeaderStart(d) && h[16..20] == Put(rowCount, 4) && h[20..24] == [0, 1, 0, 0]
            && h[24..28] == Put(indexStart, 4) && h[28..32] == Put(length, 4) && h[32..40] == Blank(8)
            && h[40..44] == Put(length, 4) && h[44..48] == Put(length, 4) && h[48..56] == Blank(8)
  {
    MicroHeaderSlices(HeaderStart(d), Put(rowCount, 4), [0, 1, 0, 0], Put(indexStart, 4), Put(length, 4));
  }

  function Start(rows: seq<Row>, i: nat): nat
    requires i <= |rows|
  {
    MICRO_HEADER_SIZE + |Rows(rows[..i])|
  }

  /** The row index: where each row starts, counted from the start of the block. */
  function Starts(rows: seq<Row>): (s: seq<nat>)
    ensures |s| == |rows|
    ensures forall i :: 0 <= i < |rows| ==> s[i] == Start(rows, i)
  {
    seq(|rows|, i requires 0 <= i < |rows| => Start(rows, i))
  }

  function PutStart(n: nat): (s: seq<byte>)
    ensures |s| == 4
  {
    Put(n, 4)
  }

  function MicroSize(rows: seq<Row>): nat {
    MICRO_HEADER_SIZE + |Rows(rows)| + 4 * |rows|
  }

  /** The lengths and offsets of the block fit the fields that hold them. */
  predicate SmallMicro(rows: seq<Row>) {
    MicroSize(rows) < 0x8000_0000
  }

  function BuildMicro(d: Desc, rows: seq<Row>): (s: seq<byte>)
    ensures |s| == MicroSize(rows)
  {
    IndexSize(Starts(rows));
    MicroHeader(d, |rows|, MICRO_HEADER_SIZE + |Rows(rows)|, MicroSize(rows)) + Rows(rows) +
    Flatten(PutStart, Starts(rows))
  }

  // ---------------------------------------------------------------- reading

  /** Row `i` of the block at the front of `b`, found through the index. */
  function RowAt(b: seq<byte>, index: int, i: nat): Option<Row> {
    if index < 0 || |b| < index + 4 * i + 4 then None
    else
      var start := Get(b[index + 4 * i..index + 4 * i + 4]);
      if start > |b| then None else DecodeRow(b[start..])
  }

  /** What `get` finds at 0 up to `n`, if it finds something at each. */
  function Gather(get: nat -> Option<Row>, n: nat): Option<seq<Row>> {
    if n == 0 then Some([])
    else
      match (Gather(get, n - 1), get(n - 1))
      case (Some(rows), Some(r)) => Some(rows + [r])
      case _ => None
  }

  function MicroRowCount(b: seq<byte>): nat
    requires |b| >= MICRO_HEADER_SIZE
  {
    Get(b[16..20])
  }

  function MicroIndexStart(b: seq<byte>): nat
    requires |b| >= MICRO_HEADER_SIZE
  {
    Get(b[24..28])
  }

  /** The length that the header gives; -1 without a header. */
  function MicroLength(b: seq<byte>): int {
    if |b| < MICRO_HEADER_SIZE then -1 else Get32(b[40..44])
  }

  function DecodeMicro(b: seq<byte>): Option<seq<Row>> {
    if |b| < MICRO_HEADER_SIZE then None else
      var index := MicroIndexStart(b);
      Gather(i => RowAt(b, index, i), MicroRowCount(b))
  }

  // ---------------------------------------------------------------- reading inverts writing

  lemma HeaderSlices(a: seq<byte>, n: seq<byte>, f: seq<byte>, x: seq<byte>, o: seq<byte>, l: seq<byte>, z: seq<byte>,
                     rest: seq<byte>)
    requires |a| == 16 && |n| == 4 && |f| == 4 && |x| == 4 && |o| == 12 && |l| == 4 && |z| == 12
    ensures var b := a + n + f + x + o + l + z + rest;
            |a + n + f + x + o + l + z| == 56 && b[16..20] == n && b[24..28] == x && b[40..44] == l
  {
  }

  lemma HeaderValues(d: Desc, rowCount: u32, indexStart: u32, length: nat, rest: seq<byte>)
    requires length < 0x8000_0000
    ensures var b := MicroHeader(d, rowCount, indexStart, length) + rest;
            MicroRowCount(b) == rowCount && MicroIndexStart(b) == indexStart && MicroLength(b) == length
  {
    HeaderSlices(HeaderStart(d), Put(rowCount, 4), [0, 1, 0, 0], Put(indexStart, 4), Put(length, 4) + Blank(8),
                 Put(length, 4), Put(length, 4) + Blank(8), rest);
    GetPutU32(rowCount);
    GetPutU32(indexStart);
    Get32Put32(length);
  }

  lemma {:induction false} IndexEntry(starts: seq<nat>, i: nat)
    requires i < |starts|
    ensures |Flatten(PutStart, starts)| == 4 * |starts|
    ensures Flatten(PutStart, starts)[4 * i..4 * i + 4] == PutStart(starts[i])
    decreases |starts|
  {
    var tail := Flatten(PutStart, starts[1..]);
    if |starts| > 1 {
      IndexEntry(starts[1..], if i == 0 then 0 else i - 1);
    }
    var f := PutStart(starts[0]) + tail;
    if i == 0 {
      assert f[0..4] == PutStart(starts[0]);
    } else {
      assert f[4 * i..4 * i + 4] == tail[4 * (i - 1)..4 * (i - 1) + 4];
    }
  }

  lemma SliceInside(pre: seq<byte>, mid: seq<byte>, post: seq<byte>, from: nat, to: nat)
    requires from <= to <= |mid|
    ensures (pre + mid + post)[|pre| + from..|pre| + to] == mid[from..to]
  {
  }

  lemma TailInside(h: seq<byte>, p: seq<byte>, e: seq<byte>, q: seq<byte>, post: seq<byte>)
    ensures (h + (p + e + q) + post)[|h| + |p|..] == e + (q + post)
  {
  }

  lemma RowsSplit(rows: seq<Row>, i: nat)
    requires i < |rows|
    ensures Rows(rows) == Rows(rows[..i]) + EncodeRow(rows[i]) + Rows(rows[i + 1..])
  {
    assert rows == rows[..i + 1] + rows[i + 1..] && rows[..i + 1] == rows[..i] + [rows[i]];
    FlattenJoin(EncodeRow, rows[..i + 1], rows[i + 1..]);
    FlattenAppends(EncodeRow, rows[..i], rows[i]);
  }

  lemma StartFits(rows: seq<Row>, i: nat)
    requires i < |rows| && SmallMicro(rows)
    ensures Start(rows, i) < 0x8000_0000 && Start(rows, i) <= MICRO_HEADER_SIZE + |Rows(rows)|
  {
    RowsSplit(rows, i);
  }

  /** The bytes from the start of row `i` on begin with that row. */
  lemma RowThere(h: seq<byte>, rows: seq<Row>, post: seq<byte>, i: nat)
    requires |h| == MICRO_HEADER_SIZE && i < |rows|
    ensures Start(rows, i) <= |h + Rows(rows) + post|
    ensures DecodeRow((h + Rows(rows) + post)[Start(rows, i)..]) == Some(rows[i])
  {
    RowsSplit(rows, i);
    TailInside(h, Rows(rows[..i]), EncodeRow(rows[i]), Rows(rows[i + 1..]), post);
    DecodeEncodeRow(rows[i], Rows(rows[i + 1..]) + post);
  }

  /** An index entry that points at a row makes the reader find that row. */
  lemma RowAtIs(b: seq<byte>, index: nat, i: nat, start: u32, r: Row)
    requires index + 4 * i + 4 <= |b| && b[index + 4 * i..index + 4 * i + 4] == Put(start, 4)
    requires start <= |b| && DecodeRow(b[start..]) == Some(r)
    ensures RowAt(b, index, i) == Some(r)
  {
    GetPutU32(start);
  }

  lemma RowFound(h: seq<byte>, rows: seq<Row>, starts: seq<byte>, rest: seq<byte>, i: nat)
    requires |h| == MICRO_HEADER_SIZE && i < |rows| && SmallMicro(rows)
    requires |starts| == 4 * |rows| && starts[4 * i..4 * i + 4] == Put(Start(rows, i), 4)
    ensures RowAt(h + Rows(rows) + starts + rest, MICRO_HEADER_SIZE + |Rows(rows)|, i) == Some(rows[i])
  {
    var pre := h + Rows(rows);
    SliceInside(pre, starts, rest, 4 * i, 4 * i + 4);
    StartFits(rows, i);
    RowThere(h, rows, starts + rest, i);
    Framing.Assoc(pre, starts, rest);
    RowAtIs(pre + starts + rest, |pre|, i, Start(rows, i), rows[i]);
  }

  lemma {:induction false} GatherAll(get: nat -> Option<Row>, rows: seq<Row>, n: nat)
    requires n <= |rows| && forall i: nat :: i < n ==> get(i) == Some(rows[i])
    ensures Gather(get, n) == Some(rows[..n])
    decreases n
  {
    if n > 0 {
      GatherAll(get, rows, n - 1);
      assert rows[..n] == rows[..n - 1] + [rows[n - 1]];
    }
  }

  lemma BodyRead(h: seq<byte>, rows: seq<Row>, rest: seq<byte>)
    requires |h| == MICRO_HEADER_SIZE && SmallMicro(rows)
    ensures var b := h + Rows(rows) + Flatten(PutStart, Starts(rows)) + rest;
            var index := MICRO_HEADER_SIZE + |Rows(rows)|;
            Gather(i => RowAt(b, index, i), |rows|) == Some(rows)
  {
    var starts := Flatten(PutStart, Starts(rows));
    var b := h + Rows(rows) + starts + rest;
    var index := MICRO_HEADER_SIZE + |Rows(rows)|;
    var get := i => RowAt(b, index, i);
    forall i: nat | i < |rows| ensures get(i) == Some(rows[i]) {
      IndexEntry(Starts(rows), i);
      RowFound(h, rows, starts, rest, i);
    }
    GatherAll(get, rows, |rows|);
    assert rows[..|rows|] == rows;
  }

  lemma IndexSize(starts: seq<nat>)
    ensures |Flatten(PutStart, starts)| == 4 * |starts|
  {
    if starts != [] {
      IndexEntry(starts, 0);
    }
  }

  lemma Regroup(a: seq<byte>, b: seq<byte>, c: seq<byte>, d: seq<byte>)
    ensures a + b + c + d == a + (b + c + d)
  {
  }

  /** A micro block in front of anything is read back, row by row, through its index; its length field is its size. */
  lemma MicroRoundTrip(d: Desc, rows: seq<Row>, rest: seq<byte>)
    requires SmallMicro(rows)
    ensures var b := BuildMicro(d, rows) + rest;
            && DecodeMicro(b) == Some(rows)
            && MicroRowCount(b) == |rows| && MicroLength(b) == |BuildMicro(d, rows)|
  {
    var h := MicroHeader(d, |rows|, MICRO_HEADER_SIZE + |Rows(rows)|, MicroSize(rows));
    var starts := Flatten(PutStart, Starts(rows));
    IndexSize(Starts(rows));
    BodyRead(h, rows, rest);
    HeaderValues(d, |rows|, MICRO_HEADER_SIZE + |Rows(rows)|, MicroSize(rows), Rows(rows) + starts + rest);
    Regroup(h, Rows(rows), starts, rest);
  }
}

/** Macro blocks: two headers, a reserved area, and micro blocks end to end. */
module MacroFormat {
  import opened Common
  import opened Bytes
  import opened Framing
  import opened RowFormat
  import opened MicroFormat

  const COMMON_HEADER_SIZE := 24
  const FIXED_HEADER_SIZE := 88
  const HEADER_RESERVE := 4096

  /** Header size, version 1, magic 1001, type 1, payload size, and no checksum. */
  function CommonHeader(dataSize: nat): (s: seq<byte>)
    ensures |s| == COMMON_HEADER_SIZE
  {
    [24, 0, 0, 0] + [1, 0, 0, 0] + [0xE9, 0x03, 0, 0] + [1, 0, 0, 0] + Put(dataSize, 4) + Blank(4)
  }

  /** The fields before the row count: header size, version 2, magic 1007, and what is known of the table. */
  function FixedStart(d: Desc): (s: seq<byte>)
    ensures |s| == 44
  {
    [88, 0, 0, 0] + [2, 0] + [0xEF, 0x03] + Put(d.tablet, 8) + Blank(16) +
    Put(d.columns, 4) + Put(d.rowkeyColumns, 4) + Blank(4)
  }

  function FixedHeader(d: Desc, rowCount: nat, dataSize: nat, microCount: nat): (s: seq<byte>)
    requires dataSize >= HEADER_RESERVE
    ensures |s| == FIXED_HEADER_SIZE
  {
    FixedStart(d) + Put(rowCount, 4) + Put(dataSize, 4) + Put(microCount, 4) + Put(HEADER_RESERVE, 4) +
    (Put(dataSize - HEADER_RESERVE, 4) + Blank(24))
  }

  /** Header size, version, magic and type as 32-bit fields, then the payload size at 16. */
  lemma CommonHeaderLayout(dataSize: nat)
    ensures var h := CommonHeader(dataSize);
            && h[0..4] == [24, 0, 0, 0] && h[4..8] == [1, 0, 0, 0] && h[8..12] == [0xE9, 0x03, 0, 0]
            && h[12..16] == [1, 0, 0, 0] && h[16..20] == Put(dataSize, 4) && h[20..24] == Blank(4)
  {
  }

  /** Header size, version and magic, the tablet at 8, the column counts at 32 and 36. */
  lemma FixedStartLayout(d: Desc)
    ensures var h := FixedStart(d);
            && h[0..4] == [88, 0, 0, 0] && h[4..6] == [2, 0] && h[6..8] == [0xEF, 0x03] && h[8..16] == Put(d.tablet, 8)
            && h[16..32] == Blank(16) && h[32..36] == Put(d.columns, 4) && h[36..40] == Put(d.rowkeyColumns, 4)
            && h[40..44] == Blank(4)
  {
  }

  lemma FixedSlices(a: seq<byte>, n: seq<byte>, o: seq<byte>, m: seq<byte>, off: seq<byte>, size: seq<byte>)
    requires |a| == 44 && |n| == 4 && |o| == 4 && |m| == 4 && |off| == 4 && |size| == 4
    ensures var h := a + n + o + m + off + (size + Blank(24));
            && h[..44] == a && h[44..48] == n && h[48..52] == o && h[52..56] == m && h[56..60] == off
            && h[60..64] == size && h[64..88] == Blank(24)
  {
  }

  /** Row count at 44, occupied size at 48, micro block count at 52, offset and size of the data at 56 and 60. */
  lemma FixedHeaderLayout(d: Desc, rowCount: nat, dataSize: nat, microCount: nat)
    requires dataSize >= 4096
    ensures var h := FixedHeader(d, rowCount, dataSize, microCount);
            && h[..44] == FixedStart(d) && h[44..48] == Put(rowCount, 4) && h[48..52] == Put(dataSize, 4)
            && h[52..56] == Put(microCount, 4) && h[56..60] == Put(4096, 4) && h[60..64] == Put(dataSize - 4096, 4)
            && h[64..88] == Blank(24)
  {
    FixedSlices(FixedStart(d), Put(rowCount, 4), Put(dataSize, 4), Put(microCount, 4), Put(HEADER_RESERVE, 4),
                Put(dataSize - HEADER_RESERVE, 4));
  }

  /** The bytes that a flush emits. */
  function BuildMacro(d: Desc, rowCount: nat, microCount: nat, data: seq<byte>): seq<byte>
    requires |data| >= HEADER_RESERVE
  {
    CommonHeader(|data|) + FixedHeader(d, rowCount, |data|, microCount) + data
  }

  /** The two headers, then the data area. */
  lemma MacroLayout(d: Desc, rowCount: nat, microCount: nat, data: seq<byte>)
    requires |data| >= 4096
    ensures var b := BuildMacro(d, rowCount, microCount, data);
            && b[..24] == CommonHeader(|data|) && b[24..112] == FixedHeader(d, rowCount, |data|, microCount)
            && b[112..] == data
  {
    ThreeParts(CommonHeader(|data|), FixedHeader(d, rowCount, |data|, microCount), data);
  }

  lemma ThreeParts(c: seq<byte>, f: seq<byte>, data: seq<byte>)
    requires |c| == 24 && |f| == 88
    ensures var b := c + f + data; b[..24] == c && b[24..112] == f && b[112..] == data
  {
  }

  function MicroOf(d: Desc): seq<Row> -> seq<byte> {
    rows => BuildMicro(d, rows)
  }

  function Micros(d: Desc, micros: seq<seq<Row>>): seq<byte> {
    Flatten(MicroOf(d), micros)
  }

  /** How much of the data area is taken up by the reserved bytes and these micro blocks. */
  function Total(micros: seq<seq<Row>>): nat {
    if micros == [] then HEADER_RESERVE else Total(micros[..|micros| - 1]) + MicroSize(micros[|micros| - 1])
  }

  lemma TotalAppend(micros: seq<seq<Row>>, rows: seq<Row>)
    ensures Total(micros + [rows]) == Total(micros) + MicroSize(rows)
  {
    assert (micros + [rows])[..|micros|] == micros;
  }

  lemma {:induction false} TotalIs(d: Desc, micros: seq<seq<Row>>)
    ensures |Image(d, micros)| == Total(micros) >= HEADER_RESERVE
    decreases |micros|
  {
    if micros != [] {
      TotalIs(d, micros[..|micros| - 1]);
    }
  }

  /** The data area, as it grows micro block by micro block. */
  function Image(d: Desc, micros: seq<seq<Row>>): seq<byte> {
    Grown(MicroOf(d), Blank(HEADER_RESERVE), micros)
  }

  /** A flushed block whose header counts `extra` micro blocks that were not written. */
  function Emitted(d: Desc, rowCount: nat, micros: seq<seq<Row>>, extra: nat): seq<byte> {
    TotalIs(d, micros);
    BuildMacro(d, rowCount, |micros| + extra, Image(d, micros))
  }

  function AllRows(micros: seq<seq<Row>>): seq<Row> {
    if micros == [] then [] else micros[0] + AllRows(micros[1..])
  }

  lemma {:induction false} AllRowsAppend(micros: seq<seq<Row>>, rows: seq<Row>)
    ensures AllRows(micros + [rows]) == AllRows(micros) + rows
  {
    if micros == [] {
      assert micros + [rows] == [rows];
    } else {
      AllRowsAppend(micros[1..], rows);
      assert (micros + [rows])[1..] == micros[1..] + [rows];
    }
  }

  // ---------------------------------------------------------------- reading

  function BlockRowCount(b: seq<byte>): i32
    requires |b| >= COMMON_HEADER_SIZE + FIXED_HEADER_SIZE
  {
    Get32(b[68..72])
  }

  function BlockMicroCount(b: seq<byte>): i32
    requires |b| >= COMMON_HEADER_SIZE + FIXED_HEADER_SIZE
  {
    Get32(b[76..80])
  }

  function BlockDataOffset(b: seq<byte>): i32
    requires |b| >= COMMON_HEADER_SIZE + FIXED_HEADER_SIZE
  {
    Get32(b[80..84])
  }

  function Then(rows: seq<Row>, more: Option<seq<Row>>): Option<seq<Row>> {
    match more
    case Some(m) => Some(rows + m)
    case None => None
  }

  /** The rows of `count` pieces from the front of `b`, each as long as `length` says. */
  function Walk(length: seq<byte> -> int, decode: seq<byte> -> Option<seq<Row>>, b: seq<byte>,
                count: int): Option<seq<Row>>
    decreases count
  {
    if count <= 0 then Some([])
    else
      match decode(b)
      case None => None
      case Some(rows) =>
        var n := length(b);
        if 0 <= n <= |b| then Then(rows, Walk(length, decode, b[n..], count - 1)) else None
  }

  /** All rows of a macro block, micro block by micro block. */
  function DecodeMacro(b: seq<byte>): Option<seq<Row>> {
    if |b| < COMMON_HEADER_SIZE + FIXED_HEADER_SIZE then None
    else
      var from := COMMON_HEADER_SIZE + FIXED_HEADER_SIZE + BlockDataOffset(b);
      if from < 0 || from > |b| then None else Walk(MicroLength, DecodeMicro, b[from..], BlockMicroCount(b))
  }

  // ---------------------------------------------------------------- reading inverts writing

  /** Every block and every row takes up room, so that what fits the data area fits its fields too. */
  lemma {:induction false} MicrosTakeRoom(d: Desc, micros: seq<seq<Row>>)
    ensures |micros| + |AllRows(micros)| <= |Micros(d, micros)|
    decreases |micros|
  {
    if micros != [] {
      MicrosTakeRoom(d, micros[1..]);
    }
  }

  /** `decode` and `length` read back a piece that is not too long, whatever follows it. */
  predicate ReadsPiece(enc: seq<Row> -> seq<byte>, length: seq<byte> -> int, decode: seq<byte> -> Option<seq<Row>>,
                       rows: seq<Row>, rest: seq<byte>)
  {
    |enc(rows)| < 0x8000_0000 ==> decode(enc(rows) + rest) == Some(rows) && length(enc(rows) + rest) == |enc(rows)|
  }

  ghost predicate ReadsPieces(enc: seq<Row> -> seq<byte>, length: seq<byte> -> int,
                              decode: seq<byte> -> Option<seq<Row>>) {
    && decode([]) == None
    && forall rows: seq<Row>, rest: seq<byte> :: ReadsPiece(enc, length, decode, rows, rest)
  }

  /** Asked for the pieces that are there the reader gives their rows; asked for more it gives nothing. */
  lemma {:induction false} WalkReads(enc: seq<Row> -> seq<byte>, length: seq<byte> -> int,
                                     decode: seq<byte> -> Option<seq<Row>>,
                                     micros: seq<seq<Row>>, extra: nat)
    requires ReadsPieces(enc, length, decode) && |Flatten(enc, micros)| < 0x8000_0000
    ensures Walk(length, decode, Flatten(enc, micros), |micros| + extra) ==
            if extra == 0 then Some(AllRows(micros)) else None
    decreases |micros|
  {
    if micros != [] {
      var first, rest := enc(micros[0]), Flatten(enc, micros[1..]);
      WalkReads(enc, length, decode, micros[1..], extra);
      assert ReadsPiece(enc, length, decode, micros[0], rest);
      assert (first + rest)[|first|..] == rest;
    }
  }

  lemma MicroReads(d: Desc, rows: seq<Row>, rest: seq<byte>)
    ensures ReadsPiece(MicroOf(d), MicroLength, DecodeMicro, rows, rest)
  {
    if SmallMicro(rows) {
      MicroRoundTrip(d, rows, rest);
    }
  }

  lemma MicrosRead(d: Desc)
    ensures ReadsPieces(MicroOf(d), MicroLength, DecodeMicro)
  {
    forall rows: seq<Row>, rest: seq<byte> ensures ReadsPiece(MicroOf(d), MicroLength, DecodeMicro, rows, rest) {
      MicroReads(d, rows, rest);
    }
  }

  lemma BlockSlices(c: seq<byte>, a: seq<byte>, n: seq<byte>, o: seq<byte>, m: seq<byte>, off: seq<byte>, z: seq<byte>,
                    reserve: seq<byte>, rest: seq<byte>)
    requires |c| == 24 && |a| == 44 && |n| == 4 && |o| == 4 && |m| == 4 && |off| == 4 && |z| == 28
             && |reserve| == HEADER_RESERVE
    ensures var b := c + (a + n + o + m + off + z) + (reserve + rest);
            b[68..72] == n && b[76..80] == m && b[80..84] == off && b[112 + HEADER_RESERVE..] == rest
  {
  }

  /** The header fields of a block and its micro block area. */
  lemma BlockParts(d: Desc, rowCount: nat, microCount: nat, body: seq<byte>)
    requires microCount < 0x8000_0000
    ensures var b := BuildMacro(d, rowCount, microCount, Blank(HEADER_RESERVE) + body);
            && BlockMicroCount(b) == microCount && BlockDataOffset(b) == HEADER_RESERVE
            && b[COMMON_HEADER_SIZE + FIXED_HEADER_SIZE + HEADER_RESERVE..] == body
            && (rowCount < 0x8000_0000 ==> BlockRowCount(b) == rowCount)
  {
    var size := HEADER_RESERVE + |body|;
    BlockSlices(CommonHeader(size), FixedStart(d), Put(rowCount, 4), Put(size, 4), Put(microCount, 4),
                Put(HEADER_RESERVE, 4),
                Put(|body|, 4) + Blank(24), Blank(HEADER_RESERVE), body);
    if rowCount < 0x8000_0000 {
      Get32Put32(rowCount);
    }
    Get32Put32(microCount);
    Get32Put32(HEADER_RESERVE);
  }

  lemma BodyReads(d: Desc, micros: seq<seq<Row>>, extra: nat)
    requires |Micros(d, micros)| < 0x8000_0000
    ensures Walk(MicroLength, DecodeMicro, Micros(d, micros), |micros| + extra) ==
            if extra == 0 then Some(AllRows(micros)) else None
  {
    MicrosRead(d);
    WalkReads(MicroOf(d), MicroLength, DecodeMicro, micros, extra);
  }

  lemma DecodeParts(b: seq<byte>, body: seq<byte>, count: int)
    requires |b| == COMMON_HEADER_SIZE + FIXED_HEADER_SIZE + HEADER_RESERVE + |body|
    requires b[COMMON_HEADER_SIZE + FIXED_HEADER_SIZE + HEADER_RESERVE..] == body
    requires BlockMicroCount(b) == count && BlockDataOffset(b) == HEADER_RESERVE
    ensures DecodeMacro(b) == Walk(MicroLength, DecodeMicro, body, count)
  {
  }

  lemma EmittedIs(d: Desc, rowCount: nat, micros: seq<seq<Row>>, extra: nat)
    requires Total(micros) < 0x8000_0000
    ensures Emitted(d, rowCount, micros, extra) ==
            BuildMacro(d, rowCount, |micros| + extra, Blank(HEADER_RESERVE) + Micros(d, micros))
    ensures |micros| + |AllRows(micros)| + HEADER_RESERVE <= HEADER_RESERVE + |Micros(d, micros)| < 0x8000_0000
  {
    GrownIs(MicroOf(d), Blank(HEADER_RESERVE), micros);
    TotalIs(d, micros);
    MicrosTakeRoom(d, micros);
  }

  /** A flushed block, read through its header and the headers and indexes of its micro blocks, gives the rows back;
      one whose header counts micro blocks that were not written gives nothing. */
  lemma MacroRead(d: Desc, rowCount: nat, micros: seq<seq<Row>>, extra: nat, b: seq<byte>)
    requires Total(micros) < 0x8000_0000 && extra <= 1
    requires b == Emitted(d, rowCount, micros, extra)
    ensures DecodeMacro(b) == if extra == 0 then Some(AllRows(micros)) else None
    ensures |b| >= COMMON_HEADER_SIZE + FIXED_HEADER_SIZE && BlockMicroCount(b) == |micros| + extra
    ensures rowCount < 0x8000_0000 ==> BlockRowCount(b) == rowCount
  {
    EmittedIs(d, rowCount, micros, extra);
    BlockParts(d, rowCount, |micros| + extra, Micros(d, micros));
    BodyReads(d, micros, extra);
    DecodeParts(b, Micros(d, micros), |micros| + extra);
  }
}
