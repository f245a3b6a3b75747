/** When the block writer keeps a row, and what its blocks hold. */
module BlockWriterSpec {
  import opened Common
  import opened RowFormat
  import opened MicroFormat
  import opened MacroFormat

  datatype StoreDesc = StoreDesc(desc: Desc, macroSize: nat, microSize: nat)

  /** The headers fit in front of the data, and sizes fit their fields. */
  predicate Sane(s: StoreDesc) {
    HEADER_RESERVE <= s.macroSize < 0x8000_0000
  }

  /** A micro block is closed once its header and rows reach the configured size less 4 KB. */
  predicate Full(s: StoreDesc, pending: seq<Row>) {
    MICRO_HEADER_SIZE + |Rows(pending)| >= s.microSize - 4096
  }

  predicate Fits(s: StoreDesc, dataSize: nat, pending: seq<Row>) {
    dataSize + MicroSize(pending) <= s.macroSize
  }

  /** A macro block with less room than one micro block is flushed. */
  predicate Tight(s: StoreDesc, dataSize: nat) {
    s.macroSize - dataSize < s.microSize
  }

  /** The pending rows get written now, by an append that adds the last of them, and there is room for them. */
  predicate Kept(s: StoreDesc, dataSize: nat, pending: seq<Row>) {
    Full(s, pending) || Tight(s, dataSize) ==> Fits(s, dataSize, pending)
  }

  lemma RowsGrow(pending: seq<Row>, row: Row)
    ensures |Rows(pending + [row])| == |Rows(pending)| + |EncodeRow(row)|
  {
    Framing.FlattenAppends(EncodeRow, pending, row);
  }

  /** What a caller can check to be sure that an append keeps its row: a macro block has room for a micro block, and
      the row with the row index fits in the 4 KB that a micro block leaves. */
  lemma SmallRowsAreKept(s: StoreDesc, dataSize: nat, pending: seq<Row>, row: Row)
    requires !Tight(s, dataSize) && (pending == [] || !Full(s, pending))
    requires MICRO_HEADER_SIZE <= s.microSize - 4096
    requires |EncodeRow(row)| + 4 * (|pending| + 1) <= 4096
    ensures Kept(s, dataSize, pending + [row])
  {
    RowsGrow(pending, row);
  }

  // ---------------------------------------------------------------- the writer as a state machine

  /** An emitted macro block: the rows that its header counts, its micro blocks, and how many micro blocks the header
      counts that are not there. */
  datatype Block = Block(rowCount: nat, micros: seq<seq<Row>>, phantom: nat)

  /** Rows taken, blocks emitted, micro blocks in the current macro block, rows counted for it, rows not yet in a
      micro block, and whether every micro block found room. */
  datatype Books = Books(appended: seq<Row>, emitted: seq<Block>, micros: seq<seq<Row>>, rowCount: nat,
                         pending: seq<Row>, intact: bool)

  function Take(b: Books, row: Row): Books {
    b.(appended := b.appended + [row], rowCount := b.rowCount + 1, pending := b.pending + [row])
  }

  predicate HasRoom(s: StoreDesc, b: Books) {
    Fits(s, Total(b.micros), b.pending)
  }

  /** A micro block that finds no room is dropped. */
  function Store(s: StoreDesc, b: Books): Books {
    if HasRoom(s, b) then b.(micros := b.micros + [b.pending], pending := []) else b.(pending := [], intact := false)
  }

  function Emit(b: Books, phantom: nat): Books {
    b.(emitted := b.emitted + [Block(b.rowCount, b.micros, phantom)], micros := [], rowCount := 0)
  }

  /** The pending rows are written and the macro block is emitted; it counts the micro block even if it is dropped. */
  function Flush(s: StoreDesc, b: Books): Books {
    if b.pending == [] then Emit(b, 0) else Emit(Store(s, b), if HasRoom(s, b) then 0 else 1)
  }

  function TakeAndStore(s: StoreDesc, b: Books, row: Row): Books {
    var taken := Take(b, row);
    if Full(s, taken.pending) then Store(s, taken) else taken
  }

  /** A row that fills a micro block for which there is no room is refused, with the other pending rows. */
  predicate Refused(s: StoreDesc, b: Books, row: Row) {
    Full(s, b.pending + [row]) && !Fits(s, Total(b.micros), b.pending + [row])
  }

  function Append(s: StoreDesc, b: Books, row: Row): Books {
    var next := TakeAndStore(s, b, row);
    if !Refused(s, b, row) && Tight(s, Total(next.micros)) then Flush(s, next) else next
  }

  function BytesOf(d: Desc, b: Block): seq<byte> {
    Emitted(d, b.rowCount, b.micros, b.phantom)
  }

  function Sealer(d: Desc): Block -> seq<byte> {
    b => BytesOf(d, b)
  }

  // ---------------------------------------------------------------- no row is lost, or it shows

  function RowsOf(b: Block): Option<seq<Row>> {
    if b.phantom == 0 then Some(AllRows(b.micros)) else None
  }

  function Joined(done: Option<seq<Row>>, more: Option<seq<Row>>): Option<seq<Row>> {
    match (done, more)
    case (Some(rows), Some(m)) => Some(rows + m)
    case _ => None
  }

  function Stock(blocks: seq<Block>): Option<seq<Row>> {
    if blocks == [] then Some([]) else Joined(Stock(blocks[..|blocks| - 1]), RowsOf(blocks[|blocks| - 1]))
  }

  lemma StockAppend(blocks: seq<Block>, b: Block)
    ensures Stock(blocks + [b]) == Joined(Stock(blocks), RowsOf(b))
  {
    assert (blocks + [b])[..|blocks|] == blocks;
  }

  predicate Plain(s: StoreDesc, b: Block, intact: bool) {
    && Total(b.micros) <= s.macroSize && b.phantom <= 1
    && (intact ==> b.phantom == 0 && b.rowCount == |AllRows(b.micros)|)
  }

  ghost predicate AllPlain(s: StoreDesc, blocks: seq<Block>, intact: bool) {
    forall i :: 0 <= i < |blocks| ==> Plain(s, blocks[i], intact)
  }

  /** What is in the blocks, in the current macro block and pending is what was appended, in order; once something is
      lost there is less of it, or a block cannot be read. */
  predicate Tally(done: Option<seq<Row>>, rows: seq<Row>, pending: seq<Row>, appended: seq<Row>, intact: bool) {
    match done
    case None => !intact
    case Some(d) => if intact then d + rows + pending == appended else |d + rows + pending| < |appended|
  }

  ghost predicate Sound(s: StoreDesc, b: Books) {
    && Sane(s) && Total(b.micros) <= s.macroSize && AllPlain(s, b.emitted, b.intact)
    && Tally(Stock(b.emitted), AllRows(b.micros), b.pending, b.appended, b.intact)
    && (b.intact ==> b.rowCount == |AllRows(b.micros)| + |b.pending|)
  }

  lemma TakeSound(s: StoreDesc, b: Books, row: Row)
    requires Sound(s, b)
    ensures Sound(s, Take(b, row))
  {
    if Stock(b.emitted).Some? {
      var front := Stock(b.emitted).value + AllRows(b.micros);
      assert front + (b.pending + [row]) == (front + b.pending) + [row];
    }
  }

  lemma MovedTally(done: Option<seq<Row>>, rows: seq<Row>, pending: seq<Row>, appended: seq<Row>, intact: bool)
    requires Tally(done, rows, pending, appended, intact)
    ensures Tally(done, rows + pending, [], appended, intact)
    ensures pending != [] ==> Tally(done, rows, [], appended, false)
  {
    if done.Some? {
      assert done.value + (rows + pending) + [] == done.value + rows + pending;
    }
  }

  lemma StoreSound(s: StoreDesc, b: Books)
    requires Sound(s, b) && b.pending != []
    ensures Sound(s, Store(s, b))
  {
    AllRowsAppend(b.micros, b.pending);
    TotalAppend(b.micros, b.pending);
    MovedTally(Stock(b.emitted), AllRows(b.micros), b.pending, b.appended, b.intact);
  }

  lemma EmitSound(s: StoreDesc, b: Books, phantom: nat)
    requires Sound(s, b) && b.pending == [] && phantom <= (if b.intact then 0 else 1)
    ensures Sound(s, Emit(b, phantom))
  {
    StockAppend(b.emitted, Block(b.rowCount, b.micros, phantom));
    if Stock(b.emitted).Some? {
      var done, rows := Stock(b.emitted).value, AllRows(b.micros);
      assert done + rows + [] + [] == done + rows + [];
    }
  }

  lemma FlushSound(s: StoreDesc, b: Books)
    requires Sound(s, b)
    ensures Sound(s, Flush(s, b))
    ensures Flush(s, b).intact <==> b.intact && (b.pending == [] || HasRoom(s, b))
  {
    if b.pending == [] {
      EmitSound(s, b, 0);
    } else {
      StoreSound(s, b);
      EmitSound(s, Store(s, b), if HasRoom(s, b) then 0 else 1);
    }
  }

  /** Between calls the pending rows do not fill a micro block, and the macro block has room for one, or the sizes
      are such that no macro block has. */
  predicate Settled(s: StoreDesc, b: Books) {
    && (b.pending == [] || !Full(s, b.pending))
    && (Tight(s, Total(b.micros)) ==> Tight(s, HEADER_RESERVE) && b.pending == [])
    && (Tight(s, HEADER_RESERVE) ==> b.micros == [])
  }

  lemma AppendSettled(s: StoreDesc, b: Books, row: Row)
    requires Settled(s, b)
    ensures Settled(s, Append(s, b, row))
  {
    TotalAppend(b.micros, Take(b, row).pending);
  }

  lemma TakeAndStoreSound(s: StoreDesc, b: Books, row: Row)
    requires Sound(s, b)
    ensures Sound(s, TakeAndStore(s, b, row))
  {
    TakeSound(s, b, row);
    StoreSound(s, Take(b, row));
  }

  lemma TakeAndStoreIs(s: StoreDesc, b: Books, row: Row)
    ensures var taken, t := b.pending + [row], TakeAndStore(s, b, row);
            && t.appended == b.appended + [row]
            && (t.intact <==> b.intact && (Full(s, taken) ==> Fits(s, Total(b.micros), taken)))
            && (!Full(s, taken) ==> t.micros == b.micros && t.pending == taken)
            && (Full(s, taken) ==> t.pending == [])
  {
  }

  lemma FlushAppended(s: StoreDesc, b: Books)
    ensures Flush(s, b).appended == b.appended
  {
  }

  lemma AppendKeepsSound(s: StoreDesc, b: Books, row: Row)
    requires Sound(s, b)
    ensures Sound(s, Append(s, b, row)) && Append(s, b, row).appended == b.appended + [row]
  {
    TakeAndStoreSound(s, b, row);
    TakeAndStoreIs(s, b, row);
    FlushSound(s, TakeAndStore(s, b, row));
    FlushAppended(s, TakeAndStore(s, b, row));
  }

  lemma AppendIntactIff(s: StoreDesc, b: Books, row: Row)
    requires Sound(s, b)
    ensures Append(s, b, row).intact <==> b.intact && Kept(s, Total(b.micros), b.pending + [row])
  {
    TakeAndStoreSound(s, b, row);
    TakeAndStoreIs(s, b, row);
    FlushSound(s, TakeAndStore(s, b, row));
  }

  /** No append loses a row unless the pending rows have to be written and there is no room for them. */
  lemma AppendSound(s: StoreDesc, b: Books, row: Row)
    requires Sound(s, b)
    ensures Sound(s, Append(s, b, row)) && Append(s, b, row).appended == b.appended + [row]
    ensures Append(s, b, row).intact <==> b.intact && Kept(s, Total(b.micros), b.pending + [row])
  {
    AppendKeepsSound(s, b, row);
    AppendIntactIff(s, b, row);
  }

  // ---------------------------------------------------------------- the bytes

  /** The header counts the rows and the micro blocks that the block holds. */
  predicate Counted(b: seq<byte>, microCount: nat) {
    && |b| >= COMMON_HEADER_SIZE + FIXED_HEADER_SIZE && BlockMicroCount(b) == microCount
    && match DecodeMacro(b)
       case None => false
       case Some(rows) => BlockRowCount(b) == |rows|
  }

  lemma BlockIsSmall(s: StoreDesc, b: Block)
    requires Sane(s) && Plain(s, b, false)
    ensures |AllRows(b.micros)| < 0x8000_0000
  {
    Framing.GrownIs(MicroOf(s.desc), Bytes.Blank(HEADER_RESERVE), b.micros);
    TotalIs(s.desc, b.micros);
    MicrosTakeRoom(s.desc, b.micros);
  }

  lemma EncodedReads(s: StoreDesc, b: Block, bytes: seq<byte>)
    requires Sane(s) && Plain(s, b, false) && bytes == BytesOf(s.desc, b)
    ensures DecodeMacro(bytes) == RowsOf(b)
  {
    BlockIsSmall(s, b);
    MacroRead(s.desc, b.rowCount, b.micros, b.phantom, bytes);
  }

  lemma CountedIs(bytes: seq<byte>, rows: seq<Row>, microCount: nat)
    requires |bytes| >= COMMON_HEADER_SIZE + FIXED_HEADER_SIZE && BlockMicroCount(bytes) == microCount
    requires DecodeMacro(bytes) == Some(rows) && BlockRowCount(bytes) == |rows|
    ensures Counted(bytes, microCount)
  {
  }

  lemma EncodedCounts(s: StoreDesc, b: Block, bytes: seq<byte>)
    requires Sane(s) && Plain(s, b, true) && bytes == BytesOf(s.desc, b)
    ensures Counted(bytes, |b.micros|)
  {
    BlockIsSmall(s, b);
    MacroRead(s.desc, b.rowCount, b.micros, b.phantom, bytes);
    CountedIs(bytes, AllRows(b.micros), |b.micros|);
  }

  /** The rows that a reader gets out of the emitted blocks. */
  function Contents(blocks: seq<seq<byte>>): Option<seq<Row>> {
    if blocks == [] then Some([]) else Joined(Contents(blocks[..|blocks| - 1]), DecodeMacro(blocks[|blocks| - 1]))
  }

  /** `bytes` are the encodings of `blocks`. */
  ghost predicate Encoded(d: Desc, blocks: seq<Block>, bytes: seq<seq<byte>>) {
    && |bytes| == |blocks|
    && forall i :: 0 <= i < |blocks| ==> bytes[i] == BytesOf(d, blocks[i])
  }

  lemma {:induction false} ContentsIsStock(s: StoreDesc, blocks: seq<Block>, bytes: seq<seq<byte>>)
    requires Sane(s) && AllPlain(s, blocks, false) && Encoded(s.desc, blocks, bytes)
    ensures Contents(bytes) == Stock(blocks)
    decreases |blocks|
  {
    if blocks != [] {
      var n := |blocks| - 1;
      assert Plain(s, blocks[n], false);
      EncodedReads(s, blocks[n], bytes[n]);
      ContentsIsStock(s, blocks[..n], bytes[..n]);
    }
  }

  lemma AllCounted(s: StoreDesc, blocks: seq<Block>, bytes: seq<seq<byte>>)
    requires Sane(s) && AllPlain(s, blocks, true) && Encoded(s.desc, blocks, bytes)
    ensures forall i :: 0 <= i < |bytes| ==> Counted(bytes[i], |blocks[i].micros|)
  {
    forall i | 0 <= i < |bytes| ensures Counted(bytes[i], |blocks[i].micros|) {
      assert Plain(s, blocks[i], true);
      EncodedCounts(s, blocks[i], bytes[i]);
    }
  }

  lemma TallyClosed(done: Option<seq<Row>>, appended: seq<Row>, intact: bool)
    requires Tally(done, [], [], appended, intact)
    ensures done == Some(appended) <==> intact
  {
    if done.Some? {
      assert done.value + [] + [] == done.value;
    }
  }

  /** Once the last block is out, a reader gets exactly the appended rows if and only if nothing was dropped, and then
      every header counts its rows. */
  lemma ClosedReadsBack(s: StoreDesc, b: Books, bytes: seq<seq<byte>>)
    requires Sound(s, b) && b.micros == [] && b.pending == [] && Encoded(s.desc, b.emitted, bytes)
    ensures Contents(bytes) == Some(b.appended) <==> b.intact
    ensures b.intact ==> forall i :: 0 <= i < |bytes| ==> Counted(bytes[i], |b.emitted[i].micros|)
  {
    assert AllPlain(s, b.emitted, false);
    ContentsIsStock(s, b.emitted, bytes);
    TallyClosed(Stock(b.emitted), b.appended, b.intact);
    if b.intact {
      AllCounted(s, b.emitted, bytes);
    }
  }

  // ---------------------------------------------------------------- whole runs

  const FRESH := Books([], [], [], 0, [], true)

  function Run(s: StoreDesc, rows: seq<Row>): Books {
    if rows == [] then FRESH else Append(s, Run(s, rows[..|rows| - 1]), rows[|rows| - 1])
  }

  predicate KeptBy(s: StoreDesc, b: Books, row: Row) {
    Kept(s, Total(b.micros), b.pending + [row])
  }

  /** Every row of the run is kept when it is appended. */
  predicate AllKept(s: StoreDesc, rows: seq<Row>) {
    rows == [] || (AllKept(s, rows[..|rows| - 1]) && KeptBy(s, Run(s, rows[..|rows| - 1]), rows[|rows| - 1]))
  }

  lemma FreshSound(s: StoreDesc)
    requires Sane(s)
    ensures Sound(s, FRESH) && Settled(s, FRESH)
  {
  }

  lemma RunStep(s: StoreDesc, b: Books, row: Row)
    requires Sound(s, b) && Settled(s, b)
    ensures var next := Append(s, b, row);
            && Sound(s, next) && Settled(s, next) && next.appended == b.appended + [row]
            && (next.intact <==> b.intact && KeptBy(s, b, row))
  {
    AppendSound(s, b, row);
    AppendSettled(s, b, row);
  }

  lemma CloseStep(s: StoreDesc, b: Books)
    requires Sound(s, b) && Settled(s, b)
    ensures Sound(s, Flush(s, b)) && Settled(s, Flush(s, b))
  {
    FlushSound(s, b);
  }

  /** For every run: the rows taken are those appended, and none is lost if and only if each was kept. */
  lemma {:induction false} RunSound(s: StoreDesc, rows: seq<Row>)
    requires Sane(s)
    ensures Sound(s, Run(s, rows)) && Settled(s, Run(s, rows)) && Run(s, rows).appended == rows
    ensures Run(s, rows).intact <==> AllKept(s, rows)
    decreases |rows|
  {
    if rows == [] {
      FreshSound(s);
    } else {
      var n := |rows| - 1;
      RunSound(s, rows[..n]);
      RunStep(s, Run(s, rows[..n]), rows[n]);
      assert rows == rows[..n] + [rows[n]];
    }
  }

  /** Every append of the run keeps its row, and the rows left over find room. */
  predicate NothingLost(s: StoreDesc, rows: seq<Row>) {
    AllKept(s, rows) && (Run(s, rows).pending == [] || HasRoom(s, Run(s, rows)))
  }

  /** For every run, ended by the flush of `close`: the rows read back from the emitted blocks are the rows appended, in
      order, if and only if every append kept its row and the rows left over found room. */
  lemma RunReadsBack(s: StoreDesc, rows: seq<Row>, bytes: seq<seq<byte>>)
    requires Sane(s) && Encoded(s.desc, Flush(s, Run(s, rows)).emitted, bytes)
    ensures Contents(bytes) == Some(rows) <==> NothingLost(s, rows)
  {
    RunSound(s, rows);
    FlushSound(s, Run(s, rows));
    ClosedReadsBack(s, Flush(s, Run(s, rows)), bytes);
  }

  // ---------------------------------------------------------------- when every row finds room

  /** The rows since the last micro block was cut, whatever the macro blocks do. */
  function Waiting(s: StoreDesc, rows: seq<Row>): seq<Row> {
    if rows == [] then []
    else
      var cut := Waiting(s, rows[..|rows| - 1]) + [rows[|rows| - 1]];
      if Full(s, cut) then [] else cut
  }

  /** Every micro block that is cut keeps to the configured size. */
  predicate CutsFit(s: StoreDesc, rows: seq<Row>) {
    rows == [] ||
    var front, last := rows[..|rows| - 1], rows[|rows| - 1];
    var cut := Waiting(s, front) + [last];
    CutsFit(s, front) && (Full(s, cut) ==> MicroSize(cut) <= s.microSize)
  }

  /** The last micro block, which is cut by the flush of `close`, does so too. */
  predicate BlocksFit(s: StoreDesc, rows: seq<Row>) {
    CutsFit(s, rows) && (Waiting(s, rows) == [] || MicroSize(Waiting(s, rows)) <= s.microSize)
  }

  /** A macro block has room for a micro block of the configured size. */
  predicate TakesMicro(s: StoreDesc) {
    Sane(s) && HEADER_RESERVE + s.microSize <= s.macroSize
  }

  lemma PendingStep(s: StoreDesc, b: Books, row: Row)
    requires TakesMicro(s) && Settled(s, b)
    ensures Append(s, b, row).pending == if Full(s, b.pending + [row]) then [] else b.pending + [row]
  {
  }

  lemma {:induction false} PendingIsWaiting(s: StoreDesc, rows: seq<Row>)
    requires TakesMicro(s)
    ensures Run(s, rows).pending == Waiting(s, rows)
    decreases |rows|
  {
    if rows != [] {
      var front := rows[..|rows| - 1];
      PendingIsWaiting(s, front);
      RunSound(s, front);
      PendingStep(s, Run(s, front), rows[|rows| - 1]);
    }
  }

  lemma FittingCutKept(s: StoreDesc, b: Books, row: Row)
    requires TakesMicro(s) && Settled(s, b)
    requires Full(s, b.pending + [row]) ==> MicroSize(b.pending + [row]) <= s.microSize
    ensures KeptBy(s, b, row)
  {
  }

  lemma {:induction false} FittingRunKept(s: StoreDesc, rows: seq<Row>)
    requires TakesMicro(s) && CutsFit(s, rows)
    ensures AllKept(s, rows)
    decreases |rows|
  {
    if rows != [] {
      var front := rows[..|rows| - 1];
      FittingRunKept(s, front);
      PendingIsWaiting(s, front);
      RunSound(s, front);
      FittingCutKept(s, Run(s, front), rows[|rows| - 1]);
    }
  }

  lemma FittingNothingLost(s: StoreDesc, rows: seq<Row>)
    requires TakesMicro(s) && BlocksFit(s, rows)
    ensures NothingLost(s, rows)
  {
    FittingRunKept(s, rows);
    PendingIsWaiting(s, rows);
    RunSound(s, rows);
  }

  /** No row is lost, however many there are, if every micro block keeps to the configured size. */
  lemma FittingRunReadsBack(s: StoreDesc, rows: seq<Row>, bytes: seq<seq<byte>>)
    requires TakesMicro(s) && BlocksFit(s, rows) && Encoded(s.desc, Flush(s, Run(s, rows)).emitted, bytes)
    ensures Contents(bytes) == Some(rows)
  {
    FittingNothingLost(s, rows);
    RunReadsBack(s, rows, bytes);
  }

  lemma {:induction false} KeptCutsFit(s: StoreDesc, rows: seq<Row>)
    requires TakesMicro(s) && s.macroSize == HEADER_RESERVE + s.microSize && AllKept(s, rows)
    ensures CutsFit(s, rows)
    decreases |rows|
  {
    if rows != [] {
      var front := rows[..|rows| - 1];
      KeptCutsFit(s, front);
      PendingIsWaiting(s, front);
      TotalAtLeast(Run(s, front).micros);
    }
  }

  lemma {:induction false} TotalAtLeast(micros: seq<seq<Row>>)
    ensures Total(micros) >= HEADER_RESERVE
    decreases |micros|
  {
    if micros != [] {
      TotalAtLeast(micros[..|micros| - 1]);
    }
  }

  lemma {:induction false} SameWaiting(s: StoreDesc, t: StoreDesc, rows: seq<Row>)
    requires s.microSize == t.microSize
    ensures Waiting(s, rows) == Waiting(t, rows) && (CutsFit(s, rows) <==> CutsFit(t, rows))
    decreases |rows|
  {
    if rows != [] {
      SameWaiting(s, t, rows[..|rows| - 1]);
    }
  }

  lemma TightestLoses(s: StoreDesc, rows: seq<Row>)
    requires TakesMicro(s) && s.macroSize == HEADER_RESERVE + s.microSize && NothingLost(s, rows)
    ensures BlocksFit(s, rows)
  {
    KeptCutsFit(s, rows);
    PendingIsWaiting(s, rows);
    TotalAtLeast(Run(s, rows).micros);
  }

  /** That is exact over all macro block sizes: a run loses nothing at any size that has room for a micro block if and
      only if every micro block keeps to the configured size. */
  lemma NothingLostIff(d: Desc, microSize: nat, rows: seq<Row>)
    requires HEADER_RESERVE + microSize < 0x8000_0000
    ensures (forall macroSize: nat :: TakesMicro(StoreDesc(d, macroSize, microSize)) ==>
               NothingLost(StoreDesc(d, macroSize, microSize), rows)) <==>
            BlocksFit(StoreDesc(d, HEADER_RESERVE + microSize, microSize), rows)
  {
    var least := StoreDesc(d, HEADER_RESERVE + microSize, microSize);
    assert TakesMicro(least);
    if NothingLost(least, rows) {
      TightestLoses(least, rows);
    }
    if BlocksFit(least, rows) {
      forall macroSize: nat | TakesMicro(StoreDesc(d, macroSize, microSize))
        ensures NothingLost(StoreDesc(d, macroSize, microSize), rows)
      {
        var s := StoreDesc(d, macroSize, microSize);
        SameWaiting(least, s, rows);
        FittingNothingLost(s, rows);
      }
    }
  }

  // ---------------------------------------------------------------- checks on the rows alone

  /** Each row with the index of its micro block so far fits in the 4 KB that the writer leaves free. */
  ghost predicate SlackLeft(s: StoreDesc, rows: seq<Row>) {
    forall i :: 0 <= i < |rows| ==> |EncodeRow(rows[i])| + 4 * (|Waiting(s, rows[..i])| + 1) <= 4096
  }

  lemma WaitingNotFull(s: StoreDesc, rows: seq<Row>)
    ensures Waiting(s, rows) == [] || !Full(s, Waiting(s, rows))
  {
  }

  lemma CutSize(s: StoreDesc, waiting: seq<Row>, row: Row)
    requires MICRO_HEADER_SIZE <= s.microSize - 4096 && (waiting == [] || !Full(s, waiting))
    requires |EncodeRow(row)| + 4 * (|waiting| + 1) <= 4096
    ensures MicroSize(waiting + [row]) <= s.microSize
  {
    RowsGrow(waiting, row);
  }

  lemma {:induction false} SlackIsEnough(s: StoreDesc, rows: seq<Row>)
    requires MICRO_HEADER_SIZE <= s.microSize - 4096 && SlackLeft(s, rows)
    ensures BlocksFit(s, rows)
    decreases |rows|
  {
    if rows != [] {
      var front := rows[..|rows| - 1];
      forall i | 0 <= i < |front| ensures rows[..i] == front[..i] {
      }
      SlackIsEnough(s, front);
      WaitingNotFull(s, front);
      CutSize(s, Waiting(s, front), rows[|rows| - 1]);
    }
  }

  lemma OneRowMore(least: nat, n: nat)
    ensures least * (n + 1) == least * n + least
  {
  }

  lemma {:induction false} RowsAtLeast(rows: seq<Row>, least: nat)
    requires forall i :: 0 <= i < |rows| ==> |EncodeRow(rows[i])| >= least
    ensures |Rows(rows)| >= least * |rows|
    decreases |rows|
  {
    if rows != [] {
      RowsAtLeast(rows[1..], least);
      OneRowMore(least, |rows| - 1);
    }
  }

  /** A macro block has room for a micro block, a micro block for its header, and `most` rows of `least` bytes fill
      it. */
  predicate Ample(s: StoreDesc, least: nat, most: nat) {
    && TakesMicro(s)
    && MICRO_HEADER_SIZE + 4096 <= s.microSize <= MICRO_HEADER_SIZE + 4096 + least * most
  }

  /** The row is at least `least` bytes long, and with an index of `most` rows it fits in the 4 KB that the writer
      leaves free. */
  predicate SuitedRow(r: Row, least: nat, most: nat) {
    least <= |EncodeRow(r)| <= 4096 - 4 * most
  }

  ghost predicate Suited(s: StoreDesc, rows: seq<Row>, least: nat, most: nat) {
    Ample(s, least, most) && forall i :: 0 <= i < |rows| ==> SuitedRow(rows[i], least, most)
  }

  lemma Fewer(d: nat, n: nat, m: nat)
    requires d * n < d * m
    ensures n < m
  {
  }

  lemma WaitingBound(s: StoreDesc, waiting: seq<Row>, least: nat, most: nat)
    requires Suited(s, waiting, least, most) && !Full(s, waiting)
    ensures |waiting| + 1 <= most
  {
    forall i | 0 <= i < |waiting| ensures |EncodeRow(waiting[i])| >= least {
      assert SuitedRow(waiting[i], least, most);
    }
    RowsAtLeast(waiting, least);
    Fewer(least, |waiting|, most);
  }

  lemma {:induction false} WaitingSuited(s: StoreDesc, rows: seq<Row>, least: nat, most: nat)
    requires Suited(s, rows, least, most)
    ensures Suited(s, Waiting(s, rows), least, most)
    decreases |rows|
  {
    if rows != [] {
      WaitingSuited(s, rows[..|rows| - 1], least, most);
      assert SuitedRow(rows[|rows| - 1], least, most);
    }
  }

  /** Rows of about the same size: `most` of the shortest fill a micro block, and their index leaves room for the
      longest. */
  lemma SuitedHasSlack(s: StoreDesc, rows: seq<Row>, least: nat, most: nat)
    requires most > 0 && Suited(s, rows, least, most)
    ensures SlackLeft(s, rows)
  {
    forall i | 0 <= i < |rows| ensures |EncodeRow(rows[i])| + 4 * (|Waiting(s, rows[..i])| + 1) <= 4096 {
      assert SuitedRow(rows[i], least, most);
      WaitingSuited(s, rows[..i], least, most);
      WaitingNotFull(s, rows[..i]);
      if Waiting(s, rows[..i]) != [] {
        WaitingBound(s, Waiting(s, rows[..i]), least, most);
      }
    }
  }

  /** Rows that suit the configured sizes are never lost, however many there are. */
  lemma SuitedRunReadsBack(s: StoreDesc, rows: seq<Row>, least: nat, most: nat, bytes: seq<seq<byte>>)
    requires most > 0 && Suited(s, rows, least, most) && Encoded(s.desc, Flush(s, Run(s, rows)).emitted, bytes)
    ensures Contents(bytes) == Some(rows)
  {
    SuitedHasSlack(s, rows, least, most);
    SlackIsEnough(s, rows);
    FittingRunReadsBack(s, rows, bytes);
  }

  /** Macro block number `i` of a writer; the number after the first is never used, as the second buffer gets a new
      number when the writer switches to it. */
  function SeqOf(base: int, i: nat): int {
    if i == 0 then base else base + i + 1
  }

  /** Writers that run side by side never give the same number as long as each emits fewer than a million blocks. */
  lemma SeqsDistinct(p: nat, q: nat, i: nat, j: nat)
    requires i < 999999 && j < 999999
    ensures SeqOf(p * 1000000 + 1, i) == SeqOf(q * 1000000 + 1, j) <==> p == q && i == j
  {
  }

  lemma SeqsCollide(p: nat)
    ensures SeqOf(p * 1000000 + 1, 999999) == SeqOf((p + 1) * 1000000 + 1, 0)
  {
  }

  /** A row that fills a micro block for which no macro block has room is refused. */
  lemma BigRowIsRefused(d: Desc, row: Row)
    requires |row.key| + |row.value| == 8192
    ensures Refused(StoreDesc(d, HEADER_RESERVE + 8192, 8192), FRESH, row)
  {
    RowsGrow([], row);
    assert [] + [row] == [row];
  }

  /** With macro blocks too small for one micro block, an append that reports success can drop the row. */
  lemma RowIsDropped(d: Desc, row: Row)
    requires |row.key| + |row.value| == 100
    ensures var s := StoreDesc(d, HEADER_RESERVE + 100, 8192);
            Sane(s) && !Refused(s, FRESH, row) && !KeptBy(s, FRESH, row)
  {
    RowsGrow([], row);
    assert [] + [row] == [row];
  }

  /** That is the only way to lose rows without notice: with larger macro blocks an append fails to keep what is pending
      if and only if it is refused. */
  lemma LossIsReported(s: StoreDesc, b: Books, row: Row)
    requires Settled(s, b) && HEADER_RESERVE + s.microSize <= s.macroSize
    ensures Refused(s, b, row) <==> !KeptBy(s, b, row)
  {
  }
}

/** The writers, which build blocks in place. */
module BlockWriterObject {
  import opened Common
  import opened Bytes
  import opened Framing
  import opened RowFormat
  import opened MicroFormat
  import opened MacroFormat
  import opened BlockWriterSpec

  class MicroBlockWriter {
    var desc: Desc
    var dataBuf: seq<byte>
    var rowOffsets: seq<nat>
    var currentSize: nat
    var rowCount: nat

    ghost var rows: seq<Row>

    ghost predicate Valid()
      reads this
    {
      && dataBuf == Blank(MICRO_HEADER_SIZE) + Rows(rows)
      && rowOffsets == Starts(rows)
      && currentSize == |dataBuf| && rowCount == |rows|
    }

    constructor (d: Desc)
      ensures Valid() && desc == d && rows == []
    {
      desc, rows := d, [];
      dataBuf, rowOffsets := Blank(MICRO_HEADER_SIZE), [];
      currentSize, rowCount := MICRO_HEADER_SIZE, 0;
    }

    method Reset()
      modifies this
      ensures Valid() && rows == [] && desc == old(desc)
    {
      rows := [];
      dataBuf, rowOffsets := Blank(MICRO_HEADER_SIZE), [];
      currentSize, rowCount := MICRO_HEADER_SIZE, 0;
    }

    method AppendRow(row: Row)
      requires Valid()
      modifies this
      ensures Valid() && rows == old(rows) + [row] && desc == old(desc)
    {
      StartsGrow(rows, row);
      FlattenAppends(EncodeRow, rows, row);
      Assoc(Blank(MICRO_HEADER_SIZE), Rows(rows), EncodeRow(row));
      var rowStart := |dataBuf|;
      dataBuf := dataBuf + EncodeRow(row);
      rowOffsets := rowOffsets + [rowStart];
      currentSize := |dataBuf|;
      rowCount := rowCount + 1;
      rows := rows + [row];
    }

    /** The row index goes behind the rows. */
    method AppendIndex()
      modifies this`dataBuf
      ensures dataBuf == old(dataBuf) + Flatten(PutStart, rowOffsets)
    {
      for i := 0 to |rowOffsets|
        modifies this`dataBuf
        invariant dataBuf == old(dataBuf) + Flatten(PutStart, rowOffsets[..i])
      {
        FlattenAppends(PutStart, rowOffsets[..i], rowOffsets[i]);
        assert rowOffsets[..i + 1] == rowOffsets[..i] + [rowOffsets[i]];
        dataBuf := dataBuf + PutStart(rowOffsets[i]);
      }
      assert rowOffsets[..|rowOffsets|] == rowOffsets;
    }

    /** The finished block; the writer starts over. */
    method BuildBlock() returns (out: seq<byte>)
      requires Valid()
      modifies this
      ensures Valid() && rows == [] && desc == old(desc)
      ensures out == if old(rows) == [] then [] else BuildMicro(desc, old(rows))
    {
      if rowCount == 0 {
        return [];
      }
      var indexStart := |dataBuf|;
      AppendIndex();
      var header := MicroHeader(desc, rowCount, indexStart, |dataBuf|);
      out := header + dataBuf[MICRO_HEADER_SIZE..];
      Built(desc, rows, dataBuf, header);
      Reset();
    }
  }

  lemma Built(d: Desc, rows: seq<Row>, buf: seq<byte>, header: seq<byte>)
    requires buf == Blank(MICRO_HEADER_SIZE) + Rows(rows) + Flatten(PutStart, Starts(rows))
    requires header == MicroHeader(d, |rows|, MICRO_HEADER_SIZE + |Rows(rows)|, |buf|)
    ensures header + buf[MICRO_HEADER_SIZE..] == BuildMicro(d, rows)
  {
    IndexSize(Starts(rows));
    HeaderOver(header, Blank(MICRO_HEADER_SIZE), Rows(rows), Flatten(PutStart, Starts(rows)));
  }

  lemma HeaderOver(head: seq<byte>, blank: seq<byte>, body: seq<byte>, index: seq<byte>)
    ensures head + (blank + body + index)[|blank|..] == head + body + index
  {
  }

  lemma StartsGrow(rows: seq<Row>, row: Row)
    ensures Starts(rows + [row]) == Starts(rows) + [MICRO_HEADER_SIZE + |Rows(rows)|]
  {
    var more := rows + [row];
    assert more[..|rows|] == rows;
    forall i | 0 <= i < |rows| ensures Starts(more)[i] == Starts(rows)[i] {
      assert more[..i] == rows[..i];
    }
  }

  lemma EmittedUnfolds(d: Desc, rowCount: nat, micros: seq<seq<Row>>, n: nat)
    requires |micros| <= n && |Image(d, micros)| >= HEADER_RESERVE
    ensures Emitted(d, rowCount, micros, n - |micros|) == BuildMacro(d, rowCount, n, Image(d, micros))
  {
  }

  class MacroBlock {
    var store: StoreDesc
    var data: array<byte>
    var dataSize: nat
    var macroSeq: int
    var rowCount: nat
    var microCount: nat
    var inited: bool

    ghost var contents: seq<byte>

    ghost predicate Valid()
      reads this, data
    {
      && Sane(store) && data.Length == store.macroSize && HEADER_RESERVE <= dataSize <= store.macroSize
      && contents == data[..dataSize]
    }

    constructor (s: StoreDesc, n: int)
      requires Sane(s)
      ensures Valid() && inited && fresh(data) && store == s && macroSeq == n && rowCount == 0 && microCount == 0
      ensures dataSize == HEADER_RESERVE && contents == Blank(HEADER_RESERVE)
    {
      store, macroSeq, rowCount, microCount, dataSize, inited := s, n, 0, 0, HEADER_RESERVE, true;
      data := new byte[s.macroSize](_ => 0);
      contents := Blank(HEADER_RESERVE);
    }

    method Init(s: StoreDesc, n: int)
      requires Sane(s)
      modifies this
      ensures Valid() && inited && fresh(data) && store == s && macroSeq == n && rowCount == 0 && microCount == 0
      ensures dataSize == HEADER_RESERVE && contents == Blank(HEADER_RESERVE)
    {
      store, macroSeq, rowCount, microCount, dataSize, inited := s, n, 0, 0, HEADER_RESERVE, true;
      data := new byte[s.macroSize](_ => 0);
      contents := Blank(HEADER_RESERVE);
    }

    /** The micro block goes behind what is there if there is room for it. */
    method WriteMicroBlock(micro: seq<byte>) returns (ok: bool)
      requires Valid()
      modifies this`dataSize, this`contents, data
      ensures Valid() && (ok <==> inited && old(dataSize) + |micro| <= store.macroSize)
      ensures contents == if ok then old(contents) + micro else old(contents)
    {
      if !inited || dataSize + |micro| > store.macroSize {
        return false;
      }
      for i := 0 to |micro|
        modifies data
        invariant data[..dataSize + i] == contents + micro[..i]
      {
        data[dataSize + i] := micro[i];
        assert data[..dataSize + i + 1] == data[..dataSize + i] + [micro[i]];
      }
      assert micro[..|micro|] == micro;
      dataSize := dataSize + |micro|;
      contents := contents + micro;
      ok := true;
    }

    /** Both headers and the data. */
    method Seal(ghost image: seq<byte>) returns (out: seq<byte>)
      requires Valid() && contents == image
      ensures out == BuildMacro(store.desc, rowCount, microCount, image)
    {
      out := CommonHeader(dataSize) + FixedHeader(store.desc, rowCount, dataSize, microCount) + data[..dataSize];
    }

    method SealMicros(ghost micros: seq<seq<Row>>) returns (out: seq<byte>)
      requires Valid() && contents == Image(store.desc, micros) && microCount >= |micros|
      ensures out == Emitted(store.desc, rowCount, micros, microCount - |micros|)
    {
      EmittedUnfolds(store.desc, rowCount, micros, microCount);
      out := Seal(Image(store.desc, micros));
    }

    /** The block is ready for the file and takes no more writes. */
    method Finish(ghost d: Desc, ghost n: nat, ghost micros: seq<seq<Row>>, ghost phantom: nat)
      returns (out: seq<byte>)
      requires Valid() && store.desc == d && rowCount == n && microCount == |micros| + phantom
      requires contents == Image(d, micros)
      modifies this`inited
      ensures Valid() && !inited && out == Emitted(d, n, micros, phantom)
    {
      out := SealMicros(micros);
      inited := false;
    }
  }

  // ---------------------------------------------------------------- the double-buffered writer

  class MacroBlockWriter {
    const micro: MicroBlockWriter
    const store: StoreDesc
    var cur: MacroBlock
    var spare: MacroBlock
    var macroSeq: int
    var totalRows: nat
    var isOpen: bool

    // The state of the writer as a value, and the number of its first block.
    ghost var books: Books
    ghost const base: int

    // The bytes of a micro block and of a macro block, by name only, so that most proofs do not look into them.
    ghost const enc: seq<Row> -> seq<byte>
    ghost const seal: Block -> seq<byte>

    ghost predicate Codec() {
      && (forall rows {:trigger BuildMicro(store.desc, rows)} :: enc(rows) == BuildMicro(store.desc, rows))
      && (forall b {:trigger BytesOf(store.desc, b)} :: seal(b) == BytesOf(store.desc, b))
    }

    /** The caller is given the block that goes out, if one does, and its number. */
    ghost predicate Told(before: Books, after: Books, flushed: Option<(seq<byte>, int)>) {
      match flushed
      case None => after.emitted == before.emitted
      case Some(f) => |after.emitted| == |before.emitted| + 1 && f.0 == seal(after.emitted[|before.emitted|])
                      && f.1 == SeqOf(base, |before.emitted|)
    }

    /** The current macro block holds what the books say. */
    ghost predicate CurOk()
      reads this, cur, cur.data
    {
      && Sane(store) && cur != spare
      && cur.Valid() && cur.store == store && cur.inited && cur.rowCount == books.rowCount
      && cur.contents == Grown(enc, Blank(HEADER_RESERVE), books.micros) && cur.dataSize == Total(books.micros)
    }

    ghost predicate MicroOk()
      reads this, micro
    {
      micro.Valid() && micro.desc == store.desc && micro.rows == books.pending && totalRows == |books.appended|
    }

    ghost predicate NumbersOk()
      reads this, cur
    {
      macroSeq == base + |books.emitted| + 2 && cur.macroSeq == SeqOf(base, |books.emitted|)
    }

    ghost predicate Linked()
      reads this, micro, cur, cur.data
    {
      Codec() && CurOk() && MicroOk() && NumbersOk() && cur.microCount == |books.micros|
    }

    ghost predicate Valid()
      reads this, micro, cur, cur.data
    {
      Linked() && Sound(store, books) && Settled(store, books)
    }

    constructor Open(s: StoreDesc, parallel: int)
      requires Sane(s)
      ensures Valid() && isOpen && store == s && base == parallel * 1000000 + 1 && books == FRESH
      ensures seal == Sealer(s.desc)
      ensures fresh(micro) && fresh(cur) && fresh(spare) && fresh(cur.data)
    {
      store, totalRows, isOpen := s, 0, true;
      books, base, enc, seal := FRESH, parallel * 1000000 + 1, MicroOf(s.desc), Sealer(s.desc);
      micro := new MicroBlockWriter(s.desc);
      cur := new MacroBlock(s, parallel * 1000000 + 1);
      spare := new MacroBlock(s, parallel * 1000000 + 2);
      macroSeq := parallel * 1000000 + 3;
      FreshSound(s);
    }

    /** The other buffer is made ready and becomes the current one. */
    method Switch()
      requires Sane(store) && cur != spare
      modifies this`cur, this`spare, this`macroSeq, spare
      ensures cur == old(spare) && spare == old(cur) && cur.Valid() && cur.inited && cur.store == store
              && fresh(cur.data)
      ensures cur.macroSeq == old(macroSeq) && macroSeq == old(macroSeq) + 1
      ensures cur.rowCount == 0 && cur.microCount == 0 && cur.contents == Blank(HEADER_RESERVE)
    {
      cur, spare := spare, cur;
      cur.Init(store, macroSeq);
      macroSeq := macroSeq + 1;
    }

    /** The current macro block goes out. */
    lemma ContentsAre()
      requires Codec()
      ensures Grown(enc, Blank(HEADER_RESERVE), books.micros) == Image(store.desc, books.micros)
      ensures |Image(store.desc, books.micros)| == Total(books.micros) >= HEADER_RESERVE
    {
      forall rows: seq<Row> ensures enc(rows) == MicroOf(store.desc)(rows) {
        assert enc(rows) == BuildMicro(store.desc, rows);
      }
      GrownSame(enc, MicroOf(store.desc), Blank(HEADER_RESERVE), books.micros);
      TotalIs(store.desc, books.micros);
    }

    lemma SealIs(rowCount: nat, micros: seq<seq<Row>>, phantom: nat)
      requires Codec()
      ensures seal(Block(rowCount, micros, phantom)) == Emitted(store.desc, rowCount, micros, phantom)
    {
      assert BytesOf(store.desc, Block(rowCount, micros, phantom)) == Emitted(store.desc, rowCount, micros, phantom);
    }

    method SealCurrent(ghost phantom: nat) returns (out: seq<byte>)
      requires Codec() && CurOk() && cur.microCount == |books.micros| + phantom
      modifies cur`inited
      ensures out == seal(Block(books.rowCount, books.micros, phantom))
    {
      ContentsAre();
      SealIs(books.rowCount, books.micros, phantom);
      out := cur.Finish(store.desc, books.rowCount, books.micros, phantom);
    }

    method FlushCurrent(ghost phantom: nat) returns (out: seq<byte>, n: int)
      requires Codec() && CurOk() && NumbersOk() && cur.microCount == |books.micros| + phantom
      modifies this`cur, this`spare, this`macroSeq, this`books, cur, spare
      ensures CurOk() && NumbersOk() && cur.microCount == 0 && books == Emit(old(books), phantom)
      ensures out == seal(books.emitted[|old(books.emitted)|]) && n == SeqOf(base, |old(books.emitted)|)
      ensures fresh(cur.data) && cur == old(spare) && spare == old(cur)
    {
      out := SealCurrent(phantom);
      n := cur.macroSeq;
      Switch();
      books := Emit(books, phantom);
    }

    method PutMicro(block: seq<byte>, ghost rows: seq<Row>) returns (ok: bool)
      requires CurOk() && block == enc(rows) && |block| == MicroSize(rows)
      modifies cur`dataSize, cur`contents, cur.data, this`books
      ensures CurOk() && (ok <==> Fits(store, Total(old(books.micros)), rows))
      ensures books == if ok then old(books).(micros := old(books.micros) + [rows]) else old(books)
    {
      TotalAppend(books.micros, rows);
      GrownAppend(enc, Blank(HEADER_RESERVE), books.micros, rows);
      ok := cur.WriteMicroBlock(block);
      books := if ok then books.(micros := books.micros + [rows]) else books;
    }

    /** The pending rows become a micro block of the current macro block, if it has room; the count is the caller's. */
    method StoreMicro() returns (ok: bool)
      requires Codec() && CurOk() && MicroOk() && books.pending != []
      modifies micro, cur`dataSize, cur`contents, cur.data, this`books
      ensures CurOk() && MicroOk() && books == Store(store, old(books)) && (ok <==> HasRoom(store, old(books)))
    {
      ghost var rows := micro.rows;
      var block := micro.BuildBlock();
      ok := PutMicro(block, rows);
      books := books.(pending := [], intact := books.intact && ok);
    }

    method TakeRow(row: Row)
      requires CurOk() && MicroOk()
      modifies micro, cur`rowCount, this`totalRows, this`books
      ensures CurOk() && MicroOk() && books == Take(old(books), row)
    {
      micro.AppendRow(row);
      totalRows := totalRows + 1;
      cur.rowCount := cur.rowCount + 1;
      books := Take(books, row);
    }

    /** What is pending is written and counted; whether the write found room is not looked at. */
    method WritePending() returns (ghost phantom: nat)
      requires Linked()
      modifies this`books, micro, cur`dataSize, cur`contents, cur`microCount, cur.data
      ensures CurOk() && MicroOk() && NumbersOk() && cur.microCount == |books.micros| + phantom
      ensures books == (if old(books.pending) == [] then old(books) else Store(store, old(books)))
      ensures phantom == if old(books.pending) == [] || HasRoom(store, old(books)) then 0 else 1
    {
      phantom := 0;
      if micro.rowCount > 0 {
        var ok := StoreMicro();
        cur.microCount := cur.microCount + 1;
        phantom := if ok then 0 else 1;
      }
    }

    /** What is pending is written, and the macro block goes out. */
    method FlushAll() returns (out: seq<byte>, n: int)
      requires Linked()
      modifies this`cur, this`spare, this`macroSeq, this`books, micro, cur, spare, cur.data
      ensures Linked() && books == Flush(store, old(books))
      ensures out == seal(books.emitted[|old(books.emitted)|]) && n == SeqOf(base, |old(books.emitted)|)
      ensures fresh(cur.data) && cur == old(spare) && spare == old(cur)
    {
      ghost var phantom := WritePending();
      out, n := FlushCurrent(phantom);
    }

    method StoreIfFull() returns (ok: bool)
      requires Linked() && books.pending != []
      modifies this`books, micro, cur`dataSize, cur`contents, cur`microCount, cur.data
      ensures Linked() && books == (if Full(store, old(books.pending)) then Store(store, old(books)) else old(books))
      ensures ok <==> (Full(store, old(books.pending)) ==> HasRoom(store, old(books)))
    {
      ok := true;
      if micro.currentSize >= store.microSize - 4096 {
        ok := StoreMicro();
        if ok {
          cur.microCount := cur.microCount + 1;
        }
      }
    }

    /** The row is taken, and a micro block that it fills is written. */
    method TakeAndStoreRow(row: Row) returns (ok: bool)
      requires Linked()
      modifies this`books, this`totalRows, micro, cur`rowCount, cur`dataSize, cur`contents, cur`microCount, cur.data
      ensures Linked() && books == TakeAndStore(store, old(books), row) && (ok <==> !Refused(store, old(books), row))
    {
      TakeRow(row);
      ok := StoreIfFull();
    }

    method AppendLinked(row: Row) returns (ok: bool, flushed: Option<(seq<byte>, int)>)
      requires Linked()
      modifies this, micro, cur, spare, cur.data
      ensures Linked() && books == Append(store, old(books), row) && (ok <==> !Refused(store, old(books), row))
      ensures isOpen == old(isOpen) && Told(old(books), books, flushed) && (!ok ==> flushed == None)
      ensures cur.data == old(cur.data) || fresh(cur.data)
      ensures (cur == old(cur) || cur == old(spare)) && (spare == old(cur) || spare == old(spare))
    {
      flushed := None;
      ok := TakeAndStoreRow(row);
      if ok && store.macroSize - cur.dataSize < store.microSize {
        var out, n := FlushAll();
        flushed := Some((out, n));
      }
    }

    /** Every block that goes out is handed to the caller. */
    method AppendRow(row: Row) returns (ok: bool, flushed: Option<(seq<byte>, int)>)
      requires Valid()
      modifies this, micro, cur, spare, cur.data
      ensures Valid() && isOpen == old(isOpen)
      ensures cur.data == old(cur.data) || fresh(cur.data)
      ensures (cur == old(cur) || cur == old(spare)) && (spare == old(cur) || spare == old(spare))
      ensures !ok ==> flushed == None
      ensures !isOpen ==> !ok && books == old(books)
      ensures isOpen ==> books == Append(store, old(books), row) && (ok <==> !Refused(store, old(books), row))
      ensures Told(old(books), books, flushed)
    {
      if !isOpen {
        return false, None;
      }
      RunStep(store, books, row);
      ok, flushed := AppendLinked(row);
    }

    method CloseLinked() returns (flushed: Option<(seq<byte>, int)>)
      requires Linked()
      modifies this, micro, cur, spare, cur.data
      ensures Linked() && !isOpen && books == Flush(store, old(books)) && flushed.Some?
              && Told(old(books), books, flushed)
      ensures fresh(cur.data) && cur == old(spare) && spare == old(cur)
    {
      isOpen := false;
      var out, n := FlushAll();
      flushed := Some((out, n));
    }

    /** The last block, which may be empty, goes out, and no more rows are taken. */
    method Close() returns (ok: bool, flushed: Option<(seq<byte>, int)>)
      requires Valid()
      modifies this, micro, cur, spare, cur.data
      ensures Valid() && !isOpen && ok == old(isOpen)
      ensures cur.data == old(cur.data) || fresh(cur.data)
      ensures (cur == old(cur) || cur == old(spare)) && (spare == old(cur) || spare == old(spare))
      ensures books == (if ok then Flush(store, old(books)) else old(books)) && flushed.Some? == ok
      ensures Told(old(books), books, flushed)
    {
      if !isOpen {
        return false, None;
      }
      CloseStep(store, books);
      flushed := CloseLinked();
      ok := true;
    }
  }
}
