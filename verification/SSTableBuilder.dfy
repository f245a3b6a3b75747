/** From the rows of a frozen memtable to a table on disk and back. */
module SSTableBuilderObject {
  import opened Common
  import Bytes
  import opened RowFormat
  import opened BlockWriterSpec
  import MicroFormat
  import MacroFormat
  import SSTableMetaSpec
  import Table = SSTableObject
  import opened BlockWriterObject

  class SSTableBuilder {
    const writer: MacroBlockWriter
    var macroBlocks: seq<seq<byte>>
    var macroSeqs: seq<int>

    ghost predicate Valid()
      reads this, writer, writer.micro, writer.cur, writer.cur.data
    {
      writer.Valid() && Collected(writer.books.emitted, writer.seal, writer.base, macroBlocks, macroSeqs)
    }

    constructor (s: StoreDesc)
      requires Sane(s)
      ensures Valid() && writer.isOpen && writer.store == s && writer.base == 1 && writer.books == FRESH
      ensures writer.seal == Sealer(s.desc)
      ensures fresh(writer) && fresh(writer.micro) && fresh(writer.cur) && fresh(writer.spare) && fresh(writer.cur.data)
    {
      writer := new MacroBlockWriter.Open(s, 0);
      macroBlocks, macroSeqs := [], [];
    }

    method AppendRow(row: Row) returns (ok: bool)
      requires Valid() && writer.isOpen
      modifies this, writer, writer.micro, writer.cur, writer.spare, writer.cur.data
      ensures Valid() && writer.isOpen && writer.books == Append(writer.store, old(writer.books), row)
      ensures ok <==> !Refused(writer.store, old(writer.books), row)
      ensures writer.cur.data == old(writer.cur.data) || fresh(writer.cur.data)
      ensures writer.cur == old(writer.cur) || writer.cur == old(writer.spare)
      ensures writer.spare == old(writer.cur) || writer.spare == old(writer.spare)
    {
      ghost var before := writer.books;
      var flushed;
      ok, flushed := writer.AppendRow(row);
      AppendEmits(writer.store, before, row);
      Collect(flushed, before.emitted, writer.books.emitted);
    }

    /** A block that goes out is added to the table. */
    method Collect(flushed: Option<(seq<byte>, int)>, ghost before: seq<Block>, ghost after: seq<Block>)
      requires Collected(before, writer.seal, writer.base, macroBlocks, macroSeqs)
      requires |before| <= |after| <= |before| + 1 && after[..|before|] == before
      requires match flushed
               case None => after == before
               case Some(f) => |after| == |before| + 1 && f.0 == writer.seal(after[|before|])
                               && f.1 == SeqOf(writer.base, |before|)
      modifies this`macroBlocks, this`macroSeqs
      ensures Collected(after, writer.seal, writer.base, macroBlocks, macroSeqs)
    {
      CollectMore(before, after, writer.seal, writer.base, macroBlocks, macroSeqs);
      if flushed.Some? {
        macroBlocks := macroBlocks + [flushed.value.0];
        macroSeqs := macroSeqs + [flushed.value.1];
      }
    }

    /** Every row is appended, whatever the append returns. */
    method AppendAll(rows: seq<Row>)
      requires Valid() && writer.isOpen && writer.books == FRESH
      modifies this, writer, writer.micro, writer.cur, writer.spare, writer.cur.data
      ensures Valid() && writer.isOpen && writer.books == Run(writer.store, rows)
      ensures writer.cur.data == old(writer.cur.data) || fresh(writer.cur.data)
      ensures writer.cur == old(writer.cur) || writer.cur == old(writer.spare)
      ensures writer.spare == old(writer.cur) || writer.spare == old(writer.spare)
    {
      for i := 0 to |rows|
        invariant Valid() && writer.isOpen && writer.books == Run(writer.store, rows[..i])
        invariant writer.cur.data == old(writer.cur.data) || fresh(writer.cur.data)
        invariant writer.cur == old(writer.cur) || writer.cur == old(writer.spare)
        invariant writer.spare == old(writer.cur) || writer.spare == old(writer.spare)
      {
        var _ := AppendRow(rows[i]);
        RunStepAt(writer.store, rows, i);
      }
      assert rows[..|rows|] == rows;
    }

    /** The writer's last block is added; the table is made of all blocks. */
    method Finish() returns (ok: bool)
      requires Valid() && writer.isOpen
      modifies this, writer, writer.micro, writer.cur, writer.spare, writer.cur.data
      ensures ok && var emitted := Flush(writer.store, old(writer.books)).emitted;
                    Collected(emitted, writer.seal, writer.base, macroBlocks, macroSeqs)
    {
      ghost var before := writer.books;
      var flushed;
      ok, flushed := writer.Close();
      FlushEmits(writer.store, before);
      Collect(flushed, before.emitted, writer.books.emitted);
    }
  }

  ghost predicate Collected(emitted: seq<Block>, seal: Block -> seq<byte>, base: int, blocks: seq<seq<byte>>,
                            seqs: seq<int>) {
    && |blocks| == |emitted| && |seqs| == |emitted|
    && (forall i :: 0 <= i < |emitted| ==> blocks[i] == seal(emitted[i]))
    && (forall i :: 0 <= i < |emitted| ==> seqs[i] == SeqOf(base, i))
  }

  /** An append emits at most one block and leaves the others as they are. */
  lemma AppendEmits(s: StoreDesc, b: Books, row: Row)
    ensures var next := Append(s, b, row).emitted;
            |b.emitted| <= |next| <= |b.emitted| + 1 && next[..|b.emitted|] == b.emitted
  {
  }

  lemma FlushEmits(s: StoreDesc, b: Books)
    ensures var next := Flush(s, b).emitted;
            |next| == |b.emitted| + 1 && next[..|b.emitted|] == b.emitted
  {
  }

  lemma CollectMore(before: seq<Block>, after: seq<Block>, seal: Block -> seq<byte>, base: int, blocks: seq<seq<byte>>,
                    seqs: seq<int>)
    requires Collected(before, seal, base, blocks, seqs)
    requires |before| <= |after| <= |before| + 1 && after[..|before|] == before
    ensures |after| == |before| ==> Collected(after, seal, base, blocks, seqs)
    ensures |after| > |before| ==>
              Collected(after, seal, base, blocks + [seal(after[|before|])], seqs + [SeqOf(base, |before|)])
  {
    if |after| == |before| {
      assert after == before;
    } else {
      assert after == before + [after[|before|]];
    }
  }

  // ---------------------------------------------------------------- a mini merge, and reading the table back

  lemma {:induction false} RunEmitsFew(s: StoreDesc, rows: seq<Row>)
    ensures |Run(s, rows).emitted| <= |rows|
    decreases |rows|
  {
    if rows != [] {
      RunEmitsFew(s, rows[..|rows| - 1]);
      AppendEmits(s, Run(s, rows[..|rows| - 1]), rows[|rows| - 1]);
    }
  }

  lemma {:induction false} ConcatSmall(blocks: seq<seq<byte>>, most: nat)
    requires forall i :: 0 <= i < |blocks| ==> |blocks[i]| <= most
    ensures |Table.Concat(blocks)| <= |blocks| * most
    decreases |blocks|
  {
    if blocks != [] {
      ConcatSmall(blocks[1..], most);
    }
  }

  lemma BlockSize(s: StoreDesc, b: Block)
    requires Sane(s) && Plain(s, b, false)
    ensures |BytesOf(s.desc, b)| <= 0x1_0000_0000
  {
    MacroFormat.TotalIs(s.desc, b.micros);
  }

  /** Fewer than two thousand million rows give files whose sizes fit in 64 bits. */
  lemma FilesFit(s: StoreDesc, rows: seq<Row>, blocks: seq<seq<byte>>)
    requires Sane(s) && |rows| < 0x7FFF_FFFF && Encoded(s.desc, Flush(s, Run(s, rows)).emitted, blocks)
    ensures |blocks| <= 0x7FFF_FFFF && |Table.Concat(blocks)| < Table.I64_LIMIT
  {
    var emitted := Flush(s, Run(s, rows)).emitted;
    RunEmitsFew(s, rows);
    FlushEmits(s, Run(s, rows));
    RunSound(s, rows);
    FlushSound(s, Run(s, rows));
    forall i | 0 <= i < |blocks| ensures |blocks[i]| <= 0x1_0000_0000 {
      assert Plain(s, emitted[i], false);
      BlockSize(s, emitted[i]);
    }
    ConcatSmall(blocks, 0x1_0000_0000);
  }

  lemma RunStepAt(s: StoreDesc, rows: seq<Row>, i: nat)
    requires i < |rows|
    ensures Run(s, rows[..i + 1]) == Append(s, Run(s, rows[..i]), rows[i])
  {
    assert rows[..i + 1][..i] == rows[..i];
  }

  lemma CollectedIsEncoded(d: MicroFormat.Desc, emitted: seq<Block>, seal: Block -> seq<byte>, blocks: seq<seq<byte>>,
                           seqs: seq<int>)
    requires seal == Sealer(d) && Collected(emitted, seal, 1, blocks, seqs)
    ensures Encoded(d, emitted, blocks)
  {
  }

  /** The rows are appended, and the last block is flushed. */
  method BuildBlocks(s: StoreDesc, rows: seq<Row>) returns (blocks: seq<seq<byte>>, seqs: seq<int>)
    requires Sane(s)
    ensures Encoded(s.desc, Flush(s, Run(s, rows)).emitted, blocks)
    ensures |seqs| == |blocks| && forall i :: 0 <= i < |seqs| ==> seqs[i] == SeqOf(1, i)
  {
    var builder := new SSTableBuilder(s);
    builder.AppendAll(rows);
    ghost var b := builder.writer.books;
    var _ := builder.Finish();
    blocks, seqs := builder.macroBlocks, builder.macroSeqs;
    CollectedIsEncoded(s.desc, Flush(s, b).emitted, builder.writer.seal, blocks, seqs);
  }

  /** The blocks are decoded one after the other. */
  method Decode(blocks: seq<seq<byte>>) returns (rows: Option<seq<Row>>)
    ensures rows == Contents(blocks)
  {
    rows := Some([]);
    for i := 0 to |blocks|
      invariant rows == Contents(blocks[..i])
    {
      assert blocks[..i + 1][..i] == blocks[..i];
      rows := Joined(rows, MacroFormat.DecodeMacro(blocks[i]));
    }
    assert blocks[..|blocks|] == blocks;
  }

  /** The blocks are written to a new table, which is opened again and read block by block. */
  method WriteAndRead(disk: Table.Disk, blocks: seq<seq<byte>>, seqs: seq<Bytes.i64>, base: SSTableMetaSpec.Meta)
    returns (data: seq<seq<byte>>)
    requires SSTableMetaSpec.WellFormed(base) && |seqs| == |blocks| < Table.I64_LIMIT
    requires Table.Room(base.basic, |Table.Concat(blocks)|, |blocks|)
    modifies disk
    ensures data == blocks
  {
    var table, found := Table.WriteThenReopen(disk, blocks, seqs, base);
    data := seq(|found|, i requires 0 <= i < |found| && found[i].Some? => found[i].value);
  }

  /** A mini merge writes the rows to a new table; the table is opened again from its two files, and its blocks are read
      and decoded. The rows come back, all of them and in order, if and only if every append kept its row and the rows
      left at the end found room; they always do if every micro block keeps to the configured size. */
  method MiniMergeThenRead(s: StoreDesc, rows: seq<Row>, disk: Table.Disk, base: SSTableMetaSpec.Meta)
    returns (read: Option<seq<Row>>)
    requires Sane(s) && |rows| < 0x7FFF_FFFF && SSTableMetaSpec.WellFormed(base)
    requires base.basic.fields[SSTableMetaSpec.OCCUPY_SIZE] == 0
             && base.basic.fields[SSTableMetaSpec.MACRO_BLOCK_COUNT] == 0
    modifies disk
    ensures read == Some(rows) <==> NothingLost(s, rows)
    ensures TakesMicro(s) && BlocksFit(s, rows) ==> read == Some(rows)
  {
    var blocks, seqs := BuildBlocks(s, rows);
    FilesFit(s, rows, blocks);
    var data := WriteAndRead(disk, blocks, seqs, base);
    read := Decode(data);
    RunReadsBack(s, rows, blocks);
    if TakesMicro(s) && BlocksFit(s, rows) {
      FittingNothingLost(s, rows);
    }
  }
}
