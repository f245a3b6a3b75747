/** The meta file of a sorted string table: what it holds and how it is laid out. */
module SSTableMetaSpec {
  import opened Common
  import opened Bytes
  import opened Framing

  // Places of the 64-bit fields of the basic meta that the code changes.
  const OCCUPY_SIZE := 1
  const MACRO_BLOCK_COUNT := 6
  const FIELD_COUNT := 12
  const BASIC_SIZE := 104

  /** The basic meta: twelve 64-bit fields, then a 16-bit one and two bytes. */
  datatype Basic = Basic(fields: seq<i64>, treeHeight: i16, rowStoreType: byte, uncommitted: bool)

  /** One macro block in the data file. */
  datatype Macro = Macro(id: i64, offset: i64, size: i64)

  datatype Meta = Meta(basic: Basic, root: seq<byte>, macros: seq<Macro>)

  predicate WellFormed(m: Meta) {
    |m.basic.fields| == FIELD_COUNT && |m.root| < 0x8000_0000_0000_0000 && |m.macros| < 0x8000_0000_0000_0000
  }

  // ---------------------------------------------------------------- writing

  function EncodeMacro(m: Macro): (s: seq<byte>)
    ensures |s| == 24
  {
    Put64(m.id) + Put64(m.offset) + Put64(m.size)
  }

  /** `sizeof` pads the structure with four bytes, which are zero. */
  function EncodeBasic(b: Basic): seq<byte> {
    Flatten(Put64, b.fields) + (Put16(b.treeHeight) + [b.rowStoreType] + [if b.uncommitted then 1 else 0] + Blank(4))
  }

  function Serialize(m: Meta): seq<byte>
    requires WellFormed(m)
  {
    EncodeBasic(m.basic) + (Put64(|m.root|) + (m.root + (Put64(|m.macros|) + Flatten(EncodeMacro, m.macros))))
  }

  lemma {:induction false} FieldAt(fields: seq<i64>, i: nat)
    requires i < |fields|
    ensures |Flatten(Put64, fields)| == 8 * |fields| && Flatten(Put64, fields)[8 * i..8 * i + 8] == Put64(fields[i])
    decreases |fields|
  {
    var tail := Flatten(Put64, fields[1..]);
    if |fields| > 1 {
      FieldAt(fields[1..], if i == 0 then 0 else i - 1);
    }
    var f := Put64(fields[0]) + tail;
    if i == 0 {
      assert f[0..8] == Put64(fields[0]);
    } else {
      assert f[8 * i..8 * i + 8] == tail[8 * (i - 1)..8 * (i - 1) + 8];
    }
  }

  lemma BasicParts(f: seq<byte>, h: seq<byte>, r: byte, u: byte, from: nat, to: nat)
    requires |f| == 96 && |h| == 2 && from <= to <= 96
    ensures var b := f + (h + [r] + [u] + Blank(4));
            && |b| == 104 && b[from..to] == f[from..to] && b[96..98] == h && b[98] == r && b[99] == u
            && b[100..] == Blank(4)
  {
  }

  /** Field `i` of the basic meta is at byte `8 i`; the tree height, the store type and the flag follow at 96. */
  lemma BasicLayout(b: Basic, i: nat)
    requires |b.fields| == 12 && i < 12
    ensures var s := EncodeBasic(b);
            && |s| == 104 && s[8 * i..8 * i + 8] == Put64(b.fields[i]) && s[96..98] == Put16(b.treeHeight)
            && s[98] == b.rowStoreType && s[99] == (if b.uncommitted then 1 else 0) && s[100..] == Blank(4)
  {
    FieldAt(b.fields, i);
    BasicParts(Flatten(Put64, b.fields), Put16(b.treeHeight), b.rowStoreType, if b.uncommitted then 1 else 0,
               8 * i, 8 * i + 8);
  }

  /** Number, offset, size. */
  lemma MacroLayout(m: Macro)
    ensures var s := EncodeMacro(m); s[0..8] == Put64(m.id) && s[8..16] == Put64(m.offset) && s[16..24] == Put64(m.size)
  {
  }

  lemma {:induction false} MacroAt(ms: seq<Macro>, i: nat)
    requires i < |ms|
    ensures |Flatten(EncodeMacro, ms)| == 24 * |ms|
    ensures Flatten(EncodeMacro, ms)[24 * i..24 * i + 24] == EncodeMacro(ms[i])
    decreases |ms|
  {
    var tail := Flatten(EncodeMacro, ms[1..]);
    if |ms| > 1 {
      MacroAt(ms[1..], if i == 0 then 0 else i - 1);
    }
    var f := EncodeMacro(ms[0]) + tail;
    if i == 0 {
      assert f[0..24] == EncodeMacro(ms[0]);
    } else {
      assert f[24 * i..24 * i + 24] == tail[24 * (i - 1)..24 * (i - 1) + 24];
    }
  }

  lemma MetaParts(b: seq<byte>, rl: seq<byte>, root: seq<byte>, ml: seq<byte>, ms: seq<byte>)
    requires |b| == 104 && |rl| == 8 && |ml| == 8
    ensures var s, r := b + (rl + (root + (ml + ms))), |root|;
            && |s| >= 120 + r && s[..104] == b && s[104..112] == rl && s[112..112 + r] == root
            && s[112 + r..120 + r] == ml && s[120 + r..] == ms
  {
  }

  /** The basic meta, the root block behind its length, and the records behind their number. */
  lemma MetaLayout(m: Meta)
    requires WellFormed(m)
    ensures var s, r := Serialize(m), |m.root|;
            && |s| >= 120 + r && s[..104] == EncodeBasic(m.basic)
            && s[104..112] == Put64(r) && s[112..112 + r] == m.root
            && s[112 + r..120 + r] == Put64(|m.macros|) && s[120 + r..] == Flatten(EncodeMacro, m.macros)
  {
    BasicLayout(m.basic, 0);
    MetaParts(EncodeBasic(m.basic), Put64(|m.root|), m.root, Put64(|m.macros|), Flatten(EncodeMacro, m.macros));
  }

  // ---------------------------------------------------------------- reading

  function DecodeFields(bytes: seq<byte>): seq<i64> {
    if |bytes| < 8 then [] else [Get64(bytes[..8])] + DecodeFields(bytes[8..])
  }

  function DecodeBasic(bytes: seq<byte>): Basic
    requires |bytes| == BASIC_SIZE
  {
    Basic(DecodeFields(bytes[..96]), Get16(bytes[96..98]), bytes[98], bytes[99] != 0)
  }

  function DecodeMacro(bytes: seq<byte>): Macro
    requires |bytes| >= 24
  {
    Macro(Get64(bytes[0..8]), Get64(bytes[8..16]), Get64(bytes[16..24]))
  }

  /** The loop that reads triples until the count is reached or the bytes run out. */
  function DecodeMacros(bytes: seq<byte>, count: int): seq<Macro>
    decreases |bytes|
  {
    if count <= 0 || |bytes| < 24 then [] else [DecodeMacro(bytes)] + DecodeMacros(bytes[24..], count - 1)
  }

  /** `deserialize` into an object that may hold something already: the basic meta is replaced even if the rest is cut
      off, a root block only if there is one, and the records go behind those that are there. */
  function LoadInto(m: Meta, bytes: seq<byte>): (bool, Meta) {
    if |bytes| < BASIC_SIZE then (false, m)
    else LoadRoot(m.(basic := DecodeBasic(bytes[..BASIC_SIZE])), bytes[BASIC_SIZE..])
  }

  function LoadRoot(m: Meta, rest: seq<byte>): (bool, Meta) {
    if |rest| < 8 then (false, m)
    else
      var rootSize, rest2 := Get64(rest[..8]), rest[8..];
      if 0 < rootSize <= |rest2| then LoadMacros(m.(root := rest2[..rootSize]), rest2[rootSize..])
      else LoadMacros(m, rest2)
  }

  function LoadMacros(m: Meta, rest: seq<byte>): (bool, Meta) {
    if |rest| < 8 then (false, m)
    else
      var count := Get64(rest[..8]);
      (true, Meta(WithMacroCount(m.basic, count), m.root, m.macros + DecodeMacros(rest[8..], count)))
  }

  const FRESH_META := Meta(Basic([0, 0, 0, 0, 0, 0, 0, 0, 0, 0, 0, 0], 0, 0, false), [], [])

  /** `deserialize` into a fresh object. */
  function Deserialize(bytes: seq<byte>): Option<Meta> {
    var loaded := LoadInto(FRESH_META, bytes);
    if loaded.0 then Some(loaded.1) else None
  }

  /** It succeeds on the same files as for a fresh object; then the file gives basic meta and root block, and the
      records are the old ones and those of the file. */
  lemma LoadIs(m: Meta, bytes: seq<byte>)
    ensures LoadInto(m, bytes).0 <==> Deserialize(bytes).Some?
    ensures match Deserialize(bytes)
            case None => true
            case Some(x) =>
              LoadInto(m, bytes).1 == Meta(x.basic, if x.root == [] then m.root else x.root, m.macros + x.macros)
  {
  }

  function WithMacroCount(b: Basic, count: i64): Basic {
    if |b.fields| == FIELD_COUNT then b.(fields := b.fields[MACRO_BLOCK_COUNT := count]) else b
  }

  // ---------------------------------------------------------------- reading inverts writing

  lemma {:induction false} FieldsRoundTrip(fields: seq<i64>)
    ensures |Flatten(Put64, fields)| == 8 * |fields|
    ensures DecodeFields(Flatten(Put64, fields)) == fields
    decreases |fields|
  {
    if fields != [] {
      var tail := Flatten(Put64, fields[1..]);
      FieldsRoundTrip(fields[1..]);
      Get64Put64(fields[0]);
      assert (Put64(fields[0]) + tail)[..8] == Put64(fields[0]) && (Put64(fields[0]) + tail)[8..] == tail;
    }
  }

  lemma BasicSlices(f: seq<byte>, h: seq<byte>, r: byte, u: byte, pad: seq<byte>)
    requires |f| == 96 && |h| == 2 && |pad| == 4
    ensures var bytes := f + (h + [r] + [u] + pad);
            |bytes| == BASIC_SIZE && bytes[..96] == f && bytes[96..98] == h && bytes[98] == r && bytes[99] == u
  {
  }

  lemma BasicRoundTrip(b: Basic)
    requires |b.fields| == FIELD_COUNT
    ensures |EncodeBasic(b)| == BASIC_SIZE && DecodeBasic(EncodeBasic(b)) == b
  {
    FieldsRoundTrip(b.fields);
    Get16Put16(b.treeHeight);
    BasicSlices(Flatten(Put64, b.fields), Put16(b.treeHeight), b.rowStoreType,
                if b.uncommitted then 1 else 0, Blank(4));
  }

  lemma MacroRoundTrip(m: Macro, rest: seq<byte>)
    ensures DecodeMacro(EncodeMacro(m) + rest) == m
  {
    var bytes := EncodeMacro(m) + rest;
    Get64Put64(m.id);
    Get64Put64(m.offset);
    Get64Put64(m.size);
    assert bytes[0..8] == Put64(m.id) && bytes[8..16] == Put64(m.offset) && bytes[16..24] == Put64(m.size);
  }

  /** As many records as the count says, whatever follows them. */
  lemma {:induction false} MacrosRoundTrip(ms: seq<Macro>, rest: seq<byte>)
    ensures DecodeMacros(Flatten(EncodeMacro, ms) + rest, |ms|) == ms
    decreases |ms|
  {
    if ms != [] {
      var tail := Flatten(EncodeMacro, ms[1..]);
      MacrosRoundTrip(ms[1..], rest);
      MacroRoundTrip(ms[0], tail + rest);
      Framing.Assoc(EncodeMacro(ms[0]), tail, rest);
      assert (EncodeMacro(ms[0]) + (tail + rest))[24..] == tail + rest;
    }
  }

  lemma Slice8(a: seq<byte>, rest: seq<byte>)
    requires |a| == 8
    ensures (a + rest)[..8] == a && (a + rest)[8..] == rest
  {
  }

  lemma MacrosStage(m: Meta, ms: seq<Macro>)
    requires |ms| < 0x8000_0000_0000_0000
    ensures LoadMacros(m, Put64(|ms|) + Flatten(EncodeMacro, ms)) ==
            (true, Meta(WithMacroCount(m.basic, |ms|), m.root, m.macros + ms))
  {
    Slice8(Put64(|ms|), Flatten(EncodeMacro, ms));
    Get64Put64(|ms|);
    MacrosRoundTrip(ms, []);
    assert Flatten(EncodeMacro, ms) + [] == Flatten(EncodeMacro, ms);
  }

  lemma RootStage(m: Meta, root: seq<byte>, tail: seq<byte>)
    requires |root| < 0x8000_0000_0000_0000
    ensures LoadRoot(m, Put64(|root|) + (root + tail)) == LoadMacros(if root == [] then m else m.(root := root), tail)
  {
    Slice8(Put64(|root|), root + tail);
    Get64Put64(|root|);
    assert (root + tail)[..|root|] == root && (root + tail)[|root|..] == tail;
    assert |root| == 0 ==> root + tail == tail;
  }

  lemma RestStage(was: Meta, root: seq<byte>, ms: seq<Macro>)
    requires |root| < 0x8000_0000_0000_0000 && |ms| < 0x8000_0000_0000_0000
    ensures LoadRoot(was, Put64(|root|) + (root + (Put64(|ms|) + Flatten(EncodeMacro, ms)))) ==
            (true, Meta(WithMacroCount(was.basic, |ms|), if root == [] then was.root else root, was.macros + ms))
  {
    RootStage(was, root, Put64(|ms|) + Flatten(EncodeMacro, ms));
    MacrosStage(if root == [] then was else was.(root := root), ms);
  }

  lemma BasicStage(was: Meta, b: Basic, rest: seq<byte>)
    requires |b.fields| == FIELD_COUNT
    ensures LoadInto(was, EncodeBasic(b) + rest) == LoadRoot(was.(basic := b), rest)
  {
    BasicRoundTrip(b);
    var e := EncodeBasic(b);
    assert (e + rest)[..BASIC_SIZE] == e && (e + rest)[BASIC_SIZE..] == rest;
  }

  lemma LoadSaved(was: Meta, m: Meta)
    requires WellFormed(m)
    ensures LoadInto(was, Serialize(m)) == (true, Meta(WithMacroCount(m.basic, |m.macros|),
                                                       if m.root == [] then was.root else m.root,
                                                       was.macros + m.macros))
  {
    BasicStage(was, m.basic, Put64(|m.root|) + (m.root + (Put64(|m.macros|) + Flatten(EncodeMacro, m.macros))));
    RestStage(was.(basic := m.basic), m.root, m.macros);
  }

  /** Loading what was saved gives the meta back, with the macro block count set to the number of macro blocks. */
  lemma MetaRoundTrip(m: Meta)
    requires WellFormed(m)
    ensures Deserialize(Serialize(m)) == Some(m.(basic := WithMacroCount(m.basic, |m.macros|)))
  {
    LoadSaved(FRESH_META, m);
    assert FRESH_META.macros + m.macros == m.macros;
  }
}

/** The table on disk: macro blocks end to end in the data file, their ranges in the meta file. */
module SSTableObject {
  import opened Common
  import opened Bytes
  import opened Framing
  import opened SSTableMetaSpec

  const I64_LIMIT := 0x8000_0000_0000_0000

  function Same(b: seq<byte>): seq<byte> {
    b
  }

  function Concat(blocks: seq<seq<byte>>): seq<byte> {
    Flatten(Same, blocks)
  }

  /** The records of blocks laid end to end. */
  ghost predicate Tile(macros: seq<Macro>, blocks: seq<seq<byte>>, seqs: seq<i64>) {
    && |macros| == |blocks| == |seqs|
    && forall i :: 0 <= i < |macros| ==>
         && macros[i].id == seqs[i]
         && macros[i].offset == |Concat(blocks[..i])|
         && macros[i].size == |blocks[i]|
  }

  /** What `ifstream::read` leaves in a buffer of `size` zero bytes. */
  function ReadAt(file: seq<byte>, offset: int, size: nat): (out: seq<byte>)
    ensures |out| == size
  {
    if 0 <= offset <= |file| then
      if offset + size <= |file| then file[offset..offset + size]
      else file[offset..] + Blank(size - (|file| - offset))
    else Blank(size)
  }

  lemma ConcatSplit(blocks: seq<seq<byte>>, i: nat)
    requires i < |blocks|
    ensures Concat(blocks) == Concat(blocks[..i]) + blocks[i] + Concat(blocks[i + 1..])
  {
    assert blocks == blocks[..i] + ([blocks[i]] + blocks[i + 1..]);
    FlattenJoin(Same, blocks[..i], [blocks[i]] + blocks[i + 1..]);
    FlattenJoin(Same, [blocks[i]], blocks[i + 1..]);
    assert Concat([blocks[i]]) == blocks[i] + Concat([]);
    assert Concat([blocks[i]]) == blocks[i];
    Framing.Assoc(Concat(blocks[..i]), blocks[i], Concat(blocks[i + 1..]));
  }

  /** The recorded range of a block holds the block. */
  lemma TileReads(macros: seq<Macro>, blocks: seq<seq<byte>>, seqs: seq<i64>, i: nat)
    requires Tile(macros, blocks, seqs) && i < |blocks|
    ensures ReadAt(Concat(blocks), macros[i].offset, macros[i].size) == blocks[i]
  {
    ConcatSplit(blocks, i);
  }

  /** The ranges follow each other without gap or overlap and cover the data file. */
  lemma TileCovers(macros: seq<Macro>, blocks: seq<seq<byte>>, seqs: seq<i64>, i: nat)
    requires Tile(macros, blocks, seqs) && i < |blocks|
    ensures macros[i].offset + macros[i].size == if i + 1 < |blocks| then macros[i + 1].offset else |Concat(blocks)|
    ensures i == 0 ==> macros[i].offset == 0
  {
    assert blocks[..i + 1] == blocks[..i] + [blocks[i]];
    FlattenAppends(Same, blocks[..i], blocks[i]);
    assert i + 1 == |blocks| ==> blocks[..i + 1] == blocks;
  }

  /** The two counters can take `size` more bytes and `n` more blocks. */
  predicate Room(b: Basic, size: int, n: int) {
    && |b.fields| == FIELD_COUNT
    && 0 <= size && 0 <= b.fields[OCCUPY_SIZE] && b.fields[OCCUPY_SIZE] + size < I64_LIMIT
    && 0 <= n && 0 <= b.fields[MACRO_BLOCK_COUNT] && b.fields[MACRO_BLOCK_COUNT] + n < I64_LIMIT
  }

  /** The basic meta after `n` blocks of `size` bytes in all. */
  function Extended(b: Basic, size: int, n: int): Basic
    requires Room(b, size, n)
  {
    var f := b.fields;
    b.(fields := f[OCCUPY_SIZE := f[OCCUPY_SIZE] + size][MACRO_BLOCK_COUNT := f[MACRO_BLOCK_COUNT] + n])
  }

  /** Field 1 is the occupied size, field 6 the number of macro blocks; nothing else changes. */
  lemma ExtendedFields(b: Basic, size: int, n: int)
    requires Room(b, size, n)
    ensures var e := Extended(b, size, n);
            && |e.fields| == 12 && e.fields[1] == b.fields[1] + size && e.fields[6] == b.fields[6] + n
            && (forall i :: 0 <= i < 12 && i != 1 && i != 6 ==> e.fields[i] == b.fields[i])
            && e.(fields := b.fields) == b
  {
  }

  lemma ExtendedByNothing(b: Basic)
    requires Room(b, 0, 0)
    ensures Extended(b, 0, 0) == b
  {
  }

  lemma ExtendOnce(b: Basic, size: int, n: int, more: nat)
    requires Room(b, size + more, n + 1) && size >= 0 && n >= 0
    ensures Room(Extended(b, size, n), more, 1)
            && Extended(Extended(b, size, n), more, 1) == Extended(b, size + more, n + 1)
  {
  }

  /** The two files. */
  class Disk {
    var dataFile: seq<byte>
    var metaFile: seq<byte>
  }

  class SSTable {
    const disk: Disk
    var meta: Meta
    var isInited: bool

    constructor (disk: Disk)
      ensures this.disk == disk && !isInited && meta.macros == [] && meta.root == []
    {
      this.disk := disk;
      meta, isInited := Meta(Basic([], 0, 0, false), [], []), false;
    }

    /** `create_from_blocks` */
    method CreateFromBlocks(blocks: seq<seq<byte>>, seqs: seq<i64>, base: Meta)
      requires WellFormed(base) && |seqs| == |blocks| < I64_LIMIT && Room(base.basic, |Concat(blocks)|, |blocks|)
      modifies this, disk
      ensures isInited && WellFormed(meta) && Tile(meta.macros, blocks, seqs)
      ensures meta.root == base.root && meta.basic == Extended(base.basic, |Concat(blocks)|, |blocks|)
      ensures disk.dataFile == Concat(blocks) && disk.metaFile == Serialize(meta)
      ensures meta.basic.fields[1] == base.basic.fields[1] + |disk.dataFile|
      ensures meta.basic.fields[6] == base.basic.fields[6] + |blocks|
      ensures forall i :: 0 <= i < 12 && i != 1 && i != 6 ==> meta.basic.fields[i] == base.basic.fields[i]
      ensures meta.basic.(fields := base.basic.fields) == base.basic
    {
      ExtendedFields(base.basic, |Concat(blocks)|, |blocks|);
      WriteBlocks(blocks, seqs, base);
      disk.metaFile := Serialize(meta);
      isInited := true;
    }

    /** The loop that writes the data file and collects the records. */
    method WriteBlocks(blocks: seq<seq<byte>>, seqs: seq<i64>, base: Meta)
      requires WellFormed(base) && |seqs| == |blocks| < I64_LIMIT && Room(base.basic, |Concat(blocks)|, |blocks|)
      modifies this`meta, disk`dataFile
      ensures WellFormed(meta) && Tile(meta.macros, blocks, seqs)
      ensures meta.root == base.root && meta.basic == Extended(base.basic, |Concat(blocks)|, |blocks|)
      ensures disk.dataFile == Concat(blocks)
    {
      disk.dataFile := [];
      meta := base.(macros := []);
      ExtendedByNothing(base.basic);
      var offset := 0;
      for i := 0 to |blocks|
        invariant WellFormed(meta) && Tile(meta.macros, blocks[..i], seqs[..i])
        invariant offset == |Concat(blocks[..i])| <= |Concat(blocks)| && disk.dataFile == Concat(blocks[..i])
        invariant meta.root == base.root && meta.basic == Extended(base.basic, offset, i)
      {
        PrefixFits(blocks, i);
        ExtendOnce(base.basic, offset, i, |blocks[i]|);
        disk.dataFile := disk.dataFile + blocks[i];
        AddMacroBlock(seqs[i], offset, |blocks[i]|, blocks[..i], seqs[..i], blocks[i]);
        OneMore(blocks, i);
        OneMore(seqs, i);
        offset := offset + |blocks[i]|;
      }
      assert blocks[..|blocks|] == blocks && seqs[..|seqs|] == seqs;
    }

    method AddMacroBlock(macroSeq: i64, offset: i64, size: i64, ghost blocks: seq<seq<byte>>, ghost seqs: seq<i64>,
                         ghost block: seq<byte>)
      requires WellFormed(meta) && Tile(meta.macros, blocks, seqs) && |blocks| + 1 < I64_LIMIT
      requires offset == |Concat(blocks)| && size == |block| && Room(meta.basic, size, 1)
      modifies this`meta
      ensures WellFormed(meta) && Tile(meta.macros, blocks + [block], seqs + [macroSeq])
      ensures meta.root == old(meta.root) && meta.basic == Extended(old(meta.basic), size, 1)
      ensures meta.macros == old(meta.macros) + [Macro(macroSeq, offset, size)]
    {
      ghost var macros := meta.macros;
      var fields := meta.basic.fields;
      fields := fields[MACRO_BLOCK_COUNT := fields[MACRO_BLOCK_COUNT] + 1];
      fields := fields[OCCUPY_SIZE := fields[OCCUPY_SIZE] + size];
      meta := Meta(meta.basic.(fields := fields), meta.root, meta.macros + [Macro(macroSeq, offset, size)]);
      ExtendTile(macros, blocks, seqs, Macro(macroSeq, offset, size), block);
    }

    /** `init`: loads the meta of a table that is on disk, on top of what the object holds. */
    method Init() returns (ok: bool)
      modifies this`meta, this`isInited
      ensures ok <==> Deserialize(disk.metaFile).Some?
      ensures (ok, meta) == LoadInto(old(meta), disk.metaFile) && isInited == (old(isInited) || ok)
      ensures ok ==> (meta.macros == Deserialize(disk.metaFile).value.macros <==> old(meta.macros) == [])
      ensures ok && old(meta.macros) == [] && old(meta.root) == [] ==> meta == Deserialize(disk.metaFile).value
    {
      LoadIs(meta, disk.metaFile);
      var loaded := LoadInto(meta, disk.metaFile);
      meta := loaded.1;
      ok := loaded.0;
      if !ok {
        return;
      }
      isInited := true;
    }

    method ReadMacroBlock(macroIdx: int) returns (data: Option<seq<byte>>)
      requires forall i :: 0 <= i < |meta.macros| ==> meta.macros[i].size >= 0
      ensures data == if isInited && 0 <= macroIdx < |meta.macros|
                      then Some(ReadAt(disk.dataFile, meta.macros[macroIdx].offset, meta.macros[macroIdx].size))
                      else None
    {
      if !isInited {
        return None;
      }
      if macroIdx < 0 || macroIdx >= |meta.macros| {
        return None;
      }
      data := Some(ReadAt(disk.dataFile, meta.macros[macroIdx].offset, meta.macros[macroIdx].size));
    }
  }

  lemma OneMore<T>(s: seq<T>, i: nat)
    requires i < |s|
    ensures s[..i + 1] == s[..i] + [s[i]]
  {
  }

  lemma PrefixFits(blocks: seq<seq<byte>>, i: nat)
    requires i < |blocks|
    ensures |Concat(blocks[..i])| + |blocks[i]| <= |Concat(blocks)|
    ensures Concat(blocks[..i + 1]) == Concat(blocks[..i]) + blocks[i]
  {
    ConcatSplit(blocks, i);
    assert blocks[..i + 1] == blocks[..i] + [blocks[i]];
    FlattenAppends(Same, blocks[..i], blocks[i]);
  }

  lemma ExtendTile(macros: seq<Macro>, blocks: seq<seq<byte>>, seqs: seq<i64>, m: Macro, block: seq<byte>)
    requires Tile(macros, blocks, seqs)
    requires m.offset == |Concat(blocks)| && m.size == |block|
    ensures Tile(macros + [m], blocks + [block], seqs + [m.id])
  {
    var bs := blocks + [block];
    forall i | 0 <= i < |bs| ensures bs[..i] == blocks[..i] {
    }
    assert blocks[..|blocks|] == blocks;
  }

  /** Reads every block of a table whose records tile the data file. */
  method ReadAll(table: SSTable, ghost blocks: seq<seq<byte>>, ghost seqs: seq<i64>)
    returns (read: seq<Option<seq<byte>>>)
    requires table.isInited && Tile(table.meta.macros, blocks, seqs) && table.disk.dataFile == Concat(blocks)
    ensures |read| == |blocks| && forall i :: 0 <= i < |blocks| ==> read[i] == Some(blocks[i])
  {
    read := [];
    for i := 0 to |table.meta.macros|
      invariant |read| == i && forall j :: 0 <= j < i ==> read[j] == Some(blocks[j])
    {
      TileReads(table.meta.macros, blocks, seqs, i);
      var data := table.ReadMacroBlock(i);
      read := read + [data];
    }
  }

  lemma ReloadKeepsMacros(m: Meta)
    requires WellFormed(m)
    ensures Deserialize(Serialize(m)).Some? && Deserialize(Serialize(m)).value.macros == m.macros
  {
    MetaRoundTrip(m);
  }

  method Reopen(disk: Disk, ghost saved: Meta) returns (table: SSTable)
    requires WellFormed(saved) && disk.metaFile == Serialize(saved)
    ensures table.isInited && table.disk == disk && table.meta.macros == saved.macros
  {
    ReloadKeepsMacros(saved);
    table := new SSTable(disk);
    var ok := table.Init();
  }

  /** A table written from any list of blocks and reopened gives back block `i`, byte for byte, for every `i`. */
  method WriteThenReopen(disk: Disk, blocks: seq<seq<byte>>, seqs: seq<i64>, base: Meta)
    returns (table: SSTable, read: seq<Option<seq<byte>>>)
    requires WellFormed(base) && |seqs| == |blocks| < I64_LIMIT && Room(base.basic, |Concat(blocks)|, |blocks|)
    modifies disk
    ensures table.isInited && |read| == |blocks|
    ensures forall i :: 0 <= i < |blocks| ==> read[i] == Some(blocks[i])
  {
    var writer := new SSTable(disk);
    writer.CreateFromBlocks(blocks, seqs, base);
    table := Reopen(disk, writer.meta);
    read := ReadAll(table, blocks, seqs);
  }

  /** The meta that is loaded is the one that was kept in memory exactly when the macro block count started at zero. */
  lemma ReloadedMetaIff(m: Meta, start: i64)
    requires WellFormed(m) && m.basic.fields[MACRO_BLOCK_COUNT] == start + |m.macros|
    ensures Deserialize(Serialize(m)) == Some(m) <==> start == 0
  {
    MetaRoundTrip(m);
    var f := m.basic.fields;
    assert start == 0 ==> f[MACRO_BLOCK_COUNT := |m.macros|] == f;
    assert start != 0 ==> f[MACRO_BLOCK_COUNT := |m.macros|][MACRO_BLOCK_COUNT] != f[MACRO_BLOCK_COUNT];
  }
}
