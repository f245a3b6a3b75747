/** The commit log on disk: group entries in block files, found again by a scan and replayed in order. */
module PalfSpec {
  import opened Common
  import opened Bytes

  const BLOCK_SIZE := 0x400_0000 - 4096
  const READ_SIZE := 4096
  const HEAD_SIZE := 48
  const MAGIC := 0x4752

  /** The data of each block file, behind its info block. */
  type Disk = map<nat, seq<byte>>

  /** The size of an entry fits its field. */
  type Payload = p: seq<byte> | 0 < |p| < 0xFFFF_FFFF - 48 witness [0]

  function BlockOf(lsn: nat): nat { lsn / BLOCK_SIZE }

  function OffsetOf(lsn: nat): nat { lsn % BLOCK_SIZE }

  // ---------------------------------------------------------------- entries

  datatype Head = Head(size: nat, end: nat)

  /** The header as it is written: the checksum, which is 0, lands on the lower half of the log id, and the last eight
      bytes are whatever was in memory. */
  function EncodeHead(h: Head, id: nat, prev: nat, junk: seq<byte>): (s: seq<byte>)
    requires |junk| == 8
    ensures |s| == HEAD_SIZE
  {
    Put(MAGIC, 2) + Put(1, 2) + Put(h.size, 4) + (Blank(4) + Put(id / 0x1_0000_0000, 4) + Put(1, 8) + Put(prev, 8)) +
    Put(h.end, 8) + junk
  }

  function ReadHead(b: seq<byte>): Option<Head> {
    if |b| < HEAD_SIZE || Get(b[0..2]) != MAGIC then None else Some(Head(Get(b[4..8]), Get(b[32..40])))
  }

  lemma HeadSlices(m: seq<byte>, v: seq<byte>, n: seq<byte>, x: seq<byte>, e: seq<byte>, junk: seq<byte>)
    requires |m| == 2 && |v| == 2 && |n| == 4 && |x| == 24 && |e| == 8 && |junk| == 8
    ensures var b := m + v + n + x + e + junk; b[0..2] == m && b[4..8] == n && b[32..40] == e
  {
  }

  lemma HeadParts(m: seq<byte>, v: seq<byte>, n: seq<byte>, hi: seq<byte>, p: seq<byte>, q: seq<byte>, e: seq<byte>,
                  junk: seq<byte>)
    requires |m| == 2 && |v| == 2 && |n| == 4 && |hi| == 4 && |p| == 8 && |q| == 8 && |e| == 8 && |junk| == 8
    ensures var s := m + v + n + (Blank(4) + hi + p + q) + e + junk;
            && s[0..2] == m && s[2..4] == v && s[4..8] == n && s[8..12] == Blank(4) && s[12..16] == hi
            && s[16..24] == p && s[24..32] == q && s[32..40] == e && s[40..48] == junk
  {
  }

  /** The fields at their places; the log id at 8 has lost its lower half to the checksum. */
  lemma HeadLayout(h: Head, id: nat, prev: nat, junk: seq<byte>)
    requires |junk| == 8
    ensures var s := EncodeHead(h, id, prev, junk);
            && s[0..2] == Put(0x4752, 2) && s[2..4] == Put(1, 2) && s[4..8] == Put(h.size, 4) && s[8..12] == Blank(4)
            && s[12..16] == Put(id / 0x1_0000_0000, 4) && s[16..24] == Put(1, 8) && s[24..32] == Put(prev, 8)
            && s[32..40] == Put(h.end, 8) && s[40..48] == junk
  {
    HeadParts(Put(MAGIC, 2), Put(1, 2), Put(h.size, 4), Put(id / 0x1_0000_0000, 4), Put(1, 8), Put(prev, 8),
              Put(h.end, 8), junk);
  }

  lemma ReadEncodedHead(h: Head, id: nat, prev: nat, junk: seq<byte>)
    requires |junk| == 8 && h.size < 0x1_0000_0000 && h.end < 0x1_0000_0000_0000_0000
    ensures ReadHead(EncodeHead(h, id, prev, junk)) == Some(h)
  {
    HeadSlices(Put(MAGIC, 2), Put(1, 2), Put(h.size, 4),
               Blank(4) + Put(id / 0x1_0000_0000, 4) + Put(1, 8) + Put(prev, 8), Put(h.end, 8), junk);
    Pow2();
    GetPut(MAGIC, 2);
    GetPutU32(h.size);
    GetPutU64(h.end);
  }

  lemma ReadHeadOf(a: seq<byte>, b: seq<byte>)
    requires |a| >= HEAD_SIZE && |b| >= HEAD_SIZE && a[..HEAD_SIZE] == b[..HEAD_SIZE]
    ensures ReadHead(a) == ReadHead(b)
  {
    var h := a[..HEAD_SIZE];
    assert a[0..2] == h[0..2] && a[4..8] == h[4..8] && a[32..40] == h[32..40];
    assert b[0..2] == h[0..2] && b[4..8] == h[4..8] && b[32..40] == h[32..40];
  }

  /** Zeros are no header. */
  lemma NoHeadInZeros(b: seq<byte>)
    requires forall i :: 0 <= i < |b| ==> b[i] == 0
    ensures ReadHead(b) == None
  {
    if |b| >= HEAD_SIZE {
      var m := b[0..2];
      assert m == [0, 0];
      assert Get(m) == 0 + 256 * Get(m[1..]) && Get(m[1..]) == 0 + 256 * Get(m[1..][1..]);
    }
  }

  function EntrySize(p: Payload): nat { HEAD_SIZE + |p| }

  ghost predicate IsEntry(e: seq<byte>, lsn: nat, p: Payload) {
    |e| == EntrySize(p) && e[HEAD_SIZE..] == p && ReadHead(e) == Some(Head(|e|, lsn + |e|))
  }

  // ---------------------------------------------------------------- files

  /** Writing at an offset, past the end if need be; the gap reads as zeros. */
  function WriteAt(file: seq<byte>, offset: nat, data: seq<byte>): seq<byte> {
    var front := if offset <= |file| then file[..offset] else file + Blank(offset - |file|);
    front + data + (if offset + |data| <= |file| then file[offset + |data|..] else [])
  }

  /** The data is where it was written, and the rest of the file is as it was. */
  lemma WriteAtGives(file: seq<byte>, offset: nat, data: seq<byte>)
    ensures var w := WriteAt(file, offset, data);
            && |w| == (if offset + |data| <= |file| then |file| else offset + |data|)
            && w[offset..offset + |data|] == data
            && forall i :: 0 <= i < |w| && !(offset <= i < offset + |data|) ==>
                 w[i] == if i < |file| then file[i] else 0
  {
  }

  /** One read: at most the buffer, and never past the end of the block. */
  function Window(disk: Disk, lsn: nat): Option<seq<byte>> {
    if BlockOf(lsn) !in disk then None
    else
      var file, o := disk[BlockOf(lsn)], OffsetOf(lsn);
      var n := if READ_SIZE <= BLOCK_SIZE - o then READ_SIZE else BLOCK_SIZE - o;
      if o >= |file| then Some([]) else if o + n <= |file| then Some(file[o..o + n]) else Some(file[o..])
  }

  function FileOf(disk: Disk, k: nat): seq<byte> {
    if k in disk then disk[k] else []
  }

  function AppendTo(disk: Disk, lsn: nat, e: seq<byte>): Disk {
    disk[BlockOf(lsn) := WriteAt(FileOf(disk, BlockOf(lsn)), OffsetOf(lsn), e)]
  }

  // ---------------------------------------------------------------- scan and replay

  /** What one read shows: a header, and the payload unless it was not all read. */
  datatype Seen = Seen(head: Head, payload: Option<seq<byte>>)

  function Look(disk: Disk, lsn: nat): Option<Seen> {
    match Window(disk, lsn)
    case None => None
    case Some(b) =>
      match ReadHead(b)
      case None => None
      case Some(h) => Some(Seen(h, if HEAD_SIZE <= h.size <= |b| then Some(b[HEAD_SIZE..h.size]) else None))
  }

  function Looker(disk: Disk): nat -> Option<Seen> {
    (lsn: nat) => Look(disk, lsn)
  }

  /** The end of the log, found by following the entries from `lsn` on; there is nothing to see at or behind `bound`. */
  function Scan(look: nat -> Option<Seen>, bound: nat, lsn: nat): nat
    decreases bound - lsn
  {
    match look(lsn)
    case None => lsn
    case Some(e) => if e.head.end <= lsn || lsn >= bound then e.head.end else Scan(look, bound, e.head.end)
  }

  /** What the handler is given: each payload, or `None` where it was not all read. */
  function Replay(look: nat -> Option<Seen>, bound: nat, lsn: nat, end: nat): seq<Option<seq<byte>>>
    decreases bound - lsn
  {
    if lsn >= end || lsn >= bound then []
    else
      match look(lsn)
      case None => []
      case Some(e) =>
        var given := if e.head.size <= HEAD_SIZE then [] else [e.payload];
        if e.head.end <= lsn then given else given + Replay(look, bound, e.head.end, end)
  }

  // ---------------------------------------------------------------- a log

  /** Where the log ends after these payloads. */
  function End(ps: seq<Payload>): nat {
    if ps == [] then 0 else End(ps[..|ps| - 1]) + EntrySize(ps[|ps| - 1])
  }

  function Start(ps: seq<Payload>, i: nat): nat
    requires i <= |ps|
  {
    End(ps[..i])
  }

  ghost predicate Stored(disk: Disk, lsn: nat, p: Payload) {
    var k, o := BlockOf(lsn), OffsetOf(lsn);
    k in disk && o + EntrySize(p) <= |disk[k]| && IsEntry(disk[k][o..o + EntrySize(p)], lsn, p)
  }

  predicate Behind(lsn: nat, k: nat, j: nat) {
    k > BlockOf(lsn) || (k == BlockOf(lsn) && j >= OffsetOf(lsn))
  }

  /** There is nothing but zeros at and behind `lsn`. */
  ghost predicate Clean(disk: Disk, lsn: nat) {
    forall k, j :: k in disk && 0 <= j < |disk[k]| && Behind(lsn, k, j) ==> disk[k][j] == 0
  }

  lemma StartStep(ps: seq<Payload>, i: nat)
    requires i < |ps|
    ensures Start(ps, i + 1) == Start(ps, i) + EntrySize(ps[i])
  {
    assert ps[..i + 1][..i] == ps[..i];
  }

  lemma {:induction false} StartBefore(ps: seq<Payload>, i: nat)
    requires i < |ps|
    ensures Start(ps, i) + EntrySize(ps[i]) <= End(ps)
    decreases |ps| - i
  {
    StartStep(ps, i);
    if i + 1 < |ps| {
      StartBefore(ps, i + 1);
    } else {
      assert ps[..i + 1] == ps;
    }
  }

  lemma EndStep(ps: seq<Payload>, p: Payload)
    ensures End(ps + [p]) == End(ps) + EntrySize(p)
  {
    assert (ps + [p])[..|ps|] == ps;
  }

  // ---------------------------------------------------------------- appending keeps what is there

  lemma WriteKeeps(file: seq<byte>, offset: nat, data: seq<byte>)
    ensures var w := WriteAt(file, offset, data);
            && |w| >= offset + |data| && w[offset..offset + |data|] == data
            && (forall j :: 0 <= j < offset && j < |file| ==> w[j] == file[j])
            && (forall j :: offset + |data| <= j < |w| ==> j < |file| && w[j] == file[j])
  {
  }

  lemma SameSlice(a: seq<byte>, b: seq<byte>, from: nat, to: nat)
    requires from <= to <= |a| && to <= |b| && forall j :: from <= j < to ==> a[j] == b[j]
    ensures a[from..to] == b[from..to]
  {
  }

  lemma Before(lsn: nat, size: nat, end: nat)
    requires lsn + size <= end && BlockOf(lsn) == BlockOf(end)
    ensures OffsetOf(lsn) + size <= OffsetOf(end)
  {
  }

  lemma StoredStill(disk: Disk, lsn: nat, p: Payload, end: nat, e: seq<byte>)
    requires Stored(disk, lsn, p) && lsn + EntrySize(p) <= end
    ensures Stored(AppendTo(disk, end, e), lsn, p)
  {
    if BlockOf(lsn) == BlockOf(end) {
      var file := disk[BlockOf(lsn)];
      Before(lsn, EntrySize(p), end);
      WriteKeeps(file, OffsetOf(end), e);
      SameSlice(WriteAt(file, OffsetOf(end), e), file, OffsetOf(lsn), OffsetOf(lsn) + EntrySize(p));
    }
  }

  lemma StoredNow(disk: Disk, end: nat, p: Payload, e: seq<byte>)
    requires IsEntry(e, end, p)
    ensures Stored(AppendTo(disk, end, e), end, p)
  {
    WriteKeeps(FileOf(disk, BlockOf(end)), OffsetOf(end), e);
  }

  lemma CleanStill(disk: Disk, end: nat, e: seq<byte>)
    requires Clean(disk, end)
    ensures Clean(AppendTo(disk, end, e), end + |e|)
  {
    var after := AppendTo(disk, end, e);
    var file := FileOf(disk, BlockOf(end));
    WriteKeeps(file, OffsetOf(end), e);
    forall k, j | k in after && 0 <= j < |after[k]| && Behind(end + |e|, k, j) ensures after[k][j] == 0 {
      if k == BlockOf(end) {
        assert j >= OffsetOf(end) + |e|;
        assert j < |file| && Behind(end, k, j);
      } else {
        assert Behind(end, k, j);
      }
    }
  }

  // ---------------------------------------------------------------- reading an entry

  predicate HeadInside(lsn: nat) {
    OffsetOf(lsn) + HEAD_SIZE <= BLOCK_SIZE
  }

  /** The entry ends in the block in which it starts, and one read takes all of it. */
  predicate Inside(lsn: nat, p: Payload) {
    OffsetOf(lsn) + EntrySize(p) <= BLOCK_SIZE && EntrySize(p) <= READ_SIZE
  }

  lemma WindowIs(file: seq<byte>, o: nat, size: nat, w: seq<byte>)
    requires o < BLOCK_SIZE && size > 0 && o + size <= |file|
    requires var n := if READ_SIZE <= BLOCK_SIZE - o then READ_SIZE else BLOCK_SIZE - o;
             w == if o + n <= |file| then file[o..o + n] else file[o..]
    ensures size <= |w| <==> size <= READ_SIZE && o + size <= BLOCK_SIZE
    ensures |w| <= READ_SIZE && o + |w| <= BLOCK_SIZE
    ensures forall m :: 0 <= m <= |w| && m <= size ==> w[..m] == file[o..o + size][..m]
  {
  }

  lemma EntryParts(w: seq<byte>, e: seq<byte>, lsn: nat, p: Payload)
    requires IsEntry(e, lsn, p) && forall m :: 0 <= m <= |w| && m <= |e| ==> w[..m] == e[..m]
    ensures |w| >= HEAD_SIZE ==> ReadHead(w) == Some(Head(|e|, lsn + |e|))
    ensures |w| >= |e| ==> w[HEAD_SIZE..|e|] == p
  {
    if |w| >= HEAD_SIZE {
      assert w[..HEAD_SIZE] == e[..HEAD_SIZE];
      ReadHeadOf(w, e);
    }
    if |w| >= |e| {
      assert w[..|e|] == e[..|e|] == e;
      assert w[HEAD_SIZE..|e|] == w[..|e|][HEAD_SIZE..];
    }
  }

  lemma EntryWindow(disk: Disk, lsn: nat, p: Payload) returns (w: seq<byte>)
    requires Stored(disk, lsn, p)
    ensures Window(disk, lsn) == Some(w)
    ensures ReadHead(w) == (if HeadInside(lsn) then Some(Head(EntrySize(p), lsn + EntrySize(p))) else None)
    ensures EntrySize(p) <= |w| <==> Inside(lsn, p)
    ensures Inside(lsn, p) ==> w[HEAD_SIZE..EntrySize(p)] == p
  {
    var file, o := disk[BlockOf(lsn)], OffsetOf(lsn);
    w := Window(disk, lsn).value;
    WindowIs(file, o, EntrySize(p), w);
    EntryParts(w, file[o..o + EntrySize(p)], lsn, p);
    HeadRead(file, o, w);
  }

  /** What is to be seen at an entry: nothing if its header crosses the end of the block, and its payload if all of the
      entry is inside. */
  function Expected(lsn: nat, p: Payload): Option<Seen> {
    if !HeadInside(lsn) then None
    else Some(Seen(Head(EntrySize(p), lsn + EntrySize(p)), if Inside(lsn, p) then Some(p) else None))
  }

  lemma EntryRead(disk: Disk, lsn: nat, p: Payload)
    requires Stored(disk, lsn, p)
    ensures Look(disk, lsn) == Expected(lsn, p)
  {
    var w := EntryWindow(disk, lsn, p);
  }

  lemma HeadRead(file: seq<byte>, o: nat, w: seq<byte>)
    requires o < BLOCK_SIZE && o + HEAD_SIZE <= |file|
    requires var n := if READ_SIZE <= BLOCK_SIZE - o then READ_SIZE else BLOCK_SIZE - o;
             w == if o + n <= |file| then file[o..o + n] else file[o..]
    ensures |w| >= HEAD_SIZE <==> o + HEAD_SIZE <= BLOCK_SIZE
  {
  }

  /** Behind the last entry a read finds no header. */
  lemma EndRead(disk: Disk, lsn: nat)
    requires Clean(disk, lsn)
    ensures Look(disk, lsn) == None
  {
    if BlockOf(lsn) in disk {
      var file, w := disk[BlockOf(lsn)], Window(disk, lsn).value;
      forall i | 0 <= i < |w| ensures w[i] == 0 {
        assert w[i] == file[OffsetOf(lsn) + i] && Behind(lsn, BlockOf(lsn), OffsetOf(lsn) + i);
      }
      NoHeadInZeros(w);
    }
  }

  // ---------------------------------------------------------------- restart

  /** `look` shows the log of these payloads, all of it below `bound`. */
  ghost predicate Shows(look: nat -> Option<Seen>, bound: nat, ps: seq<Payload>) {
    && look(End(ps)) == None
    && forall i :: 0 <= i < |ps| ==> look(Start(ps, i)) == Expected(Start(ps, i), ps[i]) && Start(ps, i) < bound
  }

  /** No block file reaches `bound`. */
  ghost predicate Bounded(disk: Disk, bound: nat) {
    forall k :: k in disk ==> (k + 1) * BLOCK_SIZE <= bound
  }

  lemma BoundedRead(disk: Disk, bound: nat, lsn: nat)
    requires Bounded(disk, bound) && BlockOf(lsn) in disk
    ensures lsn < bound
  {
    assert (BlockOf(lsn) + 1) * BLOCK_SIZE <= bound;
  }

  ghost predicate HeadsInside(ps: seq<Payload>, from: nat, to: nat)
    requires to <= |ps|
  {
    forall i :: from <= i < to ==> HeadInside(Start(ps, i))
  }

  lemma ScanStep(look: nat -> Option<Seen>, bound: nat, ps: seq<Payload>, i: nat)
    requires Shows(look, bound, ps) && i < |ps| && HeadInside(Start(ps, i))
    ensures Scan(look, bound, Start(ps, i)) == Scan(look, bound, Start(ps, i + 1))
  {
    StartStep(ps, i);
  }

  /** The scan of a restart follows the entries up to the first one whose header crosses the end of its block. */
  lemma {:induction false} ScanStops(look: nat -> Option<Seen>, bound: nat, ps: seq<Payload>, i: nat, k: nat)
    requires Shows(look, bound, ps) && i <= k <= |ps| && HeadsInside(ps, i, k)
    requires k == |ps| || !HeadInside(Start(ps, k))
    ensures Scan(look, bound, Start(ps, i)) == Start(ps, k)
    decreases k - i
  {
    if i == |ps| {
      assert ps[..i] == ps;
    } else if i < k {
      ScanStep(look, bound, ps, i);
      ScanStops(look, bound, ps, i + 1, k);
    }
  }

  function Somes(ps: seq<Payload>): seq<Option<seq<byte>>> {
    if ps == [] then [] else [Some(ps[0])] + Somes(ps[1..])
  }

  ghost predicate AllInside(ps: seq<Payload>, from: nat) {
    forall i :: from <= i < |ps| ==> Inside(Start(ps, i), ps[i])
  }

  /** What the handler is given for entry `i`: its payload, or `None` if one read does not take all of it. */
  function Delivery(ps: seq<Payload>, i: nat): Option<seq<byte>>
    requires i < |ps|
  {
    if Inside(Start(ps, i), ps[i]) then Some(ps[i]) else None
  }

  lemma ReplayStep(look: nat -> Option<Seen>, bound: nat, ps: seq<Payload>, i: nat, end: nat)
    requires Shows(look, bound, ps) && i < |ps| && Start(ps, i) < end
    ensures Replay(look, bound, Start(ps, i), end) ==
            if !HeadInside(Start(ps, i)) then []
            else [Delivery(ps, i)] + Replay(look, bound, Start(ps, i + 1), end)
  {
    StartStep(ps, i);
  }

  lemma {:induction false} ReplayAll(look: nat -> Option<Seen>, bound: nat, ps: seq<Payload>, i: nat)
    requires Shows(look, bound, ps) && i <= |ps| && AllInside(ps, i)
    ensures Replay(look, bound, Start(ps, i), End(ps)) == Somes(ps[i..])
    decreases |ps| - i
  {
    if i == |ps| {
      assert ps[..i] == ps;
    } else {
      StartBefore(ps, i);
      ReplayStep(look, bound, ps, i, End(ps));
      ReplayAll(look, bound, ps, i + 1);
      assert Inside(Start(ps, i), ps[i]);
      assert ps[i..][1..] == ps[i + 1..];
    }
  }

  lemma {:induction false} OnlyInside(look: nat -> Option<Seen>, bound: nat, ps: seq<Payload>, i: nat, end: nat)
    requires Shows(look, bound, ps) && i <= |ps| && Replay(look, bound, Start(ps, i), end) == Somes(ps[i..])
    ensures AllInside(ps, i)
    decreases |ps| - i
  {
    if i < |ps| {
      var rest := Somes(ps[i..]);
      assert ps[i..][1..] == ps[i + 1..];
      ReplayStep(look, bound, ps, i, end);
      assert rest[0] == Some(ps[i]) && rest[1..] == Somes(ps[i + 1..]);
      OnlyInside(look, bound, ps, i + 1, end);
    }
  }

  /** What the handler is given after a restart. */
  function Restarted(disk: Disk, bound: nat): seq<Option<seq<byte>>> {
    Replay(Looker(disk), bound, 0, Scan(Looker(disk), bound, 0))
  }

  lemma ShownDeliversIff(look: nat -> Option<Seen>, bound: nat, ps: seq<Payload>)
    requires Shows(look, bound, ps)
    ensures Replay(look, bound, 0, Scan(look, bound, 0)) == Somes(ps) <==> AllInside(ps, 0)
  {
    assert ps[..0] == [] && ps[0..] == ps;
    if AllInside(ps, 0) {
      forall i | 0 <= i < |ps| ensures HeadInside(Start(ps, i)) {
        assert Inside(Start(ps, i), ps[i]);
      }
      assert ps[..|ps|] == ps;
      ScanStops(look, bound, ps, 0, |ps|);
      ReplayAll(look, bound, ps, 0);
    }
    if Replay(look, bound, 0, Scan(look, bound, 0)) == Somes(ps) {
      OnlyInside(look, bound, ps, 0, Scan(look, bound, 0));
    }
  }

  // ---------------------------------------------------------------- runs of appends and restarts

  /** How many of the payloads come before the first one whose header would cross the end of its block. */
  function Survives(ps: seq<Payload>): (k: nat)
    ensures k <= |ps|
  {
    if ps == [] then 0
    else
      var front := ps[..|ps| - 1];
      var k := Survives(front);
      if k == |front| && HeadInside(End(front)) then k + 1 else k
  }

  lemma SurvivesStep(ps: seq<Payload>, p: Payload)
    ensures Survives(ps + [p]) == if Survives(ps) == |ps| && HeadInside(End(ps)) then |ps| + 1 else Survives(ps)
  {
    assert (ps + [p])[..|ps|] == ps;
  }

  lemma {:induction false} SurvivesIs(ps: seq<Payload>)
    ensures var k := Survives(ps); HeadsInside(ps, 0, k) && (k < |ps| ==> !HeadInside(Start(ps, k)))
    decreases |ps|
  {
    if ps != [] {
      var front := ps[..|ps| - 1];
      SurvivesIs(front);
      assert front[..|front|] == front;
      forall i | 0 <= i < |ps| ensures Start(ps, i) == Start(front, i) {
        assert ps[..i] == front[..i];
      }
    }
  }

  /** A read that starts where a header would cross the end of its block shows nothing. */
  lemma CrossingRead(disk: Disk, lsn: nat)
    requires !HeadInside(lsn)
    ensures Look(disk, lsn) == None
  {
  }

  /** The entries before the first crossing one are there; if there is none, there are zeros behind the last. */
  ghost predicate Kept(disk: Disk, ps: seq<Payload>) {
    && (forall i :: 0 <= i < Survives(ps) ==> Stored(disk, Start(ps, i), ps[i]))
    && (Survives(ps) == |ps| ==> Clean(disk, End(ps)))
  }

  lemma KeptShows(disk: Disk, bound: nat, ps: seq<Payload>)
    requires Kept(disk, ps) && Bounded(disk, bound)
    ensures Shows(Looker(disk), bound, ps[..Survives(ps)])
  {
    var k := Survives(ps);
    var vis := ps[..k];
    SurvivesIs(ps);
    if k == |ps| {
      assert vis == ps;
      EndRead(disk, End(ps));
    } else {
      CrossingRead(disk, End(vis));
    }
    forall i | 0 <= i < |vis|
      ensures Look(disk, Start(vis, i)) == Expected(Start(vis, i), vis[i]) && Start(vis, i) < bound
    {
      assert vis[..i] == ps[..i];
      EntryRead(disk, Start(ps, i), ps[i]);
      BoundedRead(disk, bound, Start(ps, i));
    }
  }

  lemma {:induction false} StartsGrow(ps: seq<Payload>, i: nat, k: nat)
    requires i < k <= |ps|
    ensures Start(ps, i) + EntrySize(ps[i]) <= Start(ps, k)
    decreases k - i
  {
    StartStep(ps, i);
    if i + 1 < k {
      StartsGrow(ps, i + 1, k);
    }
  }

  /** `end` is where the next entry goes: behind all entries, or somewhere behind a crossing one. */
  ghost predicate EndOk(ps: seq<Payload>, end: nat) {
    if Survives(ps) == |ps| then end == End(ps) else end >= Start(ps, Survives(ps))
  }

  lemma EarlierStored(disk: Disk, ps: seq<Payload>, end: nat, e: seq<byte>, i: nat)
    requires Kept(disk, ps) && EndOk(ps, end) && i < Survives(ps)
    ensures Stored(AppendTo(disk, end, e), Start(ps, i), ps[i])
  {
    assert ps[..|ps|] == ps;
    StartsGrow(ps, i, Survives(ps));
    StoredStill(disk, Start(ps, i), ps[i], end, e);
  }

  lemma AppendStores(disk: Disk, ps: seq<Payload>, p: Payload, end: nat, e: seq<byte>, i: nat)
    requires Kept(disk, ps) && EndOk(ps, end) && IsEntry(e, end, p) && i < Survives(ps + [p])
    ensures Stored(AppendTo(disk, end, e), Start(ps + [p], i), (ps + [p])[i])
  {
    SurvivesStep(ps, p);
    assert (ps + [p])[..i] == ps[..i];
    if i < Survives(ps) {
      EarlierStored(disk, ps, end, e, i);
    } else {
      assert ps[..i] == ps;
      StoredNow(disk, end, p, e);
    }
  }

  /** Appending at the known end keeps what survives, also when that end lies behind a crossing entry. */
  lemma AppendKeeps(disk: Disk, ps: seq<Payload>, p: Payload, end: nat, e: seq<byte>)
    requires Kept(disk, ps) && EndOk(ps, end) && IsEntry(e, end, p)
    ensures Kept(AppendTo(disk, end, e), ps + [p])
  {
    var more := ps + [p];
    SurvivesStep(ps, p);
    EndStep(ps, p);
    forall i | 0 <= i < Survives(more) ensures Stored(AppendTo(disk, end, e), Start(more, i), more[i]) {
      AppendStores(disk, ps, p, end, e, i);
    }
    if Survives(more) == |more| {
      CleanStill(disk, end, e);
    }
  }

  lemma EndMoves(ps: seq<Payload>, p: Payload, end: nat, size: nat)
    requires EndOk(ps, end) && size == EntrySize(p)
    ensures EndOk(ps + [p], end + size)
  {
    var more := ps + [p];
    SurvivesStep(ps, p);
    EndStep(ps, p);
    assert more[..Survives(ps)] == ps[..Survives(ps)] && ps[..|ps|] == ps;
  }

  /** The handler is given the entries from `from` up to `to`, one after the other, and nothing else. */
  ghost predicate Delivers(given: seq<Option<seq<byte>>>, ps: seq<Payload>, from: nat, to: nat)
    requires from <= to <= |ps|
  {
    |given| == to - from && forall i {:trigger Delivery(ps, i)} :: from <= i < to ==> given[i - from] == Delivery(ps, i)
  }

  lemma DeliversFirst(first: Option<seq<byte>>, rest: seq<Option<seq<byte>>>, ps: seq<Payload>, from: nat, to: nat)
    requires from < to <= |ps| && first == Delivery(ps, from) && Delivers(rest, ps, from + 1, to)
    ensures Delivers([first] + rest, ps, from, to)
  {
  }

  lemma {:induction false} ReplayDelivers(look: nat -> Option<Seen>, bound: nat, ps: seq<Payload>, i: nat)
    requires Shows(look, bound, ps) && i <= |ps| && HeadsInside(ps, i, |ps|)
    ensures Delivers(Replay(look, bound, Start(ps, i), End(ps)), ps, i, |ps|)
    decreases |ps| - i
  {
    if i == |ps| {
      assert ps[..i] == ps;
    } else {
      StartBefore(ps, i);
      ReplayStep(look, bound, ps, i, End(ps));
      ReplayDelivers(look, bound, ps, i + 1);
      DeliversFirst(Delivery(ps, i), Replay(look, bound, Start(ps, i + 1), End(ps)), ps, i, |ps|);
    }
  }

  lemma DeliversPrefix(given: seq<Option<seq<byte>>>, ps: seq<Payload>, k: nat)
    requires k <= |ps| && Delivers(given, ps[..k], 0, k)
    ensures Delivers(given, ps, 0, k)
  {
    forall i | 0 <= i < k ensures given[i] == Delivery(ps, i) {
      assert ps[..k][..i] == ps[..i];
      assert given[i - 0] == Delivery(ps[..k], i);
    }
  }

  lemma ShownRestart(look: nat -> Option<Seen>, bound: nat, vis: seq<Payload>)
    requires Shows(look, bound, vis) && HeadsInside(vis, 0, |vis|)
    ensures Scan(look, bound, 0) == End(vis) && Delivers(Replay(look, bound, 0, End(vis)), vis, 0, |vis|)
    ensures Replay(look, bound, 0, End(vis)) == Somes(vis) <==> AllInside(vis, 0)
  {
    assert vis[..0] == [] && vis[..|vis|] == vis;
    ScanStops(look, bound, vis, 0, |vis|);
    ReplayDelivers(look, bound, vis, 0);
    ShownDeliversIff(look, bound, vis);
  }

  lemma InsideSurvives(ps: seq<Payload>)
    ensures var vis := ps[..Survives(ps)]; HeadsInside(vis, 0, |vis|)
    ensures AllInside(ps, 0) ==> Survives(ps) == |ps|
  {
    var vis := ps[..Survives(ps)];
    SurvivesIs(ps);
    forall i | 0 <= i < |vis| ensures HeadInside(Start(vis, i)) {
      assert vis[..i] == ps[..i] && HeadInside(Start(ps, i));
    }
    if |vis| < |ps| {
      assert !Inside(Start(ps, |vis|), ps[|vis|]);
    }
  }

  lemma ShownGives(look: nat -> Option<Seen>, bound: nat, ps: seq<Payload>)
    requires Shows(look, bound, ps[..Survives(ps)])
    ensures Scan(look, bound, 0) == Start(ps, Survives(ps))
    ensures var given := Replay(look, bound, 0, Start(ps, Survives(ps)));
            Delivers(given, ps, 0, Survives(ps)) && (given == Somes(ps) <==> AllInside(ps, 0))
  {
    var vis := ps[..Survives(ps)];
    InsideSurvives(ps);
    ShownRestart(look, bound, vis);
    DeliversPrefix(Replay(look, bound, 0, End(vis)), ps, |vis|);
    SomesSize(ps);
    if |vis| == |ps| {
      assert vis == ps;
    }
  }

  /** What a restart finds and delivers, after any appends and restarts: the entries before the first one whose header
      crosses the end of its block, in order, each with its payload unless one read does not take all of it, and no
      other entry ever again; everything, unharmed, if and only if every entry ends in the block in which it starts and
      fits the read buffer. */
  lemma RestartGives(disk: Disk, bound: nat, ps: seq<Payload>)
    requires Kept(disk, ps) && Bounded(disk, bound)
    ensures Scan(Looker(disk), bound, 0) == Start(ps, Survives(ps))
    ensures Delivers(Restarted(disk, bound), ps, 0, Survives(ps))
    ensures Restarted(disk, bound) == Somes(ps) <==> AllInside(ps, 0)
  {
    KeptShows(disk, bound, ps);
    ShownGives(Looker(disk), bound, ps);
  }

  lemma {:induction false} SomesSize(ps: seq<Payload>)
    ensures |Somes(ps)| == |ps|
    decreases |ps|
  {
    if ps != [] {
      SomesSize(ps[1..]);
    }
  }

  // ---------------------------------------------------------------- logs that fail

  /** One payload of more than 4048 bytes is found by a restart, but not all of it is read. */
  lemma LargeEntryIsTorn(disk: Disk, bound: nat, p: Payload)
    requires Kept(disk, [p]) && Bounded(disk, bound) && |p| > READ_SIZE - HEAD_SIZE
    ensures Restarted(disk, bound) == [None]
  {
    RestartGives(disk, bound, [p]);
    SurvivesStep([], p);
    assert [] + [p] == [p] && Delivery([p], 0) == None;
  }

  lemma {:induction false} EndOfEqual(ps: seq<Payload>, size: nat)
    requires forall i :: 0 <= i < |ps| ==> EntrySize(ps[i]) == size
    ensures End(ps) == size * |ps|
    decreases |ps|
  {
    if ps != [] {
      EndOfEqual(ps[..|ps| - 1], size);
      assert size * |ps| == size * (|ps| - 1) + size;
    }
  }

  lemma SurvivesAt(ps: seq<Payload>, n: nat)
    requires n <= |ps| && HeadsInside(ps, 0, n) && (n == |ps| || !HeadInside(Start(ps, n)))
    ensures Survives(ps) == n
  {
    SurvivesIs(ps);
  }

  /** 83-byte entries reach to 15 bytes before the end of the first block. */
  lemma EightyThrees(ps: seq<Payload>)
    requires |ps| >= 808491 && forall i :: 0 <= i < 808491 ==> EntrySize(ps[i]) == 83
    ensures HeadsInside(ps, 0, 808491) && !HeadInside(Start(ps, 808491))
  {
    EndOfEqual(ps[..808491], 83);
    forall i | 0 <= i < 808491 ensures HeadInside(Start(ps, i)) {
      EndOfEqual(ps[..i], 83);
    }
  }

  lemma InsideEightyThrees(ps: seq<Payload>, i: nat)
    requires i < 808491 <= |ps| && forall i :: 0 <= i < 808491 ==> EntrySize(ps[i]) == 83
    ensures Delivery(ps, i) == Some(ps[i])
  {
    EndOfEqual(ps[..i], 83);
  }

  /** Records of 83 bytes, which are those of databases with three-letter names: the first 808491 of them survive, and
      whatever is appended behind them, before or after restarts, is lost at the next one. */
  lemma ThreeLetterNamesCross(disk: Disk, bound: nat, ps: seq<Payload>)
    requires Kept(disk, ps) && Bounded(disk, bound) && |ps| >= 808491
    requires forall i :: 0 <= i < 808491 ==> EntrySize(ps[i]) == 83
    ensures var given := Restarted(disk, bound);
            |given| == 808491 && forall i :: 0 <= i < 808491 ==> given[i] == Some(ps[i])
  {
    EightyThrees(ps);
    SurvivesAt(ps, 808491);
    RestartGives(disk, bound, ps);
    var given := Restarted(disk, bound);
    forall i | 0 <= i < 808491 ensures given[i] == Some(ps[i]) {
      InsideEightyThrees(ps, i);
      assert given[i - 0] == Delivery(ps, i);
    }
  }
}
/** The log handle: appends under its lock, scan at start, replay of everything. */
module PalfObject {
  import opened Common
  import opened Bytes
  import opened PalfSpec

  class PalfLog {
    var disk: Disk
    var endLsn: nat
    var logId: nat

    // Everything that was ever appended, and a limit of the block files.
    ghost var payloads: seq<Payload>
    ghost var bound: nat

    ghost predicate Valid()
      reads this
    {
      Kept(disk, payloads) && EndOk(payloads, endLsn) && Bounded(disk, bound)
    }

    /** A directory without block files: the first one is made, full of zeros. */
    constructor ()
      ensures Valid() && payloads == []
    {
      disk := map[0 := Blank(BLOCK_SIZE)];
      endLsn, logId, payloads, bound := 0, 1, [], BLOCK_SIZE;
    }

    /** Header and payload go to the end of the log, into the block file of that place, however far they reach. */
    method Append(p: Payload, junk: seq<byte>) returns (lsn: nat)
      requires Valid() && |junk| == 8 && endLsn + EntrySize(p) < 0x1_0000_0000_0000_0000
      modifies this
      ensures Valid() && payloads == old(payloads) + [p] && lsn == old(endLsn) && logId == old(logId) + 1
    {
      lsn := endLsn;
      var h := Head(EntrySize(p), lsn + EntrySize(p));
      var e := EncodeHead(h, logId, endLsn, junk) + p;
      EntryMade(h, logId, endLsn, junk, lsn, p);
      Write(p, e);
      logId := logId + 1;
    }

    method Write(p: Payload, e: seq<byte>)
      requires Valid() && IsEntry(e, endLsn, p)
      modifies this`disk, this`endLsn, this`payloads, this`bound
      ensures Valid() && payloads == old(payloads) + [p]
    {
      AppendKeeps(disk, payloads, p, endLsn, e);
      EndMoves(payloads, p, endLsn, |e|);
      BoundedMore(disk, bound, endLsn, e);
      bound := bound + (BlockOf(endLsn) + 1) * BLOCK_SIZE;
      disk := AppendTo(disk, endLsn, e);
      endLsn := endLsn + |e|;
      payloads := payloads + [p];
    }

    // `look` stands for the reads of this log; the proofs of the loops do not look into it.
    ghost predicate Sees(look: nat -> Option<Seen>)
      reads this
    {
      Bounded(disk, bound) && forall lsn: nat {:trigger Look(disk, lsn)} :: look(lsn) == Look(disk, lsn)
    }

    method ReadEntry(lsn: nat, ghost look: nat -> Option<Seen>) returns (e: Option<Seen>)
      requires Sees(look)
      ensures e == look(lsn) && (e.Some? ==> lsn < bound)
    {
      assert look(lsn) == Look(disk, lsn);
      var b := Window(disk, lsn);
      if b == None {
        return None;
      }
      BoundedRead(disk, bound, lsn);
      var h := ReadHead(b.value);
      if h == None {
        return None;
      }
      var size := h.value.size;
      e := Some(Seen(h.value, if HEAD_SIZE <= size <= |b.value| then Some(b.value[HEAD_SIZE..size]) else None));
    }

    /** The scan of a new handle on the files of the old one. */
    method FindEnd(ghost look: nat -> Option<Seen>) returns (end: nat)
      requires Sees(look)
      ensures end == Scan(look, bound, 0)
    {
      end := 0;
      var scan := 0;
      while true
        invariant end == scan && Scan(look, bound, scan) == Scan(look, bound, 0)
        decreases bound - scan
      {
        var e := ReadEntry(scan, look);
        if e == None {
          break;
        }
        end := e.value.head.end;
        if end <= scan {
          break;
        }
        scan := end;
      }
    }

    /** The entries from the first block up to the end that the scan found. */
    method ReplayAllEntries(end: nat, ghost look: nat -> Option<Seen>) returns (given: seq<Option<seq<byte>>>)
      requires Sees(look)
      ensures given == Replay(look, bound, 0, end)
    {
      given := [];
      var current := 0;
      while current < end
        invariant given + Replay(look, bound, current, end) == Replay(look, bound, 0, end)
        decreases bound - current
      {
        var e := ReadEntry(current, look);
        if e == None {
          break;
        }
        ReplayMore(look, bound, current, end, given);
        if e.value.head.size > HEAD_SIZE {
          given := given + [e.value.payload];
        }
        if e.value.head.end <= current {
          break;
        }
        current := e.value.head.end;
      }
    }

    /** A new process on the old files: its end of the log is what the scan finds, and replay goes up to there. Whatever
        was appended and however often the process was restarted before, the handler is given the entries before the
        first one whose header crosses the end of its block, in order, each with its payload unless one read does not
        take all of it, and nothing appended later; it is given everything, unharmed, if and only if every entry ends in
        the block in which it starts and fits the read buffer. */
    method RestartAndReplay() returns (given: seq<Option<seq<byte>>>)
      requires Valid()
      modifies this`endLsn, this`logId
      ensures Valid() && endLsn == Start(payloads, Survives(payloads))
      ensures Delivers(given, payloads, 0, Survives(payloads))
      ensures given == Somes(payloads) <==> AllInside(payloads, 0)
    {
      ghost var look := Looker(disk);
      endLsn := FindEnd(look);
      logId := if endLsn > 0 then 2 else 1;
      given := ReplayAllEntries(endLsn, look);
      RestartGives(disk, bound, payloads);
      assert payloads[..|payloads|] == payloads;
    }
  }

  /** The first entry of a replay goes behind what was given before. */
  lemma ReplayMore(look: nat -> Option<Seen>, bound: nat, lsn: nat, end: nat, given: seq<Option<seq<byte>>>)
    requires lsn < end && lsn < bound && look(lsn).Some?
    ensures var e := look(lsn).value;
            var more := if e.head.size <= HEAD_SIZE then given else given + [e.payload];
            given + Replay(look, bound, lsn, end) ==
            if e.head.end <= lsn then more else more + Replay(look, bound, e.head.end, end)
  {
  }

  lemma EntryMade(h: Head, id: nat, prev: nat, junk: seq<byte>, lsn: nat, p: Payload)
    requires |junk| == 8 && h == Head(EntrySize(p), lsn + EntrySize(p)) && h.end < 0x1_0000_0000_0000_0000
    ensures IsEntry(EncodeHead(h, id, prev, junk) + p, lsn, p)
  {
    var head := EncodeHead(h, id, prev, junk);
    ReadEncodedHead(h, id, prev, junk);
    assert (head + p)[..HEAD_SIZE] == head == head[..HEAD_SIZE];
    ReadHeadOf(head + p, head);
  }

  lemma BoundedMore(disk: Disk, bound: nat, lsn: nat, e: seq<byte>)
    requires Bounded(disk, bound)
    ensures Bounded(AppendTo(disk, lsn, e), bound + (BlockOf(lsn) + 1) * BLOCK_SIZE)
  {
  }
}
