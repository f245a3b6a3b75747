/** The storage log: entries appended to a file, and read back in order after a restart. */
module StorageLogSpec {
  import opened Common
  import opened Bytes
  import opened Framing

  const MAGIC: u32 := 0x534C4F47
  const HEADER_SIZE := 24

  datatype EntryData = EntryData(tenant: u64, logType: i32, data: seq<byte>)

  /** The length field of the header has 32 bits and a sign. */
  type Entry = e: EntryData | |e.data| < 0x8000_0000 witness EntryData(0, 0, [])

  function Header(e: Entry): (s: seq<byte>)
    ensures |s| == HEADER_SIZE
  {
    Put(MAGIC, 4) + Put(HEADER_SIZE + |e.data|, 4) + Put(e.tenant, 8) + Put32(e.logType) + Put32(|e.data|)
  }

  function EncodeEntry(e: Entry): seq<byte> {
    Header(e) + e.data
  }

  /** What one pass of the replay loop makes of the bytes that are left. */
  function NextEntry(bytes: seq<byte>): Option<Entry> {
    if |bytes| < HEADER_SIZE then None
    else if Get(bytes[0..4]) != MAGIC then None
    else
      var dataLen := Get32(bytes[20..24]);
      if dataLen < 0 || |bytes| < HEADER_SIZE + dataLen then None
      else
        Pow8();
        Some(EntryData(Get(bytes[8..16]), Get32(bytes[16..20]), bytes[HEADER_SIZE..HEADER_SIZE + dataLen]))
  }

  /** The entries that the callback sees. */
  function Replay(file: seq<byte>): seq<Entry> {
    Parse(EncodeEntry, NextEntry, file)
  }

  // ---------------------------------------------------------------- one entry

  lemma HeaderFields(e: Entry)
    ensures var h := Header(e);
            && h[0..4] == Put(0x534C4F47, 4) && h[4..8] == Put(24 + |e.data|, 4) && h[8..16] == Put(e.tenant, 8)
            && h[16..20] == Put32(e.logType) && h[20..24] == Put32(|e.data|)
  {
  }

  lemma HeaderValues(e: Entry)
    ensures var h := Header(e);
            && Get(h[0..4]) == MAGIC && Get(h[8..16]) == e.tenant
            && Get32(h[16..20]) == e.logType && Get32(h[20..24]) == |e.data|
  {
    HeaderFields(e);
    GetPutU32(MAGIC);
    GetPutU64(e.tenant);
    Get32Put32(e.logType);
    Get32Put32(|e.data|);
  }

  /** Bytes that start with the header of `e` give `e` if its data is there too. */
  lemma NextAfterHeader(e: Entry, bytes: seq<byte>)
    requires |bytes| >= HEADER_SIZE && bytes[..HEADER_SIZE] == Header(e)
    requires |bytes| >= HEADER_SIZE + |e.data| ==> bytes[HEADER_SIZE..HEADER_SIZE + |e.data|] == e.data
    ensures NextEntry(bytes) == if HEADER_SIZE + |e.data| <= |bytes| then Some(e) else None
  {
    HeaderValues(e);
    var h := bytes[..HEADER_SIZE];
    assert bytes[0..4] == h[0..4] && bytes[8..16] == h[8..16] && bytes[16..20] == h[16..20]
           && bytes[20..24] == h[20..24];
  }

  lemma NextOfPrefix(e: Entry, rest: seq<byte>, k: nat)
    requires k <= |EncodeEntry(e) + rest|
    ensures NextEntry((EncodeEntry(e) + rest)[..k]) == if |EncodeEntry(e)| <= k then Some(e) else None
  {
    var bytes := (EncodeEntry(e) + rest)[..k];
    if k >= HEADER_SIZE {
      assert bytes[..HEADER_SIZE] == Header(e);
      if HEADER_SIZE + |e.data| <= k {
        assert bytes[HEADER_SIZE..HEADER_SIZE + |e.data|] == e.data;
      }
      NextAfterHeader(e, bytes);
    }
  }

  lemma LogReadsFrames()
    ensures ReadsFrames(EncodeEntry, NextEntry)
  {
    forall e: Entry, rest: seq<byte>, k | 0 <= k <= |EncodeEntry(e) + rest|
      ensures NextEntry((EncodeEntry(e) + rest)[..k]) == if |EncodeEntry(e)| <= k then Some(e) else None
    {
      NextOfPrefix(e, rest, k);
    }
  }

  lemma ReplayUnfolds(bytes: seq<byte>)
    ensures match NextEntry(bytes)
            case None => Replay(bytes) == []
            case Some(e) => HEADER_SIZE + |e.data| <= |bytes|
                            && Replay(bytes) == [e] + Replay(bytes[HEADER_SIZE + |e.data|..])
  {
    match NextEntry(bytes)
    case None =>
    case Some(e) => assert |EncodeEntry(e)| == HEADER_SIZE + |e.data|;
  }

  // ---------------------------------------------------------------- whole and truncated files

  lemma TruncatedParse(es: seq<Entry>, k: nat)
    requires k <= |Flatten(EncodeEntry, es)|
    ensures Replay(Flatten(EncodeEntry, es)[..k]) == es[..Whole(EncodeEntry, es, k)]
  {
    LogReadsFrames();
    ParseOfPrefix(EncodeEntry, NextEntry, es, k);
  }

  /** Whatever is cut off the end of the file, replay delivers exactly the entries that are wholly there, in order
      and unchanged. */
  lemma TruncatedReplay(es: seq<Entry>, k: nat)
    requires k <= |Flatten(EncodeEntry, es)|
    ensures var n := Whole(EncodeEntry, es, k);
            && Replay(Flatten(EncodeEntry, es)[..k]) == es[..n]
            && |Flatten(EncodeEntry, es[..n])| <= k
            && (n < |es| ==> k < |Flatten(EncodeEntry, es[..n + 1])|)
  {
    TruncatedParse(es, k);
    WholeIsLargest(EncodeEntry, es, k);
  }

  lemma ReplayRoundTrip(es: seq<Entry>)
    ensures Replay(Flatten(EncodeEntry, es)) == es
  {
    LogReadsFrames();
    ParseRoundTrip(EncodeEntry, NextEntry, es);
  }
}

/** The logger. */
module StorageLogObject {
  import opened Common
  import opened Bytes
  import opened Framing
  import opened StorageLogSpec

  lemma OneMore(done: seq<Entry>, e: Entry, rest: seq<Entry>)
    ensures done + ([e] + rest) == (done + [e]) + rest
  {
  }

  class StorageLogger {
    var file: seq<byte>

    // The entries written since the file was created.
    ghost var entries: seq<Entry>

    ghost predicate Valid()
      reads this
    {
      file == Flatten(EncodeEntry, entries)
    }

    constructor ()
      ensures Valid() && entries == []
    {
      file, entries := [], [];
    }

    method WriteLog(e: Entry)
      requires Valid()
      modifies this
      ensures Valid() && entries == old(entries) + [e]
    {
      FlattenAppends(EncodeEntry, entries, e);
      file := file + EncodeEntry(e);
      entries := entries + [e];
    }

    /** One pass of the replay loop, up to the callback. */
    static method ReadEntry(left: seq<byte>) returns (r: Option<Entry>, after: seq<byte>)
      ensures r == None ==> Replay(left) == []
      ensures r.Some? ==> |after| < |left| && Replay(left) == [r.value] + Replay(after)
    {
      ReplayUnfolds(left);
      after := left;
      if |left| < HEADER_SIZE {
        return None, left;
      }
      if Get(left[0..4]) != MAGIC {
        return None, left;
      }
      var dataLen := Get32(left[20..24]);
      if dataLen < 0 || |left| - HEADER_SIZE < dataLen {
        return None, left;
      }
      Pow8();
      after := left[HEADER_SIZE + dataLen..];
      r := Some(EntryData(Get(left[8..16]), Get32(left[16..20]), left[HEADER_SIZE..HEADER_SIZE + dataLen]));
    }

    /** The entries handed to the callback, in order, when the file on disk is `image`. */
    static method ReplayFile(image: seq<byte>) returns (delivered: seq<Entry>)
      ensures delivered == Replay(image)
    {
      delivered := [];
      var left := image;
      while true
        invariant delivered + Replay(left) == Replay(image)
        decreases |left|
      {
        var r, after := ReadEntry(left);
        if r == None {
          break;
        }
        OneMore(delivered, r.value, Replay(after));
        delivered := delivered + [r.value];
        left := after;
      }
    }

    /** A crash keeps some prefix of the file; replay then delivers the entries wholly inside it. */
    method ReplayAfterCrash(kept: nat) returns (delivered: seq<Entry>)
      requires Valid() && kept <= |file|
      ensures delivered == entries[..Whole(EncodeEntry, entries, kept)]
    {
      TruncatedReplay(entries, kept);
      delivered := ReplayFile(file[..kept]);
    }
  }
}
