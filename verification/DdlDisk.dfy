/** CREATE DATABASE on the commit log as it is on disk: what a new process rebuilds from the block files. */
module DdlDiskSpec {
  import opened Common
  import opened Bytes
  import opened DdlSpec
  import opened PalfSpec
  import DdlServiceObject

  const BASE_HEADER_SIZE := 16
  const DDL_LOG_BASE_TYPE := 5

  /** The header that the log handler puts before a record: version, type, flags and hint. */
  function BaseHeader(logType: nat): (h: seq<byte>)
    ensures |h| == BASE_HEADER_SIZE
  {
    Put(1, 2) + Put(logType, 2) + Blank(12)
  }

  /** What is appended for a new database. */
  function LogRecord(name: Name): Payload
    requires |name| < 0x8000_0000
  {
    BaseHeader(DDL_LOG_BASE_TYPE) + DdlServiceObject.EncodeRecord(name)
  }

  /** The record behind the header if it is one of the service; other types have no handler. */
  function Dispatch(payload: seq<byte>): Option<seq<byte>> {
    if |payload| < BASE_HEADER_SIZE || Get(payload[2..4]) != DDL_LOG_BASE_TYPE then None
    else Some(payload[BASE_HEADER_SIZE..])
  }

  /** The name of the database that the payload creates, if it creates one. */
  function NameIn(payload: seq<byte>): Option<Name> {
    match Dispatch(payload)
    case None => None
    case Some(record) => DdlServiceObject.DecodeRecord(record)
  }

  /** The names that `f` finds, in order. */
  function Found(f: seq<byte> -> Option<Name>, payloads: seq<seq<byte>>): seq<Name> {
    if payloads == [] then []
    else
      var front := Found(f, payloads[..|payloads| - 1]);
      match f(payloads[|payloads| - 1])
      case None => front
      case Some(name) => front + [name]
  }

  function NamesIn(payloads: seq<seq<byte>>): seq<Name> {
    Found(NameIn, payloads)
  }

  /** The names fit the buffer of the replay. */
  ghost predicate NamesFit(payloads: seq<seq<byte>>) {
    forall i :: 0 <= i < |payloads| ==> NameIn(payloads[i]).Some? ==> |NameIn(payloads[i]).value| < 256
  }

  lemma NamesInStep(payloads: seq<seq<byte>>, p: seq<byte>)
    ensures NamesIn(payloads + [p]) ==
            match NameIn(p) case None => NamesIn(payloads) case Some(name) => NamesIn(payloads) + [name]
  {
    assert (payloads + [p])[..|payloads|] == payloads;
  }

  lemma BaseHeaderSlices(v: seq<byte>, t: seq<byte>, x: seq<byte>, record: seq<byte>)
    requires |v| == 2 && |t| == 2 && |x| == 12
    ensures var p := v + t + x + record; p[2..4] == t && p[BASE_HEADER_SIZE..] == record
  {
  }

  /** Version 1 and type 5 in front of the record. */
  lemma LogRecordLayout(name: Name)
    requires |name| < 0x8000_0000
    ensures var p := LogRecord(name);
            && p[0..2] == Put(1, 2) && p[2..4] == Put(5, 2) && p[4..16] == Blank(12)
            && p[16..] == DdlServiceObject.EncodeRecord(name)
  {
    LogRecordParts(Put(1, 2), Put(DDL_LOG_BASE_TYPE, 2), DdlServiceObject.EncodeRecord(name));
  }

  lemma LogRecordParts(v: seq<byte>, t: seq<byte>, record: seq<byte>)
    requires |v| == 2 && |t| == 2
    ensures var p := v + t + Blank(12) + record;
            p[0..2] == v && p[2..4] == t && p[4..16] == Blank(12) && p[16..] == record
  {
  }

  lemma NameInRecord(name: Name)
    requires |name| < 0x8000_0000
    ensures NameIn(LogRecord(name)) == Some(name)
  {
    BaseHeaderSlices(Put(1, 2), Put(DDL_LOG_BASE_TYPE, 2), Blank(12), DdlServiceObject.EncodeRecord(name));
    Pow2();
    GetPut(DDL_LOG_BASE_TYPE, 2);
    DdlServiceObject.DecodeEncodeRecord(name);
  }

  predicate IsRecord(payload: seq<byte>, name: Name) {
    |name| < 0x8000_0000 && payload == LogRecord(name)
  }

  /** The payloads are the records of these names. */
  ghost predicate Records(payloads: seq<seq<byte>>, names: seq<Name>) {
    |payloads| == |names| && forall i :: 0 <= i < |names| ==> IsRecord(payloads[i], names[i])
  }

  lemma RecordsPrefix(payloads: seq<seq<byte>>, names: seq<Name>, k: nat)
    requires Records(payloads, names) && k <= |names|
    ensures Records(payloads[..k], names[..k])
  {
    forall i | 0 <= i < k ensures IsRecord(payloads[..k][i], names[..k][i]) {
      assert IsRecord(payloads[i], names[i]);
    }
  }

  lemma {:induction false} FoundAll(f: seq<byte> -> Option<Name>, payloads: seq<seq<byte>>, names: seq<Name>)
    requires |payloads| == |names| && forall i :: 0 <= i < |names| ==> f(payloads[i]) == Some(names[i])
    ensures Found(f, payloads) == names
    decreases |names|
  {
    if names != [] {
      var n := |names| - 1;
      FoundAll(f, payloads[..n], names[..n]);
      assert names[..n] + [names[n]] == names;
    }
  }

  lemma NamesInRecords(payloads: seq<seq<byte>>, names: seq<Name>)
    requires Records(payloads, names)
    ensures NamesIn(payloads) == names
  {
    forall i | 0 <= i < |names| ensures NameIn(payloads[i]) == Some(names[i]) {
      assert IsRecord(payloads[i], names[i]);
      NameInRecord(names[i]);
    }
    FoundAll(NameIn, payloads, names);
  }

  // ---------------------------------------------------------------- what the service is handed

  /** The payload of entry `i`, or whatever the read buffer holds there if not all of the entry was read. */
  function Handed(ps: seq<Payload>, stale: nat -> seq<byte>, i: nat): seq<byte>
    requires i < |ps|
  {
    if Inside(Start(ps, i), ps[i]) then ps[i] else stale(i)
  }

  function HandedUpTo(ps: seq<Payload>, stale: nat -> seq<byte>, k: nat): (s: seq<seq<byte>>)
    requires k <= |ps|
    ensures |s| == k
  {
    seq(k, i requires 0 <= i < k => Handed(ps, stale, i))
  }

  /** Every entry that a restart still finds is read whole. */
  ghost predicate NoneTorn(ps: seq<Payload>) {
    forall i :: 0 <= i < Survives(ps) ==> Inside(Start(ps, i), ps[i])
  }

  lemma NoneTornHanded(ps: seq<Payload>, stale: nat -> seq<byte>)
    requires NoneTorn(ps)
    ensures HandedUpTo(ps, stale, Survives(ps)) == ps[..Survives(ps)]
  {
  }

  /** The schema that a new process rebuilds from a disk that holds these payloads. */
  function RebuiltFrom(ps: seq<Payload>, stale: nat -> seq<byte>): Schema {
    Rebuilt(NamesIn(HandedUpTo(ps, stale, Survives(ps))))
  }

  /** Without torn entries it is the schema of the names in the payloads before the first entry whose header crosses the
      end of its block, whatever other records are among them. */
  lemma AnyDiskRebuilds(ps: seq<Payload>, stale: nat -> seq<byte>)
    requires NoneTorn(ps)
    ensures RebuiltFrom(ps, stale) == Rebuilt(NamesIn(ps[..Survives(ps)]))
    ensures AllInside(ps, 0) ==> RebuiltFrom(ps, stale) == Rebuilt(NamesIn(ps))
  {
    NoneTornHanded(ps, stale);
    InsideSurvives(ps);
    assert ps[..|ps|] == ps;
  }

  /** If all records are of databases: those logged before the first crossing entry; all of them if every entry ends in
      its block and fits the read buffer. */
  lemma DiskRebuilds(ps: seq<Payload>, names: seq<Name>, stale: nat -> seq<byte>)
    requires Records(ps, names) && NoneTorn(ps)
    ensures RebuiltFrom(ps, stale) == Rebuilt(names[..Survives(ps)])
    ensures AllInside(ps, 0) ==> RebuiltFrom(ps, stale) == Rebuilt(names)
  {
    var k := Survives(ps);
    AnyDiskRebuilds(ps, stale);
    RecordsPrefix(ps, names, k);
    NamesInRecords(ps[..k], names[..k]);
    InsideSurvives(ps);
    assert names[..|names|] == names;
  }

  lemma {:induction false} RebuiltWithin(names: seq<Name>)
    requires AllShort(names)
    ensures Within(Rebuilt(names), names)
    decreases |names|
  {
    if names != [] {
      RebuiltWithin(names[..|names| - 1]);
    }
  }

  /** The first `k` records give the schema of all if and only if the others name no further database. */
  lemma PrefixEnoughIff(names: seq<Name>, k: nat)
    requires AllShort(names) && k <= |names|
    ensures Rebuilt(names[..k]) == Rebuilt(names) <==> Within(names[k..], names[..k])
  {
    var front, rest := names[..k], names[k..];
    assert names == front + rest;
    CreateAllJoin([], front, rest);
    if Within(rest, front) {
      forall n | n in rest ensures n in Rebuilt(front) {
        ShortFound(front, n);
      }
      KnownChangeNothing(Rebuilt(front), rest);
    }
    if Rebuilt(front) == Rebuilt(names) {
      RebuiltWithin(front);
      forall n | n in rest ensures n in front {
        ShortFound(names, n);
      }
    }
  }

  /** So a restart from the commit log alone keeps every database if and only if no entry from the first crossing one on
      creates one. */
  lemma DiskKeepsAllIff(ps: seq<Payload>, names: seq<Name>, stale: nat -> seq<byte>)
    requires Records(ps, names) && NoneTorn(ps) && AllShort(names)
    ensures RebuiltFrom(ps, stale) == Rebuilt(names) <==> Within(names[Survives(ps)..], names[..Survives(ps)])
  {
    DiskRebuilds(ps, names, stale);
    PrefixEnoughIff(names, Survives(ps));
  }

  lemma ThreeLetterSize(payload: seq<byte>, name: Name)
    requires IsRecord(payload, name) && |name| == 3
    ensures HEAD_SIZE + |payload| == 83
  {
  }

  /** Of databases with three-letter names the commit log gives back the first 808491 records, and none behind them. */
  lemma ThreeLetterDatabases(ps: seq<Payload>, names: seq<Name>, stale: nat -> seq<byte>)
    requires Records(ps, names) && |names| >= 808491 && forall i :: 0 <= i < 808491 ==> |names[i]| == 3
    ensures RebuiltFrom(ps, stale) == Rebuilt(names[..808491])
  {
    forall i | 0 <= i < 808491 ensures EntrySize(ps[i]) == 83 {
      assert IsRecord(ps[i], names[i]);
      ThreeLetterSize(ps[i], names[i]);
    }
    EightyThrees(ps);
    SurvivesAt(ps, 808491);
    forall i | 0 <= i < 808491 ensures Inside(Start(ps, i), ps[i]) {
      InsideEightyThrees(ps, i);
    }
    DiskRebuilds(ps, names, stale);
  }

  // ---------------------------------------------------------------- what the storage log brings back

  predicate Distinct(s: seq<Name>) {
    forall i, j :: 0 <= i < j < |s| ==> s[i] != s[j]
  }

  lemma {:induction false} RebuiltDistinct(names: seq<Name>)
    requires AllShort(names)
    ensures Distinct(Rebuilt(names)) && AllShort(Rebuilt(names))
    decreases |names|
  {
    if names != [] {
      RebuiltDistinct(names[..|names| - 1]);
    }
  }

  lemma {:induction false} NewOnesAreAdded(s: Schema, more: seq<Name>)
    requires Distinct(s + more) && AllShort(more)
    ensures CreateAll(s, more) == s + more
    decreases |more|
  {
    if more == [] {
      assert s + more == s;
    } else {
      var front, last := more[..|more| - 1], more[|more| - 1];
      var all := s + more;
      assert all == (s + front) + [last];
      assert forall i :: 0 <= i < |s + front| ==> (s + front)[i] == all[i];
      NewOnesAreAdded(s, front);
      assert last == all[|all| - 1] && last !in s + front;
    }
  }

  /** Recovery with the first `k` records of the commit log and a storage log that notes every database in the order of
      the ids gives every database its id again, however few records are left. */
  lemma SlogRepairs(names: seq<Name>, k: nat)
    requires AllShort(names) && k <= |names|
    ensures Recovered(names[..k], Rebuilt(names)) == Rebuilt(names)
  {
    var part, full := Rebuilt(names[..k]), Rebuilt(names);
    RebuiltGrows(names[..k], names);
    RebuiltDistinct(names);
    var rest := full[|part|..];
    assert full == part + rest;
    CreateAllJoin(part, part, rest);
    KnownChangeNothing(part, part);
    NewOnesAreAdded(part, rest);
  }

  /** Recovery from the files of both logs, without torn entries: the commit log up to its first crossing entry, then
      the storage log, which makes up for the rest if it notes every database in the order of the ids. */
  lemma DiskRecovers(ps: seq<Payload>, names: seq<Name>, slogged: seq<Name>, stale: nat -> seq<byte>)
    requires Records(ps, names) && NoneTorn(ps)
    ensures CreateAll(RebuiltFrom(ps, stale), slogged) == Recovered(names[..Survives(ps)], slogged)
    ensures AllShort(names) && slogged == Rebuilt(names) ==>
              CreateAll(RebuiltFrom(ps, stale), slogged) == Rebuilt(names)
  {
    DiskRebuilds(ps, names, stale);
    if AllShort(names) {
      SlogRepairs(names, Survives(ps));
    }
  }
}

/** The log handler between the service and the log, and recovery from the files of both logs. */
module DdlDiskObject {
  import opened Common
  import opened Bytes
  import opened DdlSpec
  import opened PalfSpec
  import opened PalfObject
  import opened DdlServiceObject
  import opened DdlDiskSpec

  /** The record of a new database goes to the end of the log. */
  method AppendCreate(log: PalfLog, name: Name, junk: seq<byte>, ghost names: seq<Name>)
    requires log.Valid() && Records(log.payloads, names) && |name| < 0x8000_0000 && |junk| == 8
    requires log.endLsn + EntrySize(LogRecord(name)) < 0x1_0000_0000_0000_0000
    modifies log
    ensures log.Valid() && Records(log.payloads, names + [name])
  {
    assert IsRecord(LogRecord(name), name);
    var _ := log.Append(LogRecord(name), junk);
  }

  /** One delivered payload; what is not a record of the service is skipped. */
  method ReplayPayload(ddl: DdlService, payload: seq<byte>)
    requires ddl.schema.Valid() && (NameIn(payload).Some? ==> |NameIn(payload).value| < 256)
    modifies ddl.schema
    ensures ddl.schema.Valid()
    ensures ddl.schema.names == match NameIn(payload)
                                case None => old(ddl.schema.names)
                                case Some(name) => Create(old(ddl.schema.names), name)
  {
    var record := Dispatch(payload);
    if record.Some? {
      ddl.Replay(record.value);
    }
  }

  lemma RebuiltStep(s: seq<seq<byte>>, i: nat)
    requires i < |s|
    ensures Rebuilt(NamesIn(s[..i + 1])) == match NameIn(s[i])
                                            case None => Rebuilt(NamesIn(s[..i]))
                                            case Some(name) => Create(Rebuilt(NamesIn(s[..i])), name)
  {
    assert s[..i + 1] == s[..i] + [s[i]];
    NamesInStep(s[..i], s[i]);
    if NameIn(s[i]).Some? {
      CreateAllStep([], NamesIn(s[..i]), NameIn(s[i]).value);
    }
  }

  method ReplayAll(ddl: DdlService, payloads: seq<seq<byte>>)
    requires ddl.schema.Valid() && ddl.schema.names == [] && NamesFit(payloads)
    modifies ddl.schema
    ensures ddl.schema.Valid() && ddl.schema.names == Rebuilt(NamesIn(payloads))
  {
    for i := 0 to |payloads|
      invariant ddl.schema.Valid() && ddl.schema.names == Rebuilt(NamesIn(payloads[..i]))
    {
      ReplayPayload(ddl, payloads[i]);
      RebuiltStep(payloads, i);
    }
    assert payloads[..|payloads|] == payloads;
  }

  lemma DeliversHanded(given: seq<Option<seq<byte>>>, handed: seq<seq<byte>>, ps: seq<Payload>, stale: nat -> seq<byte>)
    requires Delivers(given, ps, 0, Survives(ps)) && |handed| == |given|
    requires forall i :: 0 <= i < |given| ==> handed[i] == match given[i] case Some(p) => p case None => stale(i)
    ensures handed == HandedUpTo(ps, stale, Survives(ps))
  {
    forall i | 0 <= i < |given| ensures handed[i] == Handed(ps, stale, i) {
      assert given[i - 0] == Delivery(ps, i);
    }
  }

  method ReplayDisk(log: PalfLog, ddl: DdlService, stale: nat -> seq<byte>)
    requires log.Valid() && NamesFit(HandedUpTo(log.payloads, stale, Survives(log.payloads)))
    requires ddl.schema.Valid() && ddl.schema.names == []
    modifies log`endLsn, log`logId, ddl.schema
    ensures log.Valid() && ddl.schema.Valid() && ddl.schema.names == RebuiltFrom(log.payloads, stale)
  {
    var given := log.RestartAndReplay();
    var handed := seq(|given|, i requires 0 <= i < |given| => match given[i] case Some(p) => p case None => stale(i));
    DeliversHanded(given, handed, log.payloads, stale);
    ReplayAll(ddl, handed);
  }

  /** A new process on the files: the end of the commit log is found and the log replayed into the empty schema, then
      the storage log. For an entry that was not all read, `stale` is what the read buffer holds. */
  method RecoverFromDisk(log: PalfLog, ddl: DdlService, stale: nat -> seq<byte>)
    requires log.Valid() && NamesFit(HandedUpTo(log.payloads, stale, Survives(log.payloads)))
    requires ddl.schema.Valid() && ddl.schema.names == []
    requires ddl.slog.Valid() && SlogHolds(ddl.slog.entries, ddl.slogged)
    modifies log`endLsn, log`logId, ddl.schema
    ensures log.Valid() && ddl.schema.Valid()
    ensures ddl.schema.names == CreateAll(RebuiltFrom(log.payloads, stale), ddl.slogged)
  {
    ReplayDisk(log, ddl, stale);
    var entries := ddl.ReadSlog();
    ddl.ReplaySlog(entries, ddl.slogged);
  }
}
