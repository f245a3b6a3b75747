/** The schema in memory, the two logs, and the calls that tie them together. */
module DdlServiceObject {
  import opened Common
  import opened Bytes
  import opened DdlSpec
  import opened StorageLogSpec
  import opened StorageLogObject

  class SchemaService {
    var databases: map<nat, Name>
    var nextDatabaseId: nat

    // The stored names in the order of their ids.
    ghost var names: Schema

    ghost predicate Valid()
      reads this
    {
      && nextDatabaseId == |names| + 1
      && (forall id :: id in databases <==> 1 <= id <= |names|)
      && (forall id :: id in databases ==> databases[id] == names[id - 1])
    }

    constructor ()
      ensures Valid() && names == []
    {
      databases, nextDatabaseId, names := map[], 1, [];
    }

    /** Looks at the databases in no particular order. */
    method GetDatabaseSchema(name: Name) returns (id: Option<nat>)
      requires Valid()
      ensures id.Some? <==> name in names
      ensures id.Some? ==> 1 <= id.value <= |names| && names[id.value - 1] == name
    {
      var left := databases.Keys;
      while left != {}
        invariant left <= databases.Keys
        invariant forall i :: i in databases && i !in left ==> databases[i] != name
      {
        var i :| i in left;
        if databases[i] == name {
          return Some(i);
        }
        left := left - {i};
      }
      forall k | 0 <= k < |names| ensures names[k] != name {
        assert k + 1 in databases;
      }
      id := None;
    }

    method CreateDatabase(name: Name) returns (id: nat)
      requires Valid()
      modifies this
      ensures Valid() && names == old(names) + [Stored(name)] && id == |names|
    {
      id := nextDatabaseId;
      nextDatabaseId := nextDatabaseId + 1;
      databases := databases[id := Stored(name)];
      names := names + [Stored(name)];
    }
  }

  // ---------------------------------------------------------------- records of the commit log

  const CREATE_DATABASE := 1
  const SLOG_CREATE_DATABASE := 4

  function EncodeRecord(name: Name): seq<byte> {
    Put(CREATE_DATABASE, 8) + Put(|name|, 8) + name
  }

  /** The name in a record that creates a database. */
  function DecodeRecord(record: seq<byte>): Option<Name> {
    if |record| < 16 || Get(record[0..8]) != CREATE_DATABASE || |record| < 16 + Get(record[8..16]) then None
    else Some(record[16..16 + Get(record[8..16])])
  }

  lemma RecordSlices(t: seq<byte>, l: seq<byte>, name: seq<byte>)
    requires |t| == 8 && |l| == 8
    ensures var r := t + l + name; r[0..8] == t && r[8..16] == l && r[16..16 + |name|] == name
  {
  }

  /** Type 1, the length of the name, the name. */
  lemma RecordLayout(name: Name)
    ensures var r := EncodeRecord(name); r[0..8] == Put(1, 8) && r[8..16] == Put(|name|, 8) && r[16..] == name
  {
    RecordSlices(Put(CREATE_DATABASE, 8), Put(|name|, 8), name);
  }

  lemma DecodeEncodeRecord(name: Name)
    requires |name| < 0x8000_0000
    ensures DecodeRecord(EncodeRecord(name)) == Some(name)
  {
    RecordSlices(Put(CREATE_DATABASE, 8), Put(|name|, 8), name);
    GetPutU64(CREATE_DATABASE);
    GetPutU64(|name|);
  }

  ghost predicate LogHolds(clog: seq<seq<byte>>, names: seq<Name>) {
    && |clog| == |names|
    && forall i {:trigger clog[i]} :: 0 <= i < |names| ==> clog[i] == EncodeRecord(names[i]) && |names[i]| < 0x8000_0000
  }

  lemma LogHoldsMore(clog: seq<seq<byte>>, names: seq<Name>, n: Name)
    requires LogHolds(clog, names) && |n| < 0x8000_0000
    ensures LogHolds(clog + [EncodeRecord(n)], names + [n])
  {
  }

  ghost predicate SlogHolds(entries: seq<Entry>, names: seq<Name>) {
    |entries| == |names| && forall i :: 0 <= i < |names| ==> entries[i] == EntryData(1, SLOG_CREATE_DATABASE, names[i])
  }

  /** The commit log is an ordered list of records, the storage log a file; both outlive the process. */
  class DdlService {
    const schema: SchemaService
    const slog: StorageLogger
    var clog: seq<seq<byte>>

    ghost var logged: seq<Name>
    ghost var slogged: seq<Name>

    ghost predicate Valid()
      reads this, schema, slog
    {
      && schema.Valid() && slog.Valid()
      && LogHolds(clog, logged) && SlogHolds(slog.entries, slogged) && Within(slogged, logged)
    }

    /** A process that starts with the logs of the one before it. */
    constructor (clog: seq<seq<byte>>, slog: StorageLogger, ghost logged: seq<Name>, ghost slogged: seq<Name>)
      requires slog.Valid() && LogHolds(clog, logged) && SlogHolds(slog.entries, slogged) && Within(slogged, logged)
      ensures Valid() && fresh(schema) && schema.names == [] && this.slog == slog
      ensures this.clog == clog && this.logged == logged && this.slogged == slogged
    {
      schema := new SchemaService();
      this.slog, this.clog, this.logged, this.slogged := slog, clog, logged, slogged;
    }

    /** The conflict check, and the new database if there is no conflict. */
    method CreateInSchema(name: Name) returns (id: Option<nat>)
      requires schema.Valid()
      modifies schema
      ensures schema.Valid() && schema.names == Create(old(schema.names), name)
      ensures id == if name in old(schema.names) then None else Some(|schema.names|)
    {
      var known := schema.GetDatabaseSchema(name);
      if known.Some? {
        return None;
      }
      var n := schema.CreateDatabase(name);
      id := Some(n);
    }

    /** Logged first, even if the database exists; then applied; then, if it is new, noted in the storage log. */
    method CreateDatabase(name: Name) returns (id: Option<nat>)
      requires Valid() && |name| < 0x8000_0000
      modifies this, schema, slog
      ensures Valid() && logged == old(logged) + [name] && schema.names == Create(old(schema.names), name)
      ensures id == if name in old(schema.names) then None else Some(|schema.names|)
      ensures slogged == if id == None then old(slogged) else old(slogged) + [name]
    {
      LogHoldsMore(clog, logged, name);
      clog := clog + [EncodeRecord(name)];
      logged := logged + [name];
      id := CreateInSchema(name);
      if id == None {
        return;
      }
      NoteInSlog(name);
    }

    method NoteInSlog(name: Name)
      requires slog.Valid() && SlogHolds(slog.entries, slogged) && Within(slogged, logged)
      requires name in logged && |name| < 0x8000_0000
      modifies slog, this`slogged
      ensures slog.Valid() && SlogHolds(slog.entries, slogged) && Within(slogged, logged)
              && slogged == old(slogged) + [name]
    {
      slog.WriteLog(EntryData(1, SLOG_CREATE_DATABASE, name));
      slogged := slogged + [name];
    }

    /** One record of the commit log; the name goes through a buffer of 256 bytes. */
    method Replay(record: seq<byte>)
      requires schema.Valid() && (DecodeRecord(record).Some? ==> |DecodeRecord(record).value| < 256)
      modifies schema
      ensures schema.Valid()
      ensures schema.names == match DecodeRecord(record)
                              case None => old(schema.names)
                              case Some(name) => Create(old(schema.names), name)
    {
      var name := DecodeRecord(record);
      if name.Some? {
        var _ := CreateInSchema(name.value);
      }
    }

    method ReplayAt(records: seq<seq<byte>>, ghost names: seq<Name>, i: nat)
      requires schema.Valid() && LogHolds(records, names) && i < |records| && |names[i]| < 256
      modifies schema
      ensures schema.Valid() && schema.names == Create(old(schema.names), names[i])
    {
      assert records[i] == EncodeRecord(names[i]);
      DecodeEncodeRecord(names[i]);
      Replay(records[i]);
    }

    method ReplayClog(records: seq<seq<byte>>, ghost names: seq<Name>)
      requires schema.Valid() && LogHolds(records, names) && forall i :: 0 <= i < |names| ==> |names[i]| < 256
      modifies schema
      ensures schema.Valid() && schema.names == CreateAll(old(schema.names), names)
    {
      for i := 0 to |records|
        invariant schema.Valid() && schema.names == CreateAll(old(schema.names), names[..i])
      {
        ReplayAt(records, names, i);
        assert names[..i + 1] == names[..i] + [names[i]];
        CreateAllStep(old(schema.names), names[..i], names[i]);
      }
      assert names[..|names|] == names;
    }

    method ReplaySlog(entries: seq<Entry>, ghost names: seq<Name>)
      requires schema.Valid() && SlogHolds(entries, names)
      modifies schema
      ensures schema.Valid() && schema.names == CreateAll(old(schema.names), names)
    {
      for i := 0 to |entries|
        invariant schema.Valid() && schema.names == CreateAll(old(schema.names), names[..i])
      {
        if entries[i].logType == SLOG_CREATE_DATABASE {
          var _ := CreateInSchema(entries[i].data);
        }
        assert names[..i + 1] == names[..i] + [names[i]];
        CreateAllStep(old(schema.names), names[..i], names[i]);
      }
      assert names[..|names|] == names;
    }

    method ReadSlog() returns (entries: seq<Entry>)
      requires slog.Valid()
      ensures entries == slog.entries
    {
      ReplayRoundTrip(slog.entries);
      entries := StorageLogger.ReplayFile(slog.file);
    }

    /** In a new process: the schema of the commit log, and nothing else if no name in the storage log is too long. */
    method RecoverSchema()
      requires Valid() && schema.names == [] && forall i :: 0 <= i < |logged| ==> |logged[i]| < 256
      modifies schema
      ensures Valid() && schema.names == Recovered(logged, slogged)
      ensures schema.names == Rebuilt(logged) <==> AllShort(slogged)
    {
      ReplayClog(clog, logged);
      var entries := ReadSlog();
      ReplaySlog(entries, slogged);
      SlogAddsNothingIff(logged, slogged);
    }
  }
}
