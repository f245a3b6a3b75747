/** CREATE DATABASE is logged before it is applied; a restart rebuilds the schema from the two logs. */
module DdlSpec {
  import opened Common

  /** A C string, without its terminator. */
  type Name = seq<byte>

  const NAME_LIMIT := 127

  predicate Short(n: Name) {
    |n| <= NAME_LIMIT
  }

  /** What the name field of a database keeps of a name. */
  function Stored(n: Name): (s: Name)
    ensures Short(s) && (s == n <==> Short(n))
  {
    if |n| <= NAME_LIMIT then n else n[..NAME_LIMIT]
  }

  /** The stored names of the databases in the order of their ids, which start at 1: an id is handed out with each new
      database and is never given again. A name that is found is a conflict. */
  type Schema = seq<Name>

  function Create(s: Schema, n: Name): Schema {
    if n in s then s else s + [Stored(n)]
  }

  function CreateAll(s: Schema, names: seq<Name>): Schema {
    if names == [] then s else Create(CreateAll(s, names[..|names| - 1]), names[|names| - 1])
  }

  /** The schema that the commit log gives. */
  function Rebuilt(log: seq<Name>): Schema {
    CreateAll([], log)
  }

  /** Replay of the commit log, then of the storage log. */
  function Recovered(clog: seq<Name>, slog: seq<Name>): Schema {
    CreateAll(Rebuilt(clog), slog)
  }

  // ---------------------------------------------------------------- replay

  lemma CreateAllStep(s: Schema, names: seq<Name>, n: Name)
    ensures CreateAll(s, names + [n]) == Create(CreateAll(s, names), n)
  {
    assert (names + [n])[..|names|] == names;
  }

  lemma {:induction false} CreateAllExtends(s: Schema, names: seq<Name>)
    ensures s <= CreateAll(s, names)
    decreases |names|
  {
    if names != [] {
      CreateAllExtends(s, names[..|names| - 1]);
    }
  }

  lemma {:induction false} CreateAllJoin(s: Schema, p: seq<Name>, q: seq<Name>)
    ensures CreateAll(s, p + q) == CreateAll(CreateAll(s, p), q)
    decreases |q|
  {
    if q == [] {
      assert p + q == p;
    } else {
      var front, last := q[..|q| - 1], q[|q| - 1];
      CreateAllJoin(s, p, front);
      assert p + q == (p + front) + [last];
      CreateAllStep(s, p + front, last);
    }
  }

  /** A longer log gives the same ids to the names of a shorter one. */
  lemma RebuiltGrows(p: seq<Name>, log: seq<Name>)
    requires p <= log
    ensures Rebuilt(p) <= Rebuilt(log)
  {
    assert log == p + log[|p|..];
    CreateAllJoin([], p, log[|p|..]);
    CreateAllExtends(Rebuilt(p), log[|p|..]);
  }

  ghost predicate AllShort(names: seq<Name>) {
    forall n :: n in names ==> Short(n)
  }

  ghost predicate Within(names: seq<Name>, s: seq<Name>) {
    forall n :: n in names ==> n in s
  }

  /** Names that are all known change nothing. */
  lemma {:induction false} KnownChangeNothing(s: Schema, names: seq<Name>)
    requires Within(names, s)
    ensures CreateAll(s, names) == s
    decreases |names|
  {
    if names != [] {
      KnownChangeNothing(s, names[..|names| - 1]);
    }
  }

  lemma {:induction false} StoredShort(s: Schema, names: seq<Name>)
    requires AllShort(s)
    ensures AllShort(CreateAll(s, names))
    decreases |names|
  {
    if names != [] {
      StoredShort(s, names[..|names| - 1]);
    }
  }

  /** The short names of a log are found after its replay. */
  lemma {:induction false} ShortFound(log: seq<Name>, n: Name)
    requires n in log && Short(n)
    ensures n in Rebuilt(log)
    decreases |log|
  {
    var front, last := log[..|log| - 1], log[|log| - 1];
    if n != last {
      assert log == front + [last];
      ShortFound(front, n);
    }
  }

  /** A name that is too long is never found, and adds a database each time. */
  lemma {:induction false} LongAdds(s: Schema, names: seq<Name>, n: Name)
    requires AllShort(s) && n in names && !Short(n)
    ensures |CreateAll(s, names)| > |s|
    decreases |names|
  {
    var front, last := names[..|names| - 1], names[|names| - 1];
    StoredShort(s, front);
    CreateAllExtends(s, front);
    if n != last {
      assert names == front + [last];
      LongAdds(s, front, n);
    }
  }

  /** The storage log holds only names that are in the commit log. Its replay after that of the commit log changes
      nothing, and so the ids are those of the commit log, if and only if none of its names is longer than 127 bytes. */
  lemma SlogAddsNothingIff(clog: seq<Name>, slog: seq<Name>)
    requires Within(slog, clog)
    ensures Recovered(clog, slog) == Rebuilt(clog) <==> AllShort(slog)
  {
    if AllShort(slog) {
      forall n | n in slog ensures n in Rebuilt(clog) {
        ShortFound(clog, n);
      }
      KnownChangeNothing(Rebuilt(clog), slog);
    } else {
      var n :| n in slog && !Short(n);
      StoredShort([], clog);
      LongAdds(Rebuilt(clog), slog, n);
    }
  }

  /** One long name, created once: after a restart there are two databases. */
  lemma LongNameIsDoubled(n: Name)
    requires !Short(n)
    ensures Rebuilt([n]) == [Stored(n)] && Recovered([n], [n]) == [Stored(n), Stored(n)]
  {
    assert [] + [n] == [n];
    CreateAllStep([], [], n);
    CreateAllStep([Stored(n)], [], n);
  }
}

/** The steps of CREATE DATABASE calls, of crashes and of recovery, in any interleaving. */
module DdlProtocol {
  import opened Common
  import opened DdlSpec

  /** How far a call has come: its record is in the commit log; it has looked for the name and not found it; or its
      database is in the schema too. The schema's lock is let go between the look and the insertion. */
  datatype Call = Logged(name: Name) | Checked(name: Name) | Applied(name: Name)

  datatype Phase = Serving | Down | ReplayClog(at: nat) | ReplaySlog(at: nat)

  /** The logs, the schema in memory and the calls under way; `peak` is the schema when the server last served, and
      `lost` the names that were logged but not applied when it crashed. */
  datatype State = State(clog: seq<Name>, slog: seq<Name>, schema: Schema, calls: map<nat, Call>, phase: Phase,
                         peak: Schema, lost: set<Name>)

  datatype Step = Log(call: nat, name: Name) | Check(call: nat) | Insert(call: nat) | WriteSlog(call: nat)
                | Crash | Restart | ReplayOne

  predicate Enabled(s: State, e: Step) {
    match e
    case Log(c, _) => s.phase.Serving? && c !in s.calls
    case Check(c) => s.phase.Serving? && c in s.calls && s.calls[c].Logged?
    case Insert(c) => s.phase.Serving? && c in s.calls && s.calls[c].Checked?
    case WriteSlog(c) => s.phase.Serving? && c in s.calls && s.calls[c].Applied?
    case Crash => !s.phase.Down?
    case Restart => s.phase.Down?
    case ReplayOne => s.phase.ReplayClog? || s.phase.ReplaySlog?
  }

  function Pending(calls: map<nat, Call>): set<Name> {
    set c | c in calls && !calls[c].Applied? :: calls[c].name
  }

  function Next(s: State, e: Step): State
    requires Enabled(s, e)
  {
    match e
    case Log(c, n) => s.(clog := s.clog + [n], calls := s.calls[c := Logged(n)])
    case Check(c) =>
      var n := s.calls[c].name;
      s.(calls := if n in s.schema then s.calls - {c} else s.calls[c := Checked(n)])
    case Insert(c) =>
      var n := s.calls[c].name;
      var next := s.schema + [Stored(n)];
      s.(schema := next, peak := next, calls := s.calls[c := Applied(n)])
    case WriteSlog(c) => s.(slog := s.slog + [s.calls[c].name], calls := s.calls - {c})
    case Crash =>
      s.(phase := Down, schema := [], calls := map[], lost := if s.phase.Serving? then Pending(s.calls) else s.lost)
    case Restart => s.(phase := ReplayClog(0))
    case ReplayOne =>
      match s.phase
      case ReplayClog(i) =>
        if i < |s.clog| then s.(schema := Create(s.schema, s.clog[i]), phase := ReplayClog(i + 1))
        else s.(phase := ReplaySlog(0))
      case ReplaySlog(i) =>
        if i < |s.slog| then s.(schema := Create(s.schema, s.slog[i]), phase := ReplaySlog(i + 1))
        else s.(phase := Serving, peak := s.schema)
  }

  const INITIAL := State([], [], [], map[], Serving, [], {})

  /** The first logged name that the schema lacks. */
  function FirstMissing(log: seq<Name>, s: Schema): Option<Name> {
    if log == [] then None else if log[0] in s then FirstMissing(log[1..], s) else Some(log[0])
  }

  /** Names fit in their field, and a name is inserted only when it is the first logged one that the schema lacks. */
  predicate Orderly(s: State, e: Step)
    requires Enabled(s, e)
  {
    match e
    case Log(_, n) => Short(n)
    case Insert(c) => FirstMissing(s.clog, s.schema) == Some(s.calls[c].name)
    case _ => true
  }

  // ---------------------------------------------------------------- the order of insertions

  lemma {:induction false} FirstMissingIs(log: seq<Name>, s: Schema)
    ensures match FirstMissing(log, s)
            case None => Within(log, s)
            case Some(n) => n in log && n !in s
    decreases |log|
  {
    if log != [] {
      FirstMissingIs(log[1..], s);
      assert log == [log[0]] + log[1..];
    }
  }

  /** A log whose first missing name is `n` builds, from any such schema on, first that name. */
  lemma {:induction false} FirstMissingComesNext(log: seq<Name>, s: Schema)
    requires AllShort(log) && FirstMissing(log, s).Some?
    ensures s + [FirstMissing(log, s).value] <= CreateAll(s, log)
    decreases |log|
  {
    var head, tail := log[0], log[1..];
    assert log == [head] + tail;
    CreateAllJoin(s, [head], tail);
    assert [] + [head] == [head];
    CreateAllStep(s, [], head);
    if head in s {
      FirstMissingComesNext(tail, s);
    } else {
      CreateAllExtends(s + [head], tail);
    }
  }

  lemma {:induction false} PrefixBuilds(log: seq<Name>, s: Schema) returns (p: seq<Name>)
    requires s <= Rebuilt(log)
    ensures p <= log && Rebuilt(p) == s
    decreases |log|
  {
    if log == [] || s == Rebuilt(log) {
      p := log;
    } else {
      p := PrefixBuilds(log[..|log| - 1], s);
    }
  }

  lemma Rebuild(log: seq<Name>)
    requires AllShort(log)
    ensures Within(log, Rebuilt(log))
  {
    forall n | n in log ensures n in Rebuilt(log) {
      ShortFound(log, n);
    }
  }

  /** Replaying the whole log on top of a part of what it builds gives what it builds. */
  lemma ReplayOnPart(log: seq<Name>, s: Schema)
    requires AllShort(log) && s <= Rebuilt(log)
    ensures CreateAll(s, log) == Rebuilt(log)
  {
    var p := PrefixBuilds(log, s);
    var q := log[|p|..];
    assert log == p + q;
    CreateAllJoin(s, p, q);
    CreateAllJoin([], p, q);
    Rebuild(p);
    KnownChangeNothing(s, p);
  }

  ghost predicate Distinct(s: Schema) {
    forall i, j :: 0 <= i < j < |s| ==> s[i] != s[j]
  }

  lemma {:induction false} BuiltFromLog(log: seq<Name>)
    requires AllShort(log)
    ensures Within(Rebuilt(log), log)
    decreases |log|
  {
    if log != [] {
      var front := log[..|log| - 1];
      BuiltFromLog(front);
      assert log == front + [log[|log| - 1]];
    }
  }

  lemma {:induction false} BuiltDistinct(log: seq<Name>)
    requires AllShort(log)
    ensures Distinct(Rebuilt(log))
    decreases |log|
  {
    if log != [] {
      BuiltDistinct(log[..|log| - 1]);
    }
  }

  /** An insertion keeps the ids of the log if and only if the name is the first logged one that the schema lacks; in
      particular it does not if another call has inserted the name meanwhile. */
  lemma InsertInOrderIff(log: seq<Name>, s: Schema, n: Name)
    requires AllShort(log) && s <= Rebuilt(log)
    ensures s + [n] <= Rebuilt(log) <==> FirstMissing(log, s) == Some(n)
  {
    FirstMissingIs(log, s);
    BuiltFromLog(log);
    BuiltDistinct(log);
    if s + [n] <= Rebuilt(log) {
      assert Rebuilt(log)[|s|] == (s + [n])[|s|] == n;
      assert n !in s && n in log;
    }
    if FirstMissing(log, s).Some? {
      FirstMissingComesNext(log, s);
      ReplayOnPart(log, s);
      var next := s + [FirstMissing(log, s).value];
      assert next[|s|] == Rebuilt(log)[|s|];
    }
  }

  // ---------------------------------------------------------------- what every step keeps

  ghost predicate Covered(log: seq<Name>, s: Schema, rest: set<Name>) {
    forall n :: n in log ==> n in s || n in rest
  }

  ghost predicate CallsLogged(calls: map<nat, Call>, log: seq<Name>) {
    forall c :: c in calls ==> calls[c].name in log
  }

  ghost predicate Inv(s: State) {
    && AllShort(s.clog) && Within(s.slog, s.clog) && CallsLogged(s.calls, s.clog) && s.peak <= Rebuilt(s.clog)
    && (s.phase.Serving? ==> s.schema == s.peak && Covered(s.clog, s.schema, Pending(s.calls)))
    && (!s.phase.Serving? ==> s.calls == map[] && Covered(s.clog, s.peak, s.lost))
    && match s.phase
       case Serving => true
       case Down => s.schema == []
       case ReplayClog(i) => i <= |s.clog| && s.schema == Rebuilt(s.clog[..i])
       case ReplaySlog(i) => i <= |s.slog| && s.schema == Rebuilt(s.clog)
  }

  lemma LogKeepsInv(s: State, c: nat, n: Name)
    requires Inv(s) && Enabled(s, Log(c, n)) && Short(n)
    ensures Inv(Next(s, Log(c, n)))
  {
    var t := Next(s, Log(c, n));
    RebuiltGrows(s.clog, t.clog);
    assert t.calls[c] == Logged(n);
    forall m | m in t.clog ensures m in t.schema || m in Pending(t.calls) {
      if m in s.clog && m in Pending(s.calls) {
        var d :| d in s.calls && !s.calls[d].Applied? && s.calls[d].name == m;
        assert t.calls[d] == s.calls[d];
      }
    }
  }

  lemma CheckKeepsInv(s: State, c: nat)
    requires Inv(s) && Enabled(s, Check(c))
    ensures Inv(Next(s, Check(c)))
  {
    var n, t := s.calls[c].name, Next(s, Check(c));
    forall m | m in t.clog ensures m in t.schema || m in Pending(t.calls) {
      if m in Pending(s.calls) && m !in s.schema {
        var d :| d in s.calls && !s.calls[d].Applied? && s.calls[d].name == m;
        assert d in t.calls && !t.calls[d].Applied? && t.calls[d].name == m;
      }
    }
  }

  lemma InsertKeepsInv(s: State, c: nat)
    requires Inv(s) && Enabled(s, Insert(c)) && Orderly(s, Insert(c))
    ensures Inv(Next(s, Insert(c)))
  {
    var n, t := s.calls[c].name, Next(s, Insert(c));
    InsertInOrderIff(s.clog, s.schema, n);
    forall m | m in t.clog ensures m in t.schema || m in Pending(t.calls) {
      if m in Pending(s.calls) && m != n {
        var d :| d in s.calls && !s.calls[d].Applied? && s.calls[d].name == m;
        assert d in t.calls && t.calls[d] == s.calls[d];
      }
    }
  }

  /** In every state that orderly steps lead to: an insertion leaves the schema in step with the log, so that a restart
      keeps all ids, if and only if it is orderly. */
  lemma InsertKeepsInvIff(s: State, c: nat)
    requires Inv(s) && Enabled(s, Insert(c))
    ensures Next(s, Insert(c)).schema <= Recovered(s.clog, s.slog) <==> Orderly(s, Insert(c))
    ensures Inv(Next(s, Insert(c))) <==> Orderly(s, Insert(c))
  {
    var n := s.calls[c].name;
    assert n in s.clog;
    InsertInOrderIff(s.clog, s.schema, n);
    SlogAddsNothingIff(s.clog, s.slog);
    if Orderly(s, Insert(c)) {
      InsertKeepsInv(s, c);
    }
  }

  lemma WriteSlogKeepsInv(s: State, c: nat)
    requires Inv(s) && Enabled(s, WriteSlog(c))
    ensures Inv(Next(s, WriteSlog(c)))
  {
    var t := Next(s, WriteSlog(c));
    forall m | m in t.clog ensures m in t.schema || m in Pending(t.calls) {
      if m in Pending(s.calls) {
        var d :| d in s.calls && !s.calls[d].Applied? && s.calls[d].name == m;
        assert d in t.calls && t.calls[d] == s.calls[d];
      }
    }
  }

  lemma ReplayKeepsInv(s: State)
    requires Inv(s) && Enabled(s, ReplayOne)
    ensures Inv(Next(s, ReplayOne))
  {
    Rebuild(s.clog);
    match s.phase
    case ReplayClog(i) =>
      if i < |s.clog| {
        assert s.clog[..i + 1] == s.clog[..i] + [s.clog[i]];
        CreateAllStep([], s.clog[..i], s.clog[i]);
      } else {
        assert s.clog[..i] == s.clog;
      }
    case ReplaySlog(i) =>
      if i < |s.slog| {
        assert s.slog[i] in s.clog;
      }
  }

  lemma StepKeepsInv(s: State, e: Step)
    requires Inv(s) && Enabled(s, e) && Orderly(s, e)
    ensures Inv(Next(s, e))
  {
    match e
    case Log(c, n) => LogKeepsInv(s, c, n);
    case Check(c) => CheckKeepsInv(s, c);
    case Insert(c) => InsertKeepsInv(s, c);
    case WriteSlog(c) => WriteSlogKeepsInv(s, c);
    case Crash =>
    case Restart => assert s.clog[..0] == [];
    case ReplayOne => ReplayKeepsInv(s);
  }

  /** The schema that was last served is kept: whatever is served next extends it, with the same ids. */
  lemma PeakGrows(s: State, e: Step)
    requires Inv(s) && Enabled(s, e)
    ensures s.peak <= Next(s, e).peak
  {
  }

  /** When recovery is over the schema extends the one before the crash, and what it adds are names of calls that were
      logged but not applied at the crash. */
  lemma RecoveryAddsOnlyLost(s: State)
    requires Inv(s) && Enabled(s, ReplayOne) && Next(s, ReplayOne).phase.Serving?
    ensures var t := Next(s, ReplayOne);
            && s.peak <= t.schema == Rebuilt(s.clog)
            && forall i :: |s.peak| <= i < |t.schema| ==> t.schema[i] in s.lost
  {
    BuiltFromLog(s.clog);
    BuiltDistinct(s.clog);
  }

  // ---------------------------------------------------------------- whole runs

  ghost predicate Runs(s: State, steps: seq<Step>)
    decreases |steps|
  {
    steps == [] || (Enabled(s, steps[0]) && Orderly(s, steps[0]) && Runs(Next(s, steps[0]), steps[1..]))
  }

  ghost function After(s: State, steps: seq<Step>): State
    requires Runs(s, steps)
    decreases |steps|
  {
    if steps == [] then s else After(Next(s, steps[0]), steps[1..])
  }

  lemma {:induction false} RunKeepsInv(s: State, steps: seq<Step>)
    requires Inv(s) && Runs(s, steps)
    ensures Inv(After(s, steps)) && s.peak <= After(s, steps).peak
    decreases |steps|
  {
    if steps != [] {
      StepKeepsInv(s, steps[0]);
      PeakGrows(s, steps[0]);
      RunKeepsInv(Next(s, steps[0]), steps[1..]);
    }
  }

  lemma {:induction false} RunSplits(s: State, p: seq<Step>, q: seq<Step>)
    requires Runs(s, p + q)
    ensures Runs(s, p) && Runs(After(s, p), q) && After(After(s, p), q) == After(s, p + q)
    decreases |p|
  {
    if p == [] {
      assert p + q == q;
    } else {
      assert (p + q)[1..] == p[1..] + q;
      RunSplits(Next(s, p[0]), p[1..], q);
    }
  }

  /** For every run from the empty server, with any crashes and restarts in between: whenever the server serves again,
      every database has the id that it had. */
  lemma IdsNeverChange(p: seq<Step>, q: seq<Step>)
    requires Runs(INITIAL, p + q) && Runs(INITIAL, p)
    requires After(INITIAL, p).phase.Serving? && After(INITIAL, p + q).phase.Serving?
    ensures After(INITIAL, p).schema <= After(INITIAL, p + q).schema
  {
    RunSplits(INITIAL, p, q);
    RunKeepsInv(INITIAL, p);
    RunKeepsInv(After(INITIAL, p), q);
  }

  /** Steps in any interleaving, with names that fit their field. */
  ghost predicate Possible(s: State, steps: seq<Step>)
    decreases |steps|
  {
    steps == [] || (Enabled(s, steps[0]) && (steps[0].Log? ==> Short(steps[0].name))
                    && Possible(Next(s, steps[0]), steps[1..]))
  }

  ghost function Reached(s: State, steps: seq<Step>): State
    requires Possible(s, steps)
    decreases |steps|
  {
    if steps == [] then s else Reached(Next(s, steps[0]), steps[1..])
  }

  /** What one step writes to the logs, and to which calls it sees; a crash loses the calls and the schema, not the
      logs. */
  lemma StepWrites(s: State, e: Step)
    requires Enabled(s, e)
    ensures var t := Next(s, e);
            && t.clog == s.clog + (if e.Log? then [e.name] else [])
            && t.slog == s.slog + (if e.WriteSlog? then [s.calls[e.call].name] else [])
            && (e.Crash? ==> t.calls == map[] && t.schema == [] && t.phase == Down)
            && (e.Log? || e.Check? || e.WriteSlog? || e.Restart? ==> t.schema == s.schema)
            && (e.Insert? ==> t.schema == s.schema + [Stored(s.calls[e.call].name)])
            && (e.Restart? || e.ReplayOne? ==> t.calls == s.calls)
            && (e.Log? || e.Check? || e.Insert? || e.WriteSlog? ==>
                  t.phase == s.phase && forall c :: c != e.call ==>
                    (c in t.calls <==> c in s.calls) && (c in s.calls ==> t.calls[c] == s.calls[c]))
  {
  }

  /** A call is logged, looks, inserts and notes, in this order; it ends early if and only if it finds its name. */
  lemma CallGoesOn(s: State, e: Step)
    requires Enabled(s, e) && (e.Log? || e.Check? || e.Insert? || e.WriteSlog?)
    ensures var t := Next(s, e);
            match e
            case Log(c, n) => c in t.calls && t.calls[c] == Logged(n)
            case Check(c) =>
              if s.calls[c].name in s.schema then c !in t.calls
              else c in t.calls && t.calls[c] == Checked(s.calls[c].name)
            case Insert(c) => c in t.calls && t.calls[c] == Applied(s.calls[c].name)
            case WriteSlog(c) => c !in t.calls
            case _ => true
  {
  }

  /** The names of the calls that were started, in order. */
  function Started(steps: seq<Step>): seq<Name> {
    if steps == [] then [] else (if steps[0].Log? then [steps[0].name] else []) + Started(steps[1..])
  }

  /** The names of the calls that ran to their end, in order. */
  ghost function Finished(s: State, steps: seq<Step>): seq<Name>
    requires Possible(s, steps)
    decreases |steps|
  {
    if steps == [] then []
    else (if steps[0].WriteSlog? then [s.calls[steps[0].call].name] else []) + Finished(Next(s, steps[0]), steps[1..])
  }

  lemma LogsGrow(s: State, e: Step)
    requires Enabled(s, e)
    ensures Next(s, e).clog == s.clog + (if e.Log? then [e.name] else [])
    ensures Next(s, e).slog == s.slog + (if e.WriteSlog? then [s.calls[e.call].name] else [])
  {
  }

  lemma Assoc(a: seq<Name>, b: seq<Name>, c: seq<Name>)
    ensures (a + b) + c == a + (b + c)
  {
  }

  lemma {:induction false} ClogIsStarted(s: State, steps: seq<Step>)
    requires Possible(s, steps)
    ensures Reached(s, steps).clog == s.clog + Started(steps)
    decreases |steps|
  {
    if steps != [] {
      var e := steps[0];
      LogsGrow(s, e);
      ClogIsStarted(Next(s, e), steps[1..]);
      Assoc(s.clog, if e.Log? then [e.name] else [], Started(steps[1..]));
    }
  }

  lemma {:induction false} SlogIsFinished(s: State, steps: seq<Step>)
    requires Possible(s, steps)
    ensures Reached(s, steps).slog == s.slog + Finished(s, steps)
    decreases |steps|
  {
    if steps != [] {
      var e := steps[0];
      LogsGrow(s, e);
      SlogIsFinished(Next(s, e), steps[1..]);
      Assoc(s.slog, if e.WriteSlog? then [s.calls[e.call].name] else [], Finished(Next(s, e), steps[1..]));
    }
  }

  /** For every interleaving, with crashes: the commit log is the calls that were started, in order, and the storage log
      those that ran to their end. */
  lemma LogsAreTheCalls(steps: seq<Step>)
    requires Possible(INITIAL, steps)
    ensures Reached(INITIAL, steps).clog == Started(steps)
    ensures Reached(INITIAL, steps).slog == Finished(INITIAL, steps)
  {
    ClogIsStarted(INITIAL, steps);
    SlogIsFinished(INITIAL, steps);
  }

  /** A restart right now would keep every id that the server has given out. */
  ghost predicate Safe(s: State) {
    s.phase.Serving? ==> s.schema <= Recovered(s.clog, s.slog)
  }

  ghost predicate AlwaysSafe(s: State, steps: seq<Step>)
    requires Possible(s, steps)
    decreases |steps|
  {
    Safe(s) && (steps == [] || AlwaysSafe(Next(s, steps[0]), steps[1..]))
  }

  lemma InvIsSafe(s: State)
    requires Inv(s)
    ensures Safe(s)
  {
    SlogAddsNothingIff(s.clog, s.slog);
  }

  /** For every interleaving of calls, crashes and restarts: a restart at any time would keep all ids if and only if
      every insertion was that of the first logged name that the schema lacked. */
  lemma {:induction false} AlwaysSafeIff(s: State, steps: seq<Step>)
    requires Inv(s) && Possible(s, steps)
    ensures AlwaysSafe(s, steps) <==> Runs(s, steps)
    decreases |steps|
  {
    InvIsSafe(s);
    if steps != [] {
      var e := steps[0];
      if Orderly(s, e) {
        StepKeepsInv(s, e);
        AlwaysSafeIff(Next(s, e), steps[1..]);
      } else {
        InsertKeepsInvIff(s, e.call);
      }
    }
  }

  /** A call that runs to its end without a crash or another call does what `create_database` does. */
  lemma WholeCall(s: State, c: nat, n: Name)
    requires s.phase.Serving? && c !in s.calls
    ensures var checked := Next(Next(s, Log(c, n)), Check(c));
            if n in s.schema then checked == s.(clog := s.clog + [n])
            else Next(Next(checked, Insert(c)), WriteSlog(c)) ==
                 s.(clog := s.clog + [n], schema := Create(s.schema, n), peak := Create(s.schema, n),
                    slog := s.slog + [n])
  {
    var logged := Next(s, Log(c, n));
    var checked := Next(logged, Check(c));
    assert logged.calls - {c} == s.calls;
    if n !in s.schema {
      assert Next(checked, Insert(c)).calls - {c} == s.calls;
    }
  }

  function StepsLeft(s: State): int {
    match s.phase
    case ReplayClog(i) => |s.clog| - i + |s.slog| + 2
    case ReplaySlog(i) => |s.slog| - i + 1
    case _ => 0
  }

  ghost predicate Replaying(s: State) {
    match s.phase
    case ReplayClog(i) => i <= |s.clog| && s.schema == Rebuilt(s.clog[..i])
    case ReplaySlog(i) => i <= |s.slog| && s.schema == CreateAll(Rebuilt(s.clog), s.slog[..i])
    case _ => false
  }

  lemma ReplayStep(s: State)
    requires Replaying(s)
    ensures var t := Next(s, ReplayOne);
            && t.clog == s.clog && t.slog == s.slog && StepsLeft(t) == StepsLeft(s) - 1
            && if t.phase.Serving? then t.schema == Recovered(s.clog, s.slog) else Replaying(t)
  {
    match s.phase
    case ReplayClog(i) =>
      if i < |s.clog| {
        assert s.clog[..i + 1] == s.clog[..i] + [s.clog[i]];
        CreateAllStep([], s.clog[..i], s.clog[i]);
      } else {
        assert s.clog[..i] == s.clog && s.slog[..0] == [];
      }
    case ReplaySlog(i) =>
      if i < |s.slog| {
        assert s.slog[..i + 1] == s.slog[..i] + [s.slog[i]];
        CreateAllStep(Rebuilt(s.clog), s.slog[..i], s.slog[i]);
      } else {
        assert s.slog[..i] == s.slog;
      }
  }

  /** The state in which the server serves again if no crash comes in between. */
  ghost function Recovery(s: State): (t: State)
    requires Replaying(s)
    ensures t.phase.Serving? && t.clog == s.clog && t.slog == s.slog && t.schema == Recovered(s.clog, s.slog)
    decreases StepsLeft(s)
  {
    ReplayStep(s);
    var t := Next(s, ReplayOne);
    if t.phase.Serving? then t else Recovery(t)
  }

  // ---------------------------------------------------------------- one call at a time

  /** Names fit in their field, and a call starts only when no other is under way. */
  predicate Alone(s: State, e: Step) {
    e.Log? ==> Short(e.name) && s.calls == map[]
  }

  /** The call under way, if any, is that of the last record, and it alone may be missing from the schema. */
  ghost predicate AtMostOne(s: State) {
    && (!s.phase.Serving? ==> |Rebuilt(s.clog)| <= |s.peak| + 1)
    && (s.phase.Serving? && s.calls == map[] ==> s.schema == Rebuilt(s.clog))
    && (s.phase.Serving? && s.calls != map[] ==> exists c :: c in s.calls && OnlyCall(s, c))
  }

  ghost predicate LastMissing(s: State, n: Name) {
    s.clog != [] && s.clog[|s.clog| - 1] == n && s.schema == Rebuilt(s.clog[..|s.clog| - 1])
  }

  ghost predicate OnlyCall(s: State, c: nat)
    requires c in s.calls
  {
    && s.calls == map[c := s.calls[c]]
    && match s.calls[c]
       case Applied(_) => s.schema == Rebuilt(s.clog)
       case Logged(n) => LastMissing(s, n)
       case Checked(n) => LastMissing(s, n) && n !in s.schema
  }

  lemma {:induction false} LastIsFirstMissing(log: seq<Name>, n: Name, s: Schema)
    requires Within(log, s) && n !in s
    ensures FirstMissing(log + [n], s) == Some(n)
    decreases |log|
  {
    if log == [] {
      assert log + [n] == [n];
    } else {
      assert (log + [n])[1..] == log[1..] + [n];
      LastIsFirstMissing(log[1..], n, s);
    }
  }

  /** Calls made one at a time are applied in the order of the log. */
  lemma AloneIsOrderly(s: State, e: Step)
    requires Inv(s) && AtMostOne(s) && Enabled(s, e) && Alone(s, e)
    ensures Orderly(s, e)
  {
    if e.Insert? {
      OnlyOne(s, e.call);
      var front, n := s.clog[..|s.clog| - 1], s.calls[e.call].name;
      assert s.clog == front + [n];
      Rebuild(front);
      LastIsFirstMissing(front, n, s.schema);
    }
  }

  lemma OnlyOne(s: State, c: nat)
    requires AtMostOne(s) && s.phase.Serving? && c in s.calls
    ensures OnlyCall(s, c)
  {
    var d :| d in s.calls && OnlyCall(s, d);
    assert d == c;
  }

  lemma LastBuilds(s: State, n: Name)
    requires LastMissing(s, n)
    ensures Rebuilt(s.clog) == Create(s.schema, n)
  {
    assert s.clog == s.clog[..|s.clog| - 1] + [n];
    CreateAllStep([], s.clog[..|s.clog| - 1], n);
  }

  lemma CheckAlone(s: State, c: nat)
    requires Inv(s) && AtMostOne(s) && Enabled(s, Check(c))
    ensures AtMostOne(Next(s, Check(c)))
  {
    OnlyOne(s, c);
    LastBuilds(s, s.calls[c].name);
    var t := Next(s, Check(c));
    if s.calls[c].name in s.schema {
      assert t.calls == map[];
    } else {
      assert OnlyCall(t, c);
    }
  }

  lemma InsertAlone(s: State, c: nat)
    requires Inv(s) && AtMostOne(s) && Enabled(s, Insert(c))
    ensures AtMostOne(Next(s, Insert(c)))
  {
    OnlyOne(s, c);
    LastBuilds(s, s.calls[c].name);
    assert OnlyCall(Next(s, Insert(c)), c);
  }

  lemma WriteSlogAlone(s: State, c: nat)
    requires Inv(s) && AtMostOne(s) && Enabled(s, WriteSlog(c))
    ensures AtMostOne(Next(s, WriteSlog(c)))
  {
    OnlyOne(s, c);
    assert Next(s, WriteSlog(c)).calls == map[];
  }

  lemma CrashAlone(s: State)
    requires Inv(s) && AtMostOne(s) && Enabled(s, Crash)
    ensures AtMostOne(Next(s, Crash))
  {
    if s.phase.Serving? && s.calls != map[] {
      var c :| c in s.calls && OnlyCall(s, c);
      if !s.calls[c].Applied? {
        LastBuilds(s, s.calls[c].name);
      }
    }
  }

  lemma AloneKeepsAtMostOne(s: State, e: Step)
    requires Inv(s) && AtMostOne(s) && Enabled(s, e) && Alone(s, e)
    ensures AtMostOne(Next(s, e))
  {
    match e
    case Log(c, n) =>
      var t := Next(s, Log(c, n));
      assert t.clog[..|t.clog| - 1] == s.clog;
      assert OnlyCall(t, c);
    case Check(c) => CheckAlone(s, c);
    case Insert(c) => InsertAlone(s, c);
    case WriteSlog(c) => WriteSlogAlone(s, c);
    case Crash => CrashAlone(s);
    case Restart =>
    case ReplayOne =>
  }

  ghost predicate RunsAlone(s: State, steps: seq<Step>)
    decreases |steps|
  {
    steps == [] || (Enabled(s, steps[0]) && Alone(s, steps[0]) && RunsAlone(Next(s, steps[0]), steps[1..]))
  }

  /** Whatever runs with one call at a time is an orderly run, and recovery after it adds at most one database. */
  lemma {:induction false} AloneRunsOrderly(s: State, steps: seq<Step>)
    requires Inv(s) && AtMostOne(s) && RunsAlone(s, steps)
    ensures Runs(s, steps) && AtMostOne(After(s, steps))
    decreases |steps|
  {
    if steps != [] {
      AloneIsOrderly(s, steps[0]);
      StepKeepsInv(s, steps[0]);
      AloneKeepsAtMostOne(s, steps[0]);
      AloneRunsOrderly(Next(s, steps[0]), steps[1..]);
    }
  }

  /** The recovered schema is the one that was served before the crash, or that one and the database of the one call
      that was logged but not applied. */
  lemma AloneRecovery(steps: seq<Step>)
    requires RunsAlone(INITIAL, steps) && Runs(INITIAL, steps)
    requires var s := After(INITIAL, steps); Enabled(s, ReplayOne) && Next(s, ReplayOne).phase.Serving?
    ensures var s := After(INITIAL, steps);
            var t := Next(s, ReplayOne);
            t.schema == s.peak || exists n :: n in s.lost && t.schema == s.peak + [n]
  {
    RunKeepsInv(INITIAL, steps);
    AloneRunsOrderly(INITIAL, steps);
    var s := After(INITIAL, steps);
    var t := Next(s, ReplayOne);
    RecoveryAddsOnlyLost(s);
    if |t.schema| > |s.peak| {
      assert t.schema == s.peak + [t.schema[|s.peak|]];
    } else {
      assert t.schema == s.peak;
    }
  }

  /** Two calls under way together can be applied in the other order than they were logged; a restart then swaps their
      ids. */
  lemma TwoCallsSwapIds(a: Name, b: Name)
    requires Short(a) && Short(b) && a != b
    ensures var s0 := Next(Next(INITIAL, Log(0, a)), Log(1, b));
            var s1 := Next(Next(s0, Check(1)), Insert(1));
            var s2 := Next(Next(s1, Check(0)), Insert(0));
            s2.schema == [b, a] && Recovered(s2.clog, s2.slog) == [a, b]
  {
    var s0 := Next(Next(INITIAL, Log(0, a)), Log(1, b));
    assert s0.clog == [a] + [b] && [] + [a] == [a];
    CreateAllStep([], [], a);
    CreateAllStep([], [a], b);
  }

  lemma TwiceIsOnce(n: Name)
    requires Short(n)
    ensures Recovered([n, n], [n, n]) == [n]
  {
    assert [n, n] == [n] + [n] && [] + [n] == [n];
    CreateAllStep([], [], n);
    CreateAllStep([], [n], n);
    KnownChangeNothing([n], [n, n]);
  }

  /** Two calls with the same name, both of which look before either inserts, give two databases, in the order of the
      log and both noted in the storage log; a restart leaves one. */
  lemma SameNameTwice(n: Name)
    requires Short(n)
    ensures var s0 := Next(Next(INITIAL, Log(0, n)), Log(1, n));
            var s1 := Next(Next(s0, Check(0)), Check(1));
            var s2 := Next(Next(s1, Insert(0)), Insert(1));
            var s3 := Next(Next(s2, WriteSlog(0)), WriteSlog(1));
            s3.schema == [n, n] && s3.calls == map[] && Recovered(s3.clog, s3.slog) == [n]
  {
    var s0 := Next(Next(INITIAL, Log(0, n)), Log(1, n));
    var s1 := Next(Next(s0, Check(0)), Check(1));
    var s2 := Next(Next(s1, Insert(0)), Insert(1));
    var s3 := Next(Next(s2, WriteSlog(0)), WriteSlog(1));
    assert s1.calls[0] == Checked(n) && s1.calls[1] == Checked(n);
    assert s2.schema == [n, n] && s2.clog == [n, n];
    assert s3.clog == [n, n] && s3.slog == [n, n];
    TwiceIsOnce(n);
  }
}
