/** When the block writer loses rows: what a refusal costs, and which runs of equal rows are refused. */
module BlockLoss {
  import opened Common
  import opened RowFormat
  import opened MicroFormat
  import opened MacroFormat
  import opened BlockWriterSpec

  // ---------------------------------------------------------------- what a refusal costs

  /** The append of row `i` of the run reported success. */
  predicate Accepted(s: StoreDesc, rows: seq<Row>, i: nat)
    requires i < |rows|
  {
    !Refused(s, Run(s, rows[..i]), rows[i])
  }

  lemma AppendPending(s: StoreDesc, b: Books, row: Row)
    ensures var c := Append(s, b, row);
            c.pending == [] || (c.pending == b.pending + [row] && !Refused(s, b, row))
  {
  }

  /** `k` rows are the last ones of the run, and every one of them was accepted. */
  ghost predicate LastAccepted(s: StoreDesc, rows: seq<Row>, pending: seq<Row>) {
    var k := |pending|;
    k <= |rows| && pending == rows[|rows| - k..] && forall i :: |rows| - k <= i < |rows| ==> Accepted(s, rows, i)
  }

  lemma LastAcceptedMore(s: StoreDesc, rows: seq<Row>, pending: seq<Row>, row: Row)
    requires LastAccepted(s, rows, pending) && !Refused(s, Run(s, rows), row)
    ensures LastAccepted(s, rows + [row], pending + [row])
  {
    var more := rows + [row];
    forall i | |rows| - |pending| <= i < |more| ensures Accepted(s, more, i) {
      if i < |rows| {
        assert more[..i] == rows[..i] && Accepted(s, rows, i);
      } else {
        assert more[..i] == rows;
      }
    }
  }

  /** The rows that wait for their micro block are the last ones appended, and every one of them was accepted. */
  lemma {:induction false} PendingWereAccepted(s: StoreDesc, rows: seq<Row>)
    ensures LastAccepted(s, rows, Run(s, rows).pending)
    decreases |rows|
  {
    if rows != [] {
      var front, last := rows[..|rows| - 1], rows[|rows| - 1];
      PendingWereAccepted(s, front);
      AppendPending(s, Run(s, front), last);
      assert rows == front + [last];
      if Run(s, rows).pending != [] {
        LastAcceptedMore(s, front, Run(s, front).pending, last);
      }
    }
  }

  /** A refused append keeps what is in blocks and drops everything that is not: its own row, and all rows that were
      accepted since the last micro block was written. */
  lemma RefusalCosts(s: StoreDesc, rows: seq<Row>, row: Row)
    requires Refused(s, Run(s, rows), row)
    ensures var b, c := Run(s, rows), Run(s, rows + [row]);
            && c.emitted == b.emitted && c.micros == b.micros && c.pending == []
            && LastAccepted(s, rows, b.pending)
  {
    PendingWereAccepted(s, rows);
    assert (rows + [row])[..|rows|] == rows;
  }

  // ---------------------------------------------------------------- runs of equal rows

  function Copies<T>(x: T, n: nat): (s: seq<T>)
    ensures |s| == n
  {
    seq(n, _ => x)
  }

  lemma CopiesStep<T>(x: T, n: nat)
    ensures Copies(x, n + 1) == Copies(x, n) + [x] && Copies(x, n + 1)[..n] == Copies(x, n)
  {
  }

  /** `per` such rows, and no fewer, fill a micro block. */
  ghost predicate Fills(s: StoreDesc, row: Row, per: nat) {
    per > 0 && Full(s, Copies(row, per)) && forall j :: 0 < j < per ==> !Full(s, Copies(row, j))
  }

  /** With `i` full micro blocks in the macro block there is still room for a micro block of the configured size, and
      with one more there is not. */
  predicate LeavesRoom(s: StoreDesc, size: nat, k: nat) {
    !Tight(s, HEADER_RESERVE + k * size) && Tight(s, HEADER_RESERVE + (k + 1) * size)
  }

  /** The macro block has `i` full micro blocks, and `j` rows are pending. */
  ghost predicate At(b: Books, row: Row, per: nat, i: nat, j: nat) {
    b.micros == Copies(Copies(row, per), i) && b.pending == Copies(row, j)
  }

  lemma OneMoreTime(i: nat, size: nat)
    ensures (i + 1) * size == i * size + size
  {
  }

  lemma {:induction false} TotalOfCopies(rows: seq<Row>, i: nat, size: nat)
    requires size == MicroSize(rows)
    ensures Total(Copies(rows, i)) == HEADER_RESERVE + i * size
    decreases i
  {
    if i > 0 {
      TotalOfCopies(rows, i - 1, size);
      CopiesStep(rows, i - 1);
      TotalAppend(Copies(rows, i - 1), rows);
      OneMoreTime(i - 1, size);
    }
  }

  lemma Multiples(i: nat, k: nat, size: nat)
    requires i <= k
    ensures i * size <= k * size
  {
  }

  /** The facts about the sizes: `per` rows make a micro block of `size` bytes, and `k` of those leave room for another
      of the configured size, but not one more. */
  ghost predicate Sizes(s: StoreDesc, row: Row, per: nat, size: nat, k: nat) {
    Sane(s) && Fills(s, row, per) && size == MicroSize(Copies(row, per)) && LeavesRoom(s, size, k)
  }

  /** A row that does not fill its micro block just waits. */
  lemma StepWaits(s: StoreDesc, b: Books, row: Row, per: nat, size: nat, k: nat, i: nat, j: nat)
    requires Sizes(s, row, per, size, k) && At(b, row, per, i, j) && i <= k && j + 1 < per
    ensures !Refused(s, b, row) && At(Append(s, b, row), row, per, i, j + 1) && Append(s, b, row).emitted == b.emitted
  {
    CopiesStep(row, j);
    TotalOfCopies(Copies(row, per), i, size);
    Multiples(i, k, size);
  }

  /** The row that fills a micro block, with room for the block. */
  lemma StepStores(s: StoreDesc, b: Books, row: Row, per: nat, size: nat, k: nat, i: nat)
    requires Sizes(s, row, per, size, k) && At(b, row, per, i, per - 1) && i <= k
    requires HEADER_RESERVE + (i + 1) * size <= s.macroSize
    ensures !Refused(s, b, row)
    ensures var c := Append(s, b, row);
            if i < k then At(c, row, per, i + 1, 0) && c.emitted == b.emitted
            else At(c, row, per, 0, 0) && |c.emitted| == |b.emitted| + 1
  {
    var block := Copies(row, per);
    CopiesStep(row, per - 1);
    CopiesStep(block, i);
    TotalOfCopies(block, i, size);
    TotalOfCopies(block, i + 1, size);
    OneMoreTime(i, size);
    if i < k {
      Multiples(i + 1, k, size);
    }
  }

  /** The row that fills a micro block, without room for it: the macro block stays as it is. */
  lemma StepRefused(s: StoreDesc, b: Books, row: Row, per: nat, size: nat, k: nat)
    requires Sizes(s, row, per, size, k) && At(b, row, per, k, per - 1) && HEADER_RESERVE + (k + 1) * size > s.macroSize
    ensures Refused(s, b, row) && At(Append(s, b, row), row, per, k, 0) && Append(s, b, row).emitted == b.emitted
  {
    CopiesStep(row, per - 1);
    TotalOfCopies(Copies(row, per), k, size);
    OneMoreTime(k, size);
  }

  // ---------------------------------------------------------------- equal rows that always find room

  lemma RunCopies(s: StoreDesc, row: Row, n: nat)
    ensures Run(s, Copies(row, n + 1)) == Append(s, Run(s, Copies(row, n)), row)
  {
    CopiesStep(row, n);
  }

  lemma {:induction false} RoomyRun(s: StoreDesc, row: Row, per: nat, size: nat, k: nat, n: nat)
    returns (i: nat, j: nat)
    requires Sizes(s, row, per, size, k) && HEADER_RESERVE + (k + 1) * size <= s.macroSize
    ensures i <= k && j < per && At(Run(s, Copies(row, n)), row, per, i, j)
    ensures !Refused(s, Run(s, Copies(row, n)), row)
    decreases n
  {
    if n == 0 {
      i, j := 0, 0;
      assert Copies(row, 0) == [] && Copies(Copies(row, per), 0) == [];
    } else {
      i, j := RoomyRun(s, row, per, size, k, n - 1);
      RunCopies(s, row, n - 1);
      i, j := RoomyStep(s, Run(s, Copies(row, n - 1)), row, per, size, k, i, j);
    }
    var _, _ := RoomyStep(s, Run(s, Copies(row, n)), row, per, size, k, i, j);
  }

  lemma RoomyStep(s: StoreDesc, b: Books, row: Row, per: nat, size: nat, k: nat, i: nat, j: nat)
    returns (i': nat, j': nat)
    requires Sizes(s, row, per, size, k) && HEADER_RESERVE + (k + 1) * size <= s.macroSize
    requires i <= k && j < per && At(b, row, per, i, j)
    ensures i' <= k && j' < per && At(Append(s, b, row), row, per, i', j') && !Refused(s, b, row)
  {
    if j + 1 < per {
      StepWaits(s, b, row, per, size, k, i, j);
      i', j' := i, j + 1;
    } else {
      Multiples(i + 1, k + 1, size);
      StepStores(s, b, row, per, size, k, i);
      i', j' := if i < k then i + 1 else 0, 0;
    }
  }

  lemma {:induction false} RoomyKept(s: StoreDesc, row: Row, per: nat, size: nat, k: nat, n: nat)
    requires Sizes(s, row, per, size, k) && HEADER_RESERVE + (k + 1) * size <= s.macroSize
    ensures AllKept(s, Copies(row, n))
    decreases n
  {
    if n > 0 {
      RoomyKept(s, row, per, size, k, n - 1);
      var _, _ := RoomyRun(s, row, per, size, k, n - 1);
      RoomForOne(s, size, k);
      RefusedIsNotKept(s, Copies(row, n - 1), row);
      AllKeptCopies(s, row, n - 1);
    }
  }

  lemma RoomForOne(s: StoreDesc, size: nat, k: nat)
    requires LeavesRoom(s, size, k)
    ensures HEADER_RESERVE + s.microSize <= s.macroSize
  {
    Multiples(0, k, size);
  }

  // ---------------------------------------------------------------- equal rows that are lost

  lemma Place(i: nat, j: nat, k: nat, per: nat)
    requires i <= k && j < per && i * per + j == (k + 1) * per - 1
    ensures i == k && j == per - 1
  {
    if i < k {
      Multiples(i + 1, k, per);
      OneMoreTime(i, per);
    }
    OneMoreTime(k, per);
  }

  /** After `n` rows a run without room stands at `i` full micro blocks and `j` pending rows. */
  predicate Climbs(n: nat, i: nat, j: nat, k: nat, per: nat) {
    i <= k && j < per && (n < (k + 1) * per ==> n == i * per + j) && (n >= k * per ==> i == k)
  }

  function NextI(i: nat, j: nat, k: nat, per: nat): nat {
    if j + 1 == per && i < k then i + 1 else i
  }

  function NextJ(j: nat, per: nat): nat {
    if j + 1 == per then 0 else j + 1
  }

  lemma StuckCount(n: nat, i: nat, j: nat, k: nat, per: nat)
    requires Climbs(n, i, j, k, per)
    ensures Climbs(n + 1, NextI(i, j, k, per), NextJ(j, per), k, per)
  {
    OneMoreTime(i, per);
    OneMoreTime(k, per);
    if i < k {
      Multiples(i + 1, k, per);
    }
  }

  lemma StuckStep(s: StoreDesc, b: Books, row: Row, per: nat, size: nat, k: nat, i: nat, j: nat)
    returns (i': nat, j': nat)
    requires Sizes(s, row, per, size, k) && HEADER_RESERVE + (k + 1) * size > s.macroSize
    requires i <= k && j < per && At(b, row, per, i, j)
    ensures i' == NextI(i, j, k, per) && j' == NextJ(j, per)
    ensures At(Append(s, b, row), row, per, i', j') && Append(s, b, row).emitted == b.emitted
    ensures Refused(s, b, row) <==> i == k && j == per - 1
  {
    i', j' := NextI(i, j, k, per), NextJ(j, per);
    if j + 1 < per {
      StepWaits(s, b, row, per, size, k, i, j);
    } else if i < k {
      FitsBelow(s, size, k, i);
      StepStores(s, b, row, per, size, k, i);
    } else {
      StepRefused(s, b, row, per, size, k);
    }
  }

  lemma FitsBelow(s: StoreDesc, size: nat, k: nat, i: nat)
    requires LeavesRoom(s, size, k) && i < k
    ensures HEADER_RESERVE + (i + 1) * size <= s.macroSize
  {
    Multiples(i + 1, k, size);
  }

  lemma StuckStart(s: StoreDesc, row: Row, per: nat, k: nat)
    requires per > 0
    ensures At(Run(s, Copies(row, 0)), row, per, 0, 0) && Climbs(0, 0, 0, k, per)
  {
    assert Copies(row, 0) == [] && Copies(Copies(row, per), 0) == [];
    if k > 0 {
      Multiples(1, k, per);
    }
  }

  /** Where a run without room stands: it climbs to `k` full micro blocks, and stays there for ever. */
  ghost predicate StuckAt(b: Books, row: Row, per: nat, k: nat, n: nat, i: nat, j: nat) {
    Climbs(n, i, j, k, per) && At(b, row, per, i, j) && b.emitted == []
  }

  lemma StuckNext(s: StoreDesc, row: Row, per: nat, size: nat, k: nat, n: nat, i: nat, j: nat)
    requires Sizes(s, row, per, size, k) && HEADER_RESERVE + (k + 1) * size > s.macroSize
    requires StuckAt(Run(s, Copies(row, n)), row, per, k, n, i, j)
    ensures StuckAt(Run(s, Copies(row, n + 1)), row, per, k, n + 1, NextI(i, j, k, per), NextJ(j, per))
  {
    RunCopies(s, row, n);
    StuckCount(n, i, j, k, per);
    var _, _ := StuckStep(s, Run(s, Copies(row, n)), row, per, size, k, i, j);
  }

  lemma {:induction false} StuckRun(s: StoreDesc, row: Row, per: nat, size: nat, k: nat, n: nat)
    returns (i: nat, j: nat)
    requires Sizes(s, row, per, size, k) && HEADER_RESERVE + (k + 1) * size > s.macroSize
    ensures StuckAt(Run(s, Copies(row, n)), row, per, k, n, i, j)
    decreases n
  {
    if n == 0 {
      i, j := 0, 0;
      StuckStart(s, row, per, k);
    } else {
      i, j := StuckRun(s, row, per, size, k, n - 1);
      StuckNext(s, row, per, size, k, n - 1, i, j);
      i, j := NextI(i, j, k, per), NextJ(j, per);
    }
  }

  lemma RefusedAtEnd(s: StoreDesc, row: Row, per: nat, size: nat, k: nat, n: nat)
    requires Sizes(s, row, per, size, k) && HEADER_RESERVE + (k + 1) * size > s.macroSize && n + 1 == (k + 1) * per
    ensures Refused(s, Run(s, Copies(row, n)), row) && |Run(s, Copies(row, n)).pending| == per - 1
  {
    var i, j := StuckRun(s, row, per, size, k, n);
    Place(i, j, k, per);
    var _, _ := StuckStep(s, Run(s, Copies(row, n)), row, per, size, k, i, j);
  }

  /** The append that completes micro block `k + 1` is refused, and with it go the rows accepted since block `k`. */
  lemma FirstRefusal(s: StoreDesc, row: Row, per: nat, size: nat, k: nat, n: nat)
    requires Sizes(s, row, per, size, k) && HEADER_RESERVE + (k + 1) * size > s.macroSize && n + 1 == (k + 1) * per
    ensures Refused(s, Run(s, Copies(row, n)), row) && |Run(s, Copies(row, n)).pending| == per - 1
    ensures LastAccepted(s, Copies(row, n), Run(s, Copies(row, n)).pending)
  {
    RefusedAtEnd(s, row, per, size, k, n);
    PendingWereAccepted(s, Copies(row, n));
  }

  lemma {:induction false} AllRowsOfCopies(rows: seq<Row>, i: nat)
    ensures |AllRows(Copies(rows, i))| == i * |rows|
    decreases i
  {
    if i > 0 {
      AllRowsOfCopies(rows, i - 1);
      CopiesStep(rows, i - 1);
      AllRowsAppend(Copies(rows, i - 1), rows);
      OneMoreTime(i - 1, |rows|);
    }
  }

  /** However many such rows come, no block is emitted and no more than `k` micro blocks are filled; once they are,
      every further row is lost, but for fewer than `per` that still wait. */
  lemma StuckForEver(s: StoreDesc, row: Row, per: nat, size: nat, k: nat, n: nat)
    requires Sizes(s, row, per, size, k) && HEADER_RESERVE + (k + 1) * size > s.macroSize
    ensures var b := Run(s, Copies(row, n));
            && b.emitted == [] && |AllRows(b.micros)| <= k * per && |b.pending| < per
            && (n >= k * per ==> |AllRows(b.micros)| == k * per && (Refused(s, b, row) <==> |b.pending| == per - 1))
  {
    var i, j := StuckRun(s, row, per, size, k, n);
    AllRowsOfCopies(Copies(row, per), i);
    Multiples(i, k, per);
    var _, _ := StuckStep(s, Run(s, Copies(row, n)), row, per, size, k, i, j);
  }

  // ---------------------------------------------------------------- a refusal after any run

  /** The macro block has room by the writer's own measure, but not for `per` such rows. */
  ghost predicate Jammed(s: StoreDesc, b: Books, row: Row, per: nat) {
    Fills(s, row, per) && !Tight(s, Total(b.micros)) && !Fits(s, Total(b.micros), Copies(row, per))
  }

  lemma JammedStep(s: StoreDesc, b: Books, row: Row, per: nat, j: nat)
    requires Jammed(s, b, row, per) && j < per && b.pending == Copies(row, j)
    ensures var c := Append(s, b, row);
            && c.micros == b.micros && c.emitted == b.emitted && c.pending == Copies(row, NextJ(j, per))
            && (Refused(s, b, row) <==> j == per - 1)
  {
    CopiesStep(row, j);
    assert Copies(row, 0) == [];
  }

  lemma RunAppends(s: StoreDesc, rows: seq<Row>, row: Row)
    ensures Run(s, rows + [row]) == Append(s, Run(s, rows), row)
  {
    assert (rows + [row])[..|rows|] == rows;
  }

  lemma CopiesBehind<T>(rows: seq<T>, x: T, n: nat)
    ensures rows + Copies(x, n + 1) == (rows + Copies(x, n)) + [x]
  {
  }

  lemma RunOneMore(s: StoreDesc, rows: seq<Row>, row: Row, n: nat)
    ensures Run(s, rows + Copies(row, n + 1)) == Append(s, Run(s, rows + Copies(row, n)), row)
  {
    CopiesBehind(rows, row, n);
    RunAppends(s, rows + Copies(row, n), row);
  }

  lemma {:induction false} JammedRun(s: StoreDesc, rows: seq<Row>, row: Row, per: nat, n: nat) returns (j: nat)
    requires Jammed(s, Run(s, rows), row, per) && Run(s, rows).pending == []
    ensures var b, c := Run(s, rows), Run(s, rows + Copies(row, n));
            && c.micros == b.micros && c.emitted == b.emitted && j < per && c.pending == Copies(row, j)
            && (Refused(s, c, row) <==> j == per - 1)
    decreases n
  {
    if n == 0 {
      j := 0;
      assert rows + Copies(row, 0) == rows && Copies(row, 0) == [];
    } else {
      j := JammedRun(s, rows, row, per, n - 1);
      RunOneMore(s, rows, row, n - 1);
      JammedStep(s, Run(s, rows + Copies(row, n - 1)), row, per, j);
      j := NextJ(j, per);
    }
    JammedStep(s, Run(s, rows + Copies(row, n)), row, per, j);
  }

  /** After every run: once a micro block of equal rows is refused while the writer sees no need to flush, no further
      such row is ever stored or emitted, and every micro block of them is refused in its turn. */
  lemma RefusedForEver(s: StoreDesc, rows: seq<Row>, row: Row, per: nat, n: nat)
    requires Fills(s, row, per) && Run(s, rows).pending + [row] == Copies(row, per)
    requires Refused(s, Run(s, rows), row) && !Tight(s, Total(Run(s, rows).micros))
    ensures var b, c := Run(s, rows), Run(s, rows + [row] + Copies(row, n));
            && c.micros == b.micros && c.emitted == b.emitted && |c.pending| < per
            && (Refused(s, c, row) <==> |c.pending| == per - 1)
  {
    RefusalCosts(s, rows, row);
    var j := JammedRun(s, rows + [row], row, per, n);
  }

  // ---------------------------------------------------------------- both ways

  lemma AllKeptCopies(s: StoreDesc, row: Row, n: nat)
    ensures AllKept(s, Copies(row, n + 1)) <==> AllKept(s, Copies(row, n)) && KeptBy(s, Run(s, Copies(row, n)), row)
  {
    CopiesStep(row, n);
  }

  lemma RefusedIsNotKept(s: StoreDesc, rows: seq<Row>, row: Row)
    requires Sane(s) && HEADER_RESERVE + s.microSize <= s.macroSize
    ensures Refused(s, Run(s, rows), row) <==> !KeptBy(s, Run(s, rows), row)
  {
    RunSound(s, rows);
    LossIsReported(s, Run(s, rows), row);
  }

  lemma NotKept(s: StoreDesc, row: Row, per: nat, size: nat, k: nat, n: nat)
    requires Sizes(s, row, per, size, k) && HEADER_RESERVE + (k + 1) * size > s.macroSize && n + 1 == (k + 1) * per
    ensures !AllKept(s, Copies(row, n + 1))
  {
    RefusedAtEnd(s, row, per, size, k, n);
    RoomForOne(s, size, k);
    RefusedIsNotKept(s, Copies(row, n), row);
    AllKeptCopies(s, row, n);
  }

  /** Runs of this row are kept, however long. */
  ghost predicate AlwaysKept(s: StoreDesc, row: Row) {
    forall n: nat :: AllKept(s, Copies(row, n))
  }

  /** Runs of equal rows, however long, are kept if and only if the micro block after the last one that leaves room
      still fits in the macro block. */
  lemma SizedRowsKeptIff(s: StoreDesc, row: Row, per: nat, size: nat, k: nat)
    requires Sizes(s, row, per, size, k)
    ensures AlwaysKept(s, row) <==> HEADER_RESERVE + (k + 1) * size <= s.macroSize
  {
    if HEADER_RESERVE + (k + 1) * size <= s.macroSize {
      forall n: nat ensures AllKept(s, Copies(row, n)) {
        RoomyKept(s, row, per, size, k, n);
      }
    } else {
      OneMoreTime(k, per);
      NotKept(s, row, per, size, k, (k + 1) * per - 1);
    }
  }

  // ---------------------------------------------------------------- macro blocks without room for a micro block

  lemma TightKeeps(s: StoreDesc, b: Books, row: Row)
    requires Settled(s, b) && Tight(s, HEADER_RESERVE)
    ensures KeptBy(s, b, row) <==> Fits(s, HEADER_RESERVE, [row])
  {
    assert b.pending + [row] == [row];
  }

  ghost predicate EachFits(s: StoreDesc, rows: seq<Row>) {
    forall i :: 0 <= i < |rows| ==> Fits(s, HEADER_RESERVE, [rows[i]])
  }

  lemma EachFitsStep(s: StoreDesc, rows: seq<Row>)
    requires rows != []
    ensures var n := |rows| - 1; EachFits(s, rows) <==> EachFits(s, rows[..n]) && Fits(s, HEADER_RESERVE, [rows[n]])
  {
    var n := |rows| - 1;
    assert forall i :: 0 <= i < n ==> rows[..n][i] == rows[i];
  }

  /** If not even an empty macro block has room for a micro block of the configured size, every append flushes, and a
      run is kept if and only if each row alone fits in a macro block. */
  lemma {:induction false} TightRunKeptIff(s: StoreDesc, rows: seq<Row>)
    requires Sane(s) && Tight(s, HEADER_RESERVE)
    ensures AllKept(s, rows) <==> EachFits(s, rows)
    decreases |rows|
  {
    if rows != [] {
      var front, last := rows[..|rows| - 1], rows[|rows| - 1];
      TightRunKeptIff(s, front);
      RunSound(s, front);
      TightKeeps(s, Run(s, front), last);
      EachFitsStep(s, rows);
    }
  }

  lemma TightCopiesKeptIff(s: StoreDesc, row: Row)
    requires Sane(s) && Tight(s, HEADER_RESERVE)
    ensures AlwaysKept(s, row) <==> HEADER_RESERVE + SizeOfMicro(|EncodeRow(row)|, 1) <= s.macroSize
  {
    forall n: nat ensures AllKept(s, Copies(row, n)) <==> n == 0 || Fits(s, HEADER_RESERVE, [row]) {
      TightRunKeptIff(s, Copies(row, n));
      assert n > 0 ==> Copies(row, n)[0] == row;
    }
    assert AllKept(s, Copies(row, 1)) <==> Fits(s, HEADER_RESERVE, [row]);
    RowsGrow([], row);
    assert [] + [row] == [row];
  }

  // ---------------------------------------------------------------- for all sizes

  lemma {:induction false} RowsOfCopies(row: Row, n: nat)
    ensures |Rows(Copies(row, n))| == n * |EncodeRow(row)|
    decreases n
  {
    if n > 0 {
      RowsOfCopies(row, n - 1);
      CopiesStep(row, n - 1);
      RowsGrow(Copies(row, n - 1), row);
      OneMoreTime(n - 1, |EncodeRow(row)|);
    } else {
      assert Copies(row, 0) == [];
    }
  }

  /** How many rows of `len` bytes fill a micro block. */
  function PerMicro(s: StoreDesc, len: nat): (per: nat)
    requires len > 0
  {
    var need := s.microSize - 4096 - MICRO_HEADER_SIZE;
    if need <= 0 then 1 else (need + len - 1) / len
  }

  function SizeOfMicro(len: nat, per: nat): nat {
    MICRO_HEADER_SIZE + per * len + 4 * per
  }

  /** How many of those micro blocks leave room for another of the configured size. */
  function MostRoomy(s: StoreDesc, size: nat): nat
    requires size > 0 && !Tight(s, HEADER_RESERVE)
  {
    (s.macroSize - HEADER_RESERVE - s.microSize) / size
  }

  lemma DivBounds(a: nat, d: nat)
    requires d > 0
    ensures (a / d) * d <= a < (a / d + 1) * d
  {
    OneMoreTime(a / d, d);
  }

  lemma Ceil(need: nat, len: nat, j: nat)
    requires need > 0 && len > 0
    ensures var per := (need + len - 1) / len; per > 0 && per * len >= need && (j < per ==> j * len < need)
  {
    var per := (need + len - 1) / len;
    DivBounds(need + len - 1, len);
    OneMoreTime(per, len);
    if j < per {
      Multiples(j + 1, per, len);
      OneMoreTime(j, len);
    }
  }

  lemma PerMicroFills(s: StoreDesc, row: Row)
    ensures Fills(s, row, PerMicro(s, |EncodeRow(row)|))
  {
    var len := |EncodeRow(row)|;
    var per, need := PerMicro(s, len), s.microSize - 4096 - MICRO_HEADER_SIZE;
    RowsOfCopies(row, per);
    if need > 0 {
      Ceil(need, len, 0);
    }
    forall j | 0 < j < per ensures !Full(s, Copies(row, j)) {
      RowsOfCopies(row, j);
      Ceil(need, len, j);
    }
  }

  lemma MostRoomyLeaves(s: StoreDesc, size: nat)
    requires size > 0 && !Tight(s, HEADER_RESERVE)
    ensures LeavesRoom(s, size, MostRoomy(s, size))
  {
    DivBounds(s.macroSize - HEADER_RESERVE - s.microSize, size);
  }

  lemma SizesOf(s: StoreDesc, row: Row, len: nat, per: nat, size: nat)
    requires Sane(s) && !Tight(s, HEADER_RESERVE)
    requires len == |EncodeRow(row)| && per == PerMicro(s, len) && size == SizeOfMicro(len, per)
    ensures Sizes(s, row, per, size, MostRoomy(s, size))
  {
    PerMicroFills(s, row);
    RowsOfCopies(row, per);
    MostRoomyLeaves(s, size);
  }

  /** The size that a macro block must have to keep every run of rows of `len` bytes. */
  function SizeToKeep(s: StoreDesc, len: nat): nat
    requires len > 0
  {
    if Tight(s, HEADER_RESERVE) then HEADER_RESERVE + SizeOfMicro(len, 1)
    else
      var size := SizeOfMicro(len, PerMicro(s, len));
      HEADER_RESERVE + (MostRoomy(s, size) + 1) * size
  }

  /** For all sizes and every row: runs of equal rows, however long, are kept if and only if the macro block is as large
      as the sizes of row and blocks tell. */
  lemma EqualRowsKeptIff(s: StoreDesc, row: Row)
    requires Sane(s)
    ensures AlwaysKept(s, row) <==> SizeToKeep(s, |EncodeRow(row)|) <= s.macroSize
  {
    var len := |EncodeRow(row)|;
    if Tight(s, HEADER_RESERVE) {
      TightCopiesKeptIff(s, row);
    } else {
      var per := PerMicro(s, len);
      var size := SizeOfMicro(len, per);
      SizesOf(s, row, len, per, size);
      SizedRowsKeptIff(s, row, per, size, MostRoomy(s, size));
    }
  }

  lemma {:induction false} KeptPrefix(s: StoreDesc, row: Row, m: nat, n: nat)
    requires m <= n && AllKept(s, Copies(row, n))
    ensures AllKept(s, Copies(row, m))
    decreases n
  {
    if m < n {
      AllKeptCopies(s, row, n - 1);
      KeptPrefix(s, row, m, n - 1);
    }
  }

  lemma NeverKept(s: StoreDesc, row: Row, per: nat, size: nat, k: nat, n: nat)
    requires Sizes(s, row, per, size, k) && HEADER_RESERVE + (k + 1) * size > s.macroSize && n >= (k + 1) * per
    ensures !AllKept(s, Copies(row, n))
  {
    OneMoreTime(k, per);
    NotKept(s, row, per, size, k, (k + 1) * per - 1);
    if AllKept(s, Copies(row, n)) {
      KeptPrefix(s, row, (k + 1) * per, n);
    }
  }

  lemma NotReadBack(s: StoreDesc, rows: seq<Row>, bytes: seq<seq<byte>>)
    requires Sane(s) && !AllKept(s, rows) && Encoded(s.desc, Flush(s, Run(s, rows)).emitted, bytes)
    ensures Contents(bytes) != Some(rows)
  {
    RunReadsBack(s, rows, bytes);
  }

  // ---------------------------------------------------------------- the configured sizes

  const DEFAULT_MACRO_BLOCK_SIZE := 0x20_0000
  const DEFAULT_MICRO_BLOCK_SIZE := 0x4_0000

  /** Rows with an 8-byte key and an 8-byte value at the sizes of the repository: 10320 of them fill a micro block of
      299336 bytes, and after six of those there is room for the configured 262144 bytes, but not for a seventh. */
  lemma DefaultSizes(d: Desc, row: Row)
    requires |row.key| == 8 && |row.value| == 8
    ensures Sizes(StoreDesc(d, DEFAULT_MACRO_BLOCK_SIZE, DEFAULT_MICRO_BLOCK_SIZE), row, 10320, 299336, 6)
    ensures HEADER_RESERVE + (6 + 1) * 299336 > DEFAULT_MACRO_BLOCK_SIZE
  {
    var s := StoreDesc(d, DEFAULT_MACRO_BLOCK_SIZE, DEFAULT_MICRO_BLOCK_SIZE);
    RowsOfCopies(row, 10320);
    forall j | 0 < j < 10320 ensures !Full(s, Copies(row, j)) {
      RowsOfCopies(row, j);
    }
  }

  /** The 72240th such row is refused, and the 10319 rows before it, every one of them accepted, go with it; whatever
      number of them is appended, no block ever goes out before the close, and no more than 61920 rows are in micro
      blocks. */
  lemma DefaultSizesLoseRows(d: Desc, row: Row, n: nat)
    requires |row.key| == 8 && |row.value| == 8
    ensures var s := StoreDesc(d, DEFAULT_MACRO_BLOCK_SIZE, DEFAULT_MICRO_BLOCK_SIZE);
            && Refused(s, Run(s, Copies(row, 72239)), row) && |Run(s, Copies(row, 72239)).pending| == 10319
            && LastAccepted(s, Copies(row, 72239), Run(s, Copies(row, 72239)).pending)
            && Run(s, Copies(row, n)).emitted == [] && |AllRows(Run(s, Copies(row, n)).micros)| <= 61920
            && (n >= 61920 ==> |AllRows(Run(s, Copies(row, n)).micros)| == 61920)
  {
    var s := StoreDesc(d, DEFAULT_MACRO_BLOCK_SIZE, DEFAULT_MICRO_BLOCK_SIZE);
    DefaultSizes(d, row);
    FirstRefusal(s, row, 10320, 299336, 6, 72239);
    StuckForEver(s, row, 10320, 299336, 6, n);
  }

  /** So a merge of that many such rows at the sizes of the repository never reads back what was appended. */
  lemma DefaultMergeLosesRows(d: Desc, row: Row, n: nat, bytes: seq<seq<byte>>)
    requires |row.key| == 8 && |row.value| == 8 && n >= 72240
    requires var s := StoreDesc(d, DEFAULT_MACRO_BLOCK_SIZE, DEFAULT_MICRO_BLOCK_SIZE);
             Encoded(d, Flush(s, Run(s, Copies(row, n))).emitted, bytes)
    ensures Contents(bytes) != Some(Copies(row, n))
  {
    var s := StoreDesc(d, DEFAULT_MACRO_BLOCK_SIZE, DEFAULT_MICRO_BLOCK_SIZE);
    DefaultSizes(d, row);
    NeverKept(s, row, 10320, 299336, 6, n);
    NotReadBack(s, Copies(row, n), bytes);
  }
}
