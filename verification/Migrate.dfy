/**
 The migration runner: a connection with a committed and a working database, and attempts to apply the pending
 files of a directory that may fail at any driver call.
 */
module Migrate {
  import opened Basics

  type Stmt = string

  /** A discovered file: its GO-separated batches, each a list of statements. */
  datatype Migration = Migration(name: string, checksum: string, batches: seq<seq<Stmt>>, noTransaction: bool)

  datatype Row = Row(name: string, checksum: string)

  /** The bookkeeping objects and rows, and the log of every statement that took effect. */
  datatype Db = Db(schema: bool, table: bool, rows: seq<Row>, log: seq<Stmt>)

  datatype Result = Applied(names: seq<string>) | ChecksumMismatch(names: seq<string>) | Failed

  /** Rows live in the table. */
  predicate Sane(d: Db) {
    d.table || d.rows == []
  }

  /** Files of one directory have different names. */
  ghost predicate DistinctNames(ms: seq<Migration>) {
    forall i, j :: 0 <= i < j < |ms| ==> ms[i].name != ms[j].name
  }

  const EMPTY: Db := Db(false, false, [], [])

  // ---- what a directory asks of a database ----

  function Flat(batches: seq<seq<Stmt>>): seq<Stmt> {
    if batches == [] then [] else Flat(batches[..|batches| - 1]) + batches[|batches| - 1]
  }

  function RowOf(m: Migration): Row {
    Row(m.name, m.checksum)
  }

  predicate Recorded(rows: seq<Row>, name: string) {
    exists i :: 0 <= i < |rows| && rows[i].name == name
  }

  function Pending(ms: seq<Migration>, rows: seq<Row>): seq<Migration> {
    if ms == [] then []
    else if Recorded(rows, ms[|ms| - 1].name) then Pending(ms[..|ms| - 1], rows)
    else Pending(ms[..|ms| - 1], rows) + [ms[|ms| - 1]]
  }

  /** Recorded under its name with another checksum. */
  predicate Drifted(rows: seq<Row>, m: Migration) {
    exists i :: 0 <= i < |rows| && rows[i].name == m.name && rows[i].checksum != m.checksum
  }

  function Mismatches(ms: seq<Migration>, rows: seq<Row>): seq<string> {
    if ms == [] then []
    else if Drifted(rows, ms[|ms| - 1]) then Mismatches(ms[..|ms| - 1], rows) + [ms[|ms| - 1].name]
    else Mismatches(ms[..|ms| - 1], rows)
  }

  function RowsOf(ms: seq<Migration>): seq<Row> {
    if ms == [] then [] else RowsOf(ms[..|ms| - 1]) + [RowOf(ms[|ms| - 1])]
  }

  function NamesOf(ms: seq<Migration>): seq<string> {
    if ms == [] then [] else NamesOf(ms[..|ms| - 1]) + [ms[|ms| - 1].name]
  }

  function Script(ms: seq<Migration>): seq<Stmt> {
    if ms == [] then [] else Script(ms[..|ms| - 1]) + Flat(ms[|ms| - 1].batches)
  }

  /**
   `d'` is `d` with the first `a` of the pending migrations applied and recorded, and the first `j` statements of
   the next one, which are there only if that one runs without a transaction.
   */
  ghost predicate Extends(todo: seq<Migration>, d: Db, a: nat, j: nat, d': Db) {
    && a <= |todo| && d'.rows == d.rows + RowsOf(todo[..a])
    && (j > 0 ==> a < |todo| && todo[a].noTransaction && j <= |Flat(todo[a].batches)|)
    && d'.log == d.log + Script(todo[..a]) + if j == 0 then [] else Flat(todo[a].batches)[..j]
  }

  ghost predicate Follows(ms: seq<Migration>, d: Db, d': Db) {
    exists a: nat, j: nat :: Extends(Pending(ms, d.rows), d, a, j, d')
  }

  ghost predicate SameData(d: Db, d': Db) {
    d.rows == d'.rows && d.log == d'.log
  }

  /** What one attempt may do to the committed (`c`) and the working (`w`) database. */
  ghost predicate Attempt(ms: seq<Migration>, c: Db, w: Db, c': Db, w': Db) {
    Follows(ms, w, w') && (SameData(c, c') || Follows(ms, w, c'))
  }

  // ---- the connection ----

  class Connection {
    var committed: Db
    var working: Db
    var autocommit: bool
    var calls: nat
    const fails: nat -> bool

    constructor (db: Db, fails: nat -> bool)
      ensures committed == working == db && !autocommit && this.fails == fails
    {
      committed, working, autocommit, calls := db, db, false, 0;
      this.fails := fails;
    }

    /** One of the driver calls `lo .. hi` fails. */
    ghost predicate Broken(lo: nat, hi: nat) {
      exists k: nat :: lo <= k < hi && fails(k)
    }

    method Call() returns (ok: bool)
      modifies this`calls
      ensures calls == old(calls) + 1 && (ok <==> !Broken(old(calls), calls))
    {
      ok := !fails(calls);
      calls := calls + 1;
    }

    method Execute(stmt: Stmt) returns (ok: bool)
      modifies this`calls, this`working, this`committed
      ensures working == if ok then old(working).(log := old(working).log + [stmt]) else old(working)
      ensures committed == if ok && autocommit then working else old(committed)
      ensures old(calls) <= calls && (ok <==> !Broken(old(calls), calls))
    {
      ok := Call();
      if ok {
        working := working.(log := working.log + [stmt]);
        if autocommit {
          committed := working;
        }
      }
    }

    /** One batch, statement by statement; in autocommit the statements before a failing one stay. */
    method ExecuteBatch(batch: seq<Stmt>) returns (ok: bool, ghost n: nat)
      requires autocommit ==> committed == working
      modifies this`calls, this`working, this`committed
      ensures n <= |batch| && (ok ==> n == |batch|)
      ensures old(calls) <= calls && (ok <==> !Broken(old(calls), calls))
      ensures working == old(working).(log := old(working).log + batch[..n])
      ensures committed == if autocommit then working else old(committed)
    {
      ok, n := true, 0;
      assert old(working).log + batch[..0] == old(working).log;
      for i := 0 to |batch|
        invariant ok && n == i && working == old(working).(log := old(working).log + batch[..i])
        invariant committed == if autocommit then working else old(committed)
        invariant old(calls) <= calls && !Broken(old(calls), calls)
      {
        ok := Execute(batch[i]);
        assert old(working).log + batch[..i] + [batch[i]] == old(working).log + batch[..i + 1];
        if !ok {
          return;
        }
        n := i + 1;
      }
    }

    /** The bookkeeping row; the name column is unique. */
    method InsertApplied(m: Migration) returns (ok: bool)
      modifies this`calls, this`working, this`committed
      ensures working == if ok then old(working).(rows := old(working).rows + [RowOf(m)]) else old(working)
      ensures committed == if ok && autocommit then working else old(committed)
      ensures old(calls) <= calls && (ok <==> !Broken(old(calls), calls) && !Recorded(old(working).rows, m.name))
    {
      ok := Call();
      if ok && exists i :: 0 <= i < |working.rows| && working.rows[i].name == m.name {
        ok := false;
      }
      if ok {
        working := working.(rows := working.rows + [RowOf(m)]);
        if autocommit {
          committed := working;
        }
      }
    }

    method Commit() returns (ok: bool)
      modifies this`calls, this`committed
      ensures committed == if ok then working else old(committed)
      ensures old(calls) <= calls && (ok <==> !Broken(old(calls), calls))
    {
      ok := Call();
      if ok {
        committed := working;
      }
    }

    method Rollback()
      modifies this`working
      ensures working == committed
    {
      working := committed;
    }

    /** All batches of a file, in order. */
    method ExecuteAll(batches: seq<seq<Stmt>>) returns (ok: bool, ghost n: nat)
      requires autocommit ==> committed == working
      modifies this`calls, this`working, this`committed
      ensures n <= |Flat(batches)| && (ok ==> n == |Flat(batches)|)
      ensures old(calls) <= calls && (ok <==> !Broken(old(calls), calls))
      ensures working == old(working).(log := old(working).log + Flat(batches)[..n])
      ensures committed == if autocommit then working else old(committed)
    {
      ok, n := true, 0;
      assert old(working).log + Flat(batches)[..0] == old(working).log;
      for i := 0 to |batches|
        invariant ok && n == |Flat(batches[..i])| <= |Flat(batches)|
        invariant working == old(working).(log := old(working).log + Flat(batches)[..n])
        invariant committed == if autocommit then working else old(committed)
        invariant old(calls) <= calls && !Broken(old(calls), calls)
      {
        ghost var k;
        FlatPrefix(batches, i);
        ok, k := ExecuteBatch(batches[i]);
        assert old(working).log + Flat(batches)[..n] + batches[i][..k] == old(working).log + Flat(batches)[..n + k];
        n := n + k;
        if !ok {
          return;
        }
      }
      assert batches[..|batches|] == batches;
    }

    /** The whole file and its row in one transaction, or nothing; a failed commit leaves the work uncommitted. */
    method ApplyTransactional(m: Migration) returns (ok: bool)
      requires !autocommit && committed == working
      modifies this`calls, this`working, this`committed
      ensures var done := Db(old(working).schema, old(working).table, old(working).rows + [RowOf(m)],
                             old(working).log + Flat(m.batches));
              if ok then committed == working == done
              else committed == old(committed) && (working == committed || working == done)
      ensures old(calls) <= calls && (ok ==> !Broken(old(calls), calls))
      ensures !ok ==> Broken(old(calls), calls) || Recorded(old(working).rows, m.name)
    {
      ghost var n;
      ok, n := ExecuteAll(m.batches);
      if ok {
        assert Flat(m.batches)[..n] == Flat(m.batches);
        ok := InsertApplied(m);
      }
      if !ok {
        Rollback();
        return;
      }
      ok := Commit();
    }

    /** Each statement and the row commit themselves; there is no way back. */
    method ApplyAutocommit(m: Migration) returns (ok: bool, ghost n: nat)
      requires !autocommit && committed == working
      modifies this
      ensures !autocommit && committed == working && n <= |Flat(m.batches)|
      ensures working == if ok then Db(old(working).schema, old(working).table, old(working).rows + [RowOf(m)],
                                       old(working).log + Flat(m.batches))
                         else old(working).(log := old(working).log + Flat(m.batches)[..n])
      ensures old(calls) <= calls && (ok ==> !Broken(old(calls), calls))
      ensures !ok ==> Broken(old(calls), calls) || Recorded(old(working).rows, m.name)
    {
      n := 0;
      assert old(working).log + Flat(m.batches)[..0] == old(working).log;
      ok := Commit();
      if !ok {
        return;
      }
      autocommit := true;
      ok, n := ExecuteAll(m.batches);
      if ok {
        assert Flat(m.batches)[..n] == Flat(m.batches);
        ok := InsertApplied(m);
      }
      autocommit := false;
    }

    /** Create the runner's own schema and table where missing. */
    method EnsureBootstrap() returns (ok: bool)
      requires !autocommit
      modifies this`calls, this`working, this`committed
      ensures SameData(working, old(working))
      ensures if ok then committed == working else committed == old(committed)
      ensures ok ==> working.schema && working.table
      ensures Sane(old(working)) ==> Sane(working)
      ensures old(calls) <= calls && (ok <==> !Broken(old(calls), calls))
    {
      ok := Call();
      if ok && !working.schema {
        ok := Call();
        if ok {
          working := working.(schema := true);
        }
      }
      if ok {
        ok := Call();
      }
      if ok && !working.table {
        ok := Call();
        if ok {
          working := working.(table := true);
        }
      }
      if ok {
        ok := Commit();
      }
    }

    /** Read the bookkeeping rows; a database without the table has none. */
    method GetApplied() returns (ok: bool, rows: seq<Row>)
      modifies this`calls
      ensures ok ==> rows == if working.table then working.rows else []
      ensures old(calls) <= calls && (ok <==> !Broken(old(calls), calls))
    {
      rows := [];
      ok := Call();
      if ok && working.table {
        ok := Call();
        rows := working.rows;
      }
    }

    /** Dispatch on the file's directive. */
    method ApplyMigration(m: Migration) returns (ok: bool, ghost n: nat)
      requires !autocommit && committed == working
      modifies this
      ensures !autocommit
      ensures var w := old(working);
              var done := Db(w.schema, w.table, w.rows + [RowOf(m)], w.log + Flat(m.batches));
              if ok then committed == working == done
              else if m.noTransaction then n <= |Flat(m.batches)| && committed == working == w.(log := w.log + Flat(m.batches)[..n])
              else committed == w && (working == w || working == done)
      ensures old(calls) <= calls && (ok ==> !Broken(old(calls), calls))
      ensures !ok ==> Broken(old(calls), calls) || Recorded(old(working).rows, m.name)
    {
      n := 0;
      if m.noTransaction {
        ok, n := ApplyAutocommit(m);
      } else {
        ok := ApplyTransactional(m);
      }
    }

    /**
     One attempt. Whatever call fails, both databases are left with whole migrations from the head of the pending
     list, plus at most a first part of the next one if that runs without a transaction. It fails exactly when one
     of its driver calls does.
     */
    method ApplyPending(ms: seq<Migration>) returns (result: Result)
      requires !autocommit
      requires Sane(working)
      modifies this
      ensures !autocommit
      ensures Attempt(ms, old(committed), old(working), committed, working)
      ensures result.ChecksumMismatch? ==> result.names == Mismatches(ms, old(working.rows)) != []
      ensures result.ChecksumMismatch? ==> SameData(committed, old(working)) && SameData(working, old(working))
      ensures result.Applied? ==>
        var todo := Pending(ms, old(working.rows));
        && Mismatches(ms, old(working.rows)) == [] && result.names == NamesOf(todo)
        && Extends(todo, old(working), |todo|, 0, committed) && working == committed
      ensures Sane(working) && (Sane(old(committed)) ==> Sane(committed))
      ensures old(calls) <= calls
      ensures DistinctNames(ms) ==> (result.Failed? <==> Broken(old(calls), calls))
    {
      hide Pending, NamesOf, Mismatches, Extends, Follows, Flat, RowsOf, Script, Recorded, DistinctNames;
      ghost var start := working;
      ghost var todo := Pending(ms, working.rows);
      NothingDone(ms, committed, working);
      var ok := EnsureBootstrap();
      SameFollows(ms, start, working);
      SameFollows(ms, start, committed);
      if !ok {
        return Failed;
      }
      var rows;
      ok, rows := GetApplied();
      if !ok {
        return Failed;
      }
      var mismatches := FindMismatches(ms, rows);
      if mismatches != [] {
        return ChecksumMismatch(mismatches);
      }
      var names: seq<string> := [];
      ghost var a := 0;
      for i := 0 to |ms|
        invariant !autocommit && working == committed && working.table
        invariant a <= |todo| && todo[..a] == Pending(ms[..i], rows)
        invariant names == NamesOf(todo[..a])
        invariant Extends(todo, start, a, 0, working)
        invariant old(calls) <= calls && !Broken(old(calls), calls)
      {
        PendingStep(ms, rows, i);
        var recorded := IsRecorded(rows, ms[i].name);
        if !recorded {
          ghost var n;
          PendingTakes(ms, rows, i, todo, a);
          ghost var before := working;
          NotYetRecorded(ms, rows, i, todo, a, start, working);
          ok, n := ApplyMigration(ms[i]);
          OneMore(ms, todo, start, a, before);
          if !ok {
            Stopped(ms, todo, start, a, before, n);
            return Failed;
          }
          names := names + [ms[i].name];
          a := a + 1;
        }
      }
      AllTaken(ms, rows, todo, a, start, working);
      result := Applied(names);
    }
  }

  lemma {:induction false} FlatPrefix(batches: seq<seq<Stmt>>, i: nat)
    requires i < |batches|
    ensures Flat(batches[..i + 1]) == Flat(batches[..i]) + batches[i]
    ensures |Flat(batches[..i + 1])| <= |Flat(batches)|
    ensures Flat(batches)[..|Flat(batches[..i + 1])|] == Flat(batches[..i + 1])
  {
    assert batches[..i + 1][..i] == batches[..i];
    if i + 1 == |batches| {
      assert batches[..i + 1] == batches;
    } else {
      var shorter := batches[..|batches| - 1];
      FlatPrefix(shorter, i);
      assert shorter[..i + 1] == batches[..i + 1];
      assert shorter[..i] == batches[..i];
    }
  }

  method IsRecorded(rows: seq<Row>, name: string) returns (r: bool)
    ensures r <==> Recorded(rows, name)
  {
    r := exists i :: 0 <= i < |rows| && rows[i].name == name;
  }

  /** The applied migrations whose file no longer has the recorded checksum. */
  method FindMismatches(ms: seq<Migration>, rows: seq<Row>) returns (names: seq<string>)
    ensures names == Mismatches(ms, rows)
  {
    names := [];
    for i := 0 to |ms|
      invariant names == Mismatches(ms[..i], rows)
    {
      assert ms[..i + 1][..i] == ms[..i];
      if exists j :: 0 <= j < |rows| && rows[j].name == ms[i].name && rows[j].checksum != ms[i].checksum {
        names := names + [ms[i].name];
      }
    }
    assert ms[..|ms|] == ms;
  }

  // ---- the attempt, step by step ----

  lemma NothingDone(ms: seq<Migration>, c: Db, w: Db)
    ensures Follows(ms, w, w) && SameData(c, c) && Extends(Pending(ms, w.rows), w, 0, 0, w)
    ensures SameData(w, w) && (SameData(w, w) ==> Follows(ms, w, w)) && Pending([], w.rows) == [] && NamesOf([]) == []
  {
    var todo := Pending(ms, w.rows);
    assert todo[..0] == [] && w.rows + RowsOf([]) == w.rows && w.log + Script([]) + [] == w.log;
    assert Extends(todo, w, 0, 0, w);
  }

  lemma SameFollows(ms: seq<Migration>, d: Db, d': Db)
    ensures SameData(d', d) ==> Follows(ms, d, d') && Extends(Pending(ms, d.rows), d, 0, 0, d')
  {
    if SameData(d', d) {
      var todo := Pending(ms, d.rows);
      assert todo[..0] == [] && d.rows + RowsOf([]) == d.rows && d.log + Script([]) + [] == d.log;
      assert Extends(todo, d, 0, 0, d');
    }
  }

  lemma PendingStep(ms: seq<Migration>, rows: seq<Row>, i: nat)
    requires i < |ms|
    ensures Pending(ms[..i + 1], rows)
            == if Recorded(rows, ms[i].name) then Pending(ms[..i], rows) else Pending(ms[..i], rows) + [ms[i]]
  {
    assert ms[..i + 1][..i] == ms[..i];
  }

  lemma {:induction false} PendingPrefix(ms: seq<Migration>, rows: seq<Row>, i: nat)
    requires i <= |ms|
    ensures Pending(ms[..i], rows) <= Pending(ms, rows)
  {
    if i == |ms| {
      assert ms[..i] == ms;
    } else {
      var shorter := ms[..|ms| - 1];
      PendingPrefix(shorter, rows, i);
      assert shorter[..i] == ms[..i];
    }
  }

  lemma PendingTakes(ms: seq<Migration>, rows: seq<Row>, i: nat, todo: seq<Migration>, a: nat)
    requires i < |ms| && !Recorded(rows, ms[i].name) && todo == Pending(ms, rows)
    requires a <= |todo| && todo[..a] == Pending(ms[..i], rows)
    ensures a < |todo| && todo[a] == ms[i] && todo[..a + 1] == Pending(ms[..i + 1], rows)
    ensures NamesOf(todo[..a + 1]) == NamesOf(todo[..a]) + [ms[i].name]
  {
    PendingStep(ms, rows, i);
    PendingPrefix(ms, rows, i + 1);
    var next := Pending(ms[..i + 1], rows);
    assert next == todo[..a] + [ms[i]] && next == todo[..|next|];
    assert todo[..a + 1][..a] == todo[..a];
  }

  lemma {:induction false} OtherNames(ms: seq<Migration>, rows: seq<Row>, n: nat, i: nat)
    requires DistinctNames(ms) && n <= i < |ms|
    ensures !Recorded(RowsOf(Pending(ms[..n], rows)), ms[i].name)
  {
    if n == 0 {
      assert ms[..n] == [];
    } else {
      OtherNames(ms, rows, n - 1, i);
      assert ms[..n][..n - 1] == ms[..n - 1];
      var sofar := Pending(ms[..n - 1], rows);
      assert (sofar + [ms[n - 1]])[..|sofar|] == sofar;
    }
  }

  lemma NotYetRecorded(ms: seq<Migration>, rows: seq<Row>, i: nat, todo: seq<Migration>, a: nat, start: Db, d: Db)
    requires i < |ms| && !Recorded(rows, ms[i].name) && start.rows == rows
    requires a <= |todo| && todo[..a] == Pending(ms[..i], rows) && Extends(todo, start, a, 0, d)
    ensures DistinctNames(ms) ==> !Recorded(d.rows, ms[i].name)
  {
    if DistinctNames(ms) {
      OtherNames(ms, rows, i, i);
    }
  }

  function Done(d: Db, m: Migration): Db {
    Db(d.schema, d.table, d.rows + [RowOf(m)], d.log + Flat(m.batches))
  }

  lemma OneMore(ms: seq<Migration>, todo: seq<Migration>, start: Db, a: nat, before: Db)
    requires todo == Pending(ms, start.rows) && a < |todo| && Extends(todo, start, a, 0, before)
    ensures Extends(todo, start, a + 1, 0, Done(before, todo[a]))
  {
    assert todo[..a + 1][..a] == todo[..a];
    assert start.log + Script(todo[..a]) + [] == start.log + Script(todo[..a]);
    assert start.rows + RowsOf(todo[..a]) + [RowOf(todo[a])] == start.rows + RowsOf(todo[..a + 1]);
    assert start.log + Script(todo[..a]) + Flat(todo[a].batches) == start.log + Script(todo[..a + 1]) + [];
  }

  lemma Stopped(ms: seq<Migration>, todo: seq<Migration>, start: Db, a: nat, before: Db, n: nat)
    requires todo == Pending(ms, start.rows) && a < |todo| && Extends(todo, start, a, 0, before)
    ensures Follows(ms, start, before) && Follows(ms, start, Done(before, todo[a]))
    ensures todo[a].noTransaction && n <= |Flat(todo[a].batches)| ==>
      Follows(ms, start, before.(log := before.log + Flat(todo[a].batches)[..n]))
  {
    OneMore(ms, todo, start, a, before);
    assert Extends(todo, start, a + 1, 0, Done(before, todo[a]));
    if todo[a].noTransaction && n <= |Flat(todo[a].batches)| {
      assert start.log + Script(todo[..a]) + [] == start.log + Script(todo[..a]);
      assert Flat(todo[a].batches)[..0] == [];
      assert Extends(todo, start, a, n, before.(log := before.log + Flat(todo[a].batches)[..n]));
    }
  }

  lemma AllTaken(ms: seq<Migration>, rows: seq<Row>, todo: seq<Migration>, a: nat, start: Db, d: Db)
    requires todo == Pending(ms, start.rows) == Pending(ms, rows) && a <= |todo| && todo[..a] == Pending(ms[..|ms|], rows)
    requires Extends(todo, start, a, 0, d)
    ensures a == |todo| && todo[..a] == todo && Follows(ms, start, d)
  {
    assert ms[..|ms|] == ms;
    assert |todo[..a]| == a;
  }

  // ---- status ----

  datatype Status = IsApplied | IsPending | IsMismatch

  function StatusOf(rows: seq<Row>, m: Migration): Status {
    if !Recorded(rows, m.name) then IsPending else if Drifted(rows, m) then IsMismatch else IsApplied
  }

  method BuildStatus(ms: seq<Migration>, rows: seq<Row>) returns (statuses: seq<Status>)
    ensures |statuses| == |ms| && forall i :: 0 <= i < |ms| ==> statuses[i] == StatusOf(rows, ms[i])
  {
    statuses := [];
    for i := 0 to |ms|
      invariant |statuses| == i && forall j :: 0 <= j < i ==> statuses[j] == StatusOf(rows, ms[j])
    {
      var recorded := IsRecorded(rows, ms[i].name);
      var drifted := exists j :: 0 <= j < |rows| && rows[j].name == ms[i].name && rows[j].checksum != ms[i].checksum;
      statuses := statuses + [if !recorded then IsPending else if drifted then IsMismatch else IsApplied];
    }
  }

  /** A read-only status foretells the attempt: a mismatch is shown iff the attempt refuses, and pending is what it applies. */
  lemma {:induction false} StatusForetells(ms: seq<Migration>, rows: seq<Row>)
    ensures Mismatches(ms, rows) == [] <==> forall m :: m in ms ==> StatusOf(rows, m) != IsMismatch
    ensures forall m :: m in Pending(ms, rows) <==> m in ms && StatusOf(rows, m) == IsPending
  {
    hide Recorded, Drifted;
    if ms != [] {
      var earlier, last := ms[..|ms| - 1], ms[|ms| - 1];
      StatusForetells(earlier, rows);
      assert ms == earlier + [last] && last in ms;
      assert forall m :: m in ms <==> m in earlier || m == last;
      DriftedIsRecorded(rows, last);
      if StatusOf(rows, last) == IsMismatch {
        assert Mismatches(ms, rows) != [];
      } else {
        assert Mismatches(ms, rows) == Mismatches(earlier, rows);
      }
    }
  }

  /** What is left to apply: the files under no recorded name, in directory order. */
  lemma {:induction false} PendingMeans(ms: seq<Migration>, rows: seq<Row>) returns (at: seq<nat>)
    ensures Picked(ms, Pending(ms, rows), at)
    ensures forall i: nat :: i < |ms| ==> (i in at <==> forall r :: r in rows ==> r.name != ms[i].name)
  {
    if ms == [] {
      at := [];
    } else {
      var earlier, last := ms[..|ms| - 1], ms[|ms| - 1];
      at := PendingMeans(earlier, rows);
      RecordedMeans(rows, last.name);
      hide Recorded, Picked;
      PickedMore(earlier, Pending(earlier, rows), at, last);
      assert ms == earlier + [last];
      if !Recorded(rows, last.name) {
        at := at + [|earlier|];
      }
    }
  }

  lemma RecordedMeans(rows: seq<Row>, name: string)
    ensures Recorded(rows, name) <==> exists r :: r in rows && r.name == name
  {
    if r :| r in rows && r.name == name {
      var i :| 0 <= i < |rows| && rows[i] == r;
    }
  }

  /** One name and one bookkeeping row for each file, in order. */
  lemma {:induction false} ListsMean(ms: seq<Migration>)
    ensures |NamesOf(ms)| == |RowsOf(ms)| == |ms|
    ensures forall i :: 0 <= i < |ms| ==> NamesOf(ms)[i] == ms[i].name && RowsOf(ms)[i] == Row(ms[i].name, ms[i].checksum)
  {
    if ms != [] {
      ListsMean(ms[..|ms| - 1]);
    }
  }

  /** The names an attempt refuses: of the files whose name is recorded with another checksum. */
  lemma {:induction false} MismatchesMean(ms: seq<Migration>, rows: seq<Row>, name: string)
    ensures name in Mismatches(ms, rows) <==>
            exists m, r :: m in ms && r in rows && m.name == name && r.name == name && r.checksum != m.checksum
  {
    if ms != [] {
      var earlier, last := ms[..|ms| - 1], ms[|ms| - 1];
      MismatchesMean(earlier, rows, name);
      assert ms == earlier + [last];
      DriftedMeans(rows, last);
      hide Drifted;
    }
  }

  lemma DriftedMeans(rows: seq<Row>, m: Migration)
    ensures Drifted(rows, m) <==> exists r :: r in rows && r.name == m.name && r.checksum != m.checksum
  {
    if r :| r in rows && r.name == m.name && r.checksum != m.checksum {
      var i :| 0 <= i < |rows| && rows[i] == r;
    }
  }

  lemma DriftedIsRecorded(rows: seq<Row>, m: Migration)
    ensures Drifted(rows, m) ==> Recorded(rows, m.name)
  {
  }
}
