/**
 Any number of attempts to apply one fixed directory to an initially empty database, on the same connection or on
 fresh ones, each failing anywhere or not at all.
 */
module MigrateRuns {
  import opened Basics
  import opened Migrate

  datatype Pair = Pair(committed: Db, working: Db)

  /** One attempt, or the connection is dropped and opened again: what was not committed is gone. */
  ghost predicate Next(ms: seq<Migration>, p: Pair, q: Pair) {
    || Attempt(ms, p.committed, p.working, q.committed, q.working)
    || q == Pair(p.committed, p.committed)
  }

  ghost predicate IsRun(ms: seq<Migration>, pairs: seq<Pair>) {
    && pairs != [] && pairs[0] == Pair(EMPTY, EMPTY)
    && forall i :: 0 <= i < |pairs| - 1 ==> Next(ms, pairs[i], pairs[i + 1])
  }

  // ---- histories ----

  /** Statements `0 .. upTo` of file `m` took effect; `recorded` if its row was written with them. */
  datatype Effect = Effect(m: nat, upTo: nat, recorded: bool)

  function Count(effects: seq<Effect>): nat {
    if effects == [] then 0 else Count(Init(effects)) + if Last(effects).recorded then 1 else 0
  }

  /**
   Files take effect in order: each effect is of the first file not yet recorded, whole if it is recorded, and
   only a file without a transaction takes effect unrecorded.
   */
  ghost predicate History(ms: seq<Migration>, effects: seq<Effect>)
    decreases |effects|
  {
    effects == [] ||
    (var e := Last(effects);
     && History(ms, Init(effects))
     && e.m == Count(Init(effects)) < |ms| && e.upTo <= |Flat(ms[e.m].batches)|
     && (if e.recorded then e.upTo == |Flat(ms[e.m].batches)| else ms[e.m].noTransaction))
  }

  predicate InRange(ms: seq<Migration>, effects: seq<Effect>) {
    forall e :: e in effects ==> e.m < |ms| && e.upTo <= |Flat(ms[e.m].batches)|
  }

  function LogOf(ms: seq<Migration>, effects: seq<Effect>): seq<Stmt>
    requires InRange(ms, effects)
  {
    if effects == [] then []
    else LogOf(ms, Init(effects)) + Flat(ms[Last(effects).m].batches)[..Last(effects).upTo]
  }

  lemma {:induction false} HistoryInRange(ms: seq<Migration>, effects: seq<Effect>)
    requires History(ms, effects)
    ensures InRange(ms, effects) && Count(effects) <= |ms|
  {
    if effects != [] {
      HistoryInRange(ms, Init(effects));
      assert effects == Init(effects) + [Last(effects)];
    }
  }

  ghost predicate Tells(ms: seq<Migration>, effects: seq<Effect>, d: Db) {
    && History(ms, effects) && InRange(ms, effects) && Count(effects) <= |ms|
    && d.rows == RowsOf(ms[..Count(effects)]) && d.log == LogOf(ms, effects)
  }

  ghost predicate Good(ms: seq<Migration>, d: Db) {
    exists effects :: Tells(ms, effects, d)
  }

  // ---- what is pending ----

  lemma {:induction false} RowsAt(ms: seq<Migration>, i: nat)
    requires i < |ms|
    ensures |RowsOf(ms)| == |ms| && RowsOf(ms)[i] == RowOf(ms[i])
  {
    if |ms| == 1 {
      assert RowsOf(Init(ms)) == [];
    } else {
      RowsAt(Init(ms), if i < |ms| - 1 then i else 0);
    }
  }

  lemma RecordedIsEarlier(ms: seq<Migration>, k: nat, i: nat)
    requires DistinctNames(ms) && k <= |ms| && i < |ms|
    ensures Recorded(RowsOf(ms[..k]), ms[i].name) <==> i < k
    ensures !Drifted(RowsOf(ms[..k]), ms[i])
    ensures |RowsOf(ms[..k])| == k
  {
    var rows := RowsOf(ms[..k]);
    if k == 0 {
      assert ms[..k] == [] && RowsOf([]) == [];
    } else {
      RowsAt(ms[..k], 0);
      forall j | 0 <= j < k ensures rows[j] == RowOf(ms[j]) {
        RowsAt(ms[..k], j);
      }
      if i < k {
        assert rows[i].name == ms[i].name;
      }
    }
  }

  lemma {:induction false} PendingIsRest(ms: seq<Migration>, k: nat, i: nat)
    requires DistinctNames(ms) && k <= |ms| && i <= |ms|
    ensures Pending(ms[..i], RowsOf(ms[..k])) == if i <= k then [] else ms[k..i]
    ensures Mismatches(ms[..i], RowsOf(ms[..k])) == []
  {
    hide Recorded, Drifted, RowsOf;
    if i > 0 {
      PendingIsRest(ms, k, i - 1);
      RecordedIsEarlier(ms, k, i - 1);
      assert ms[..i][..i - 1] == ms[..i - 1];
    }
  }

  // ---- what every attempt keeps ----

  lemma Continue(ms: seq<Migration>, effects: seq<Effect>, d: Db, e: Effect)
    requires Tells(ms, effects, d) && e.m == Count(effects) < |ms| && e.upTo <= |Flat(ms[e.m].batches)|
    requires if e.recorded then e.upTo == |Flat(ms[e.m].batches)| else ms[e.m].noTransaction
    ensures Tells(ms, effects + [e], Db(d.schema, d.table,
              if e.recorded then d.rows + [RowOf(ms[e.m])] else d.rows, d.log + Flat(ms[e.m].batches)[..e.upTo]))
  {
    assert Init(effects + [e]) == effects;
    assert ms[..e.m + 1][..e.m] == ms[..e.m];
  }

  /** A log continued by files `k .. k + a`. */
  function LogThrough(log: seq<Stmt>, ms: seq<Migration>, k: nat, a: nat): seq<Stmt>
    requires k + a <= |ms|
  {
    if a == 0 then log else LogThrough(log, ms, k, a - 1) + Flat(ms[k + a - 1].batches)
  }

  lemma {:induction false} LogThroughIs(log: seq<Stmt>, ms: seq<Migration>, k: nat, a: nat)
    requires k + a <= |ms|
    ensures LogThrough(log, ms, k, a) == log + Script(ms[k..k + a])
  {
    hide Flat;
    if a == 0 {
      NoScript(log);
      assert ms[k..k + a] == [];
    } else {
      LogThroughIs(log, ms, k, a - 1);
      assert ms[k..k + a][..a - 1] == ms[k..k + a - 1];
    }
  }

  lemma NoScript(log: seq<Stmt>)
    ensures log + Script([]) == log
  {
  }

  lemma {:induction false} RowsThroughIs(ms: seq<Migration>, k: nat, a: nat)
    requires k + a <= |ms|
    ensures RowsOf(ms[..k + a]) == RowsOf(ms[..k]) + RowsOf(ms[k..k + a])
  {
    if a == 0 {
      assert ms[k..k + a] == [];
    } else {
      RowsThroughIs(ms, k, a - 1);
      assert ms[k..k + a][..a - 1] == ms[k..k + a - 1];
      assert ms[..k + a][..k + a - 1] == ms[..k + a - 1];
    }
  }

  /** The first `a` pending files applied: `a` recorded effects more. */
  lemma {:induction false} ContinueWhole(ms: seq<Migration>, effects: seq<Effect>, d: Db, a: nat) returns (effects': seq<Effect>)
    requires Tells(ms, effects, d) && Count(effects) + a <= |ms|
    ensures var k := Count(effects);
            && Count(effects') == k + a
            && Tells(ms, effects', Db(d.schema, d.table, RowsOf(ms[..k + a]), LogThrough(d.log, ms, k, a)))
  {
    hide RowsOf, Flat, History, InRange, LogOf, Count;
    var k := Count(effects);
    if a == 0 {
      effects' := effects;
    } else {
      var shorter := ContinueWhole(ms, effects, d, a - 1);
      effects' := WholeStep(ms, shorter, Db(d.schema, d.table, RowsOf(ms[..k + a - 1]), LogThrough(d.log, ms, k, a - 1)));
    }
  }

  lemma WholeStep(ms: seq<Migration>, effects: seq<Effect>, d: Db) returns (effects': seq<Effect>)
    requires Tells(ms, effects, d) && Count(effects) < |ms|
    ensures var k := Count(effects);
            Count(effects') == k + 1 && Tells(ms, effects', Db(d.schema, d.table, RowsOf(ms[..k + 1]), d.log + Flat(ms[k].batches)))
  {
    var k := Count(effects);
    var e := Effect(k, |Flat(ms[k].batches)|, true);
    Continue(ms, effects, d, e);
    effects' := effects + [e];
    assert Init(effects') == effects;
    assert Flat(ms[k].batches)[..e.upTo] == Flat(ms[k].batches);
    assert ms[..k + 1][..k] == ms[..k];
  }

  lemma FollowsKeepsGood(ms: seq<Migration>, d: Db, d': Db)
    requires DistinctNames(ms) && Good(ms, d) && Follows(ms, d, d')
    ensures Good(ms, d')
  {
    hide Extends, Pending, LogThrough, RowsOf, Flat, History, InRange, LogOf, Follows;
    var effects :| Tells(ms, effects, d);
    var k := Count(effects);
    var a, j := FollowsMeans(ms, effects, d, d');
    var whole := ContinueWhole(ms, effects, d, a);
    var d1 := Db(d.schema, d.table, RowsOf(ms[..k + a]), LogThrough(d.log, ms, k, a));
    hide Tells;
    if j == 0 {
      FlagsDoNotMatter(ms, whole, d1, d');
    } else {
      var e := Effect(k + a, j, false);
      Continue(ms, whole, d1, e);
      FlagsDoNotMatter(ms, whole + [e], Db(d1.schema, d1.table, d1.rows, d1.log + Flat(ms[k + a].batches)[..j]), d');
    }
  }

  /** What an attempt on a good database does, by position: files `k .. k + a`, and maybe a first part of the next. */
  lemma FollowsMeans(ms: seq<Migration>, effects: seq<Effect>, d: Db, d': Db) returns (a: nat, j: nat)
    requires DistinctNames(ms) && Tells(ms, effects, d) && Follows(ms, d, d')
    ensures var k := Count(effects);
            && k + a <= |ms| && d'.rows == RowsOf(ms[..k + a])
            && (j > 0 ==> k + a < |ms| && ms[k + a].noTransaction && j <= |Flat(ms[k + a].batches)|)
            && d'.log == if j == 0 then LogThrough(d.log, ms, k, a) else LogThrough(d.log, ms, k, a) + Flat(ms[k + a].batches)[..j]
  {
    HistoryInRange(ms, effects);
    var k := Count(effects);
    TodoIsRest(ms, k);
    hide *;
    a, j := ExtendsSome(ms, ms[k..], d, d');
    ExtendsMeans(ms, k, d, a, j, d');
  }

  lemma ExtendsSome(ms: seq<Migration>, todo: seq<Migration>, d: Db, d': Db) returns (a: nat, j: nat)
    requires Follows(ms, d, d') && todo == Pending(ms, d.rows)
    ensures Extends(todo, d, a, j, d')
  {
    hide Extends, Pending;
    a, j :| Extends(Pending(ms, d.rows), d, a, j, d');
  }

  lemma ExtendsMeans(ms: seq<Migration>, k: nat, d: Db, a: nat, j: nat, d': Db)
    requires k <= |ms| && d.rows == RowsOf(ms[..k]) && Extends(ms[k..], d, a, j, d')
    ensures k + a <= |ms| && d'.rows == RowsOf(ms[..k + a])
    ensures j > 0 ==> k + a < |ms| && ms[k + a].noTransaction && j <= |Flat(ms[k + a].batches)|
    ensures d'.log == if j == 0 then LogThrough(d.log, ms, k, a) else LogThrough(d.log, ms, k, a) + Flat(ms[k + a].batches)[..j]
  {
    hide LogThrough, Script, RowsOf, Flat;
    assert ms[k..][..a] == ms[k..k + a];
    RowsThroughIs(ms, k, a);
    LogThroughIs(d.log, ms, k, a);
    if j == 0 {
      NothingAdded(d.log + Script(ms[k..k + a]));
    }
  }

  lemma TodoIsRest(ms: seq<Migration>, k: nat)
    requires DistinctNames(ms) && k <= |ms|
    ensures Pending(ms, RowsOf(ms[..k])) == ms[k..] && Mismatches(ms, RowsOf(ms[..k])) == []
  {
    PendingIsRest(ms, k, |ms|);
    assert ms[..|ms|] == ms;
    assert ms[k..|ms|] == ms[k..];
  }

  lemma FlagsDoNotMatter(ms: seq<Migration>, effects: seq<Effect>, d: Db, d': Db)
    requires Tells(ms, effects, d) && SameData(d, d')
    ensures Good(ms, d')
  {
    assert Tells(ms, effects, d');
  }

  // ---- whole runs ----

  lemma EmptyIsGood(ms: seq<Migration>)
    ensures Good(ms, EMPTY)
  {
    assert ms[..0] == [];
    assert Tells(ms, [], EMPTY);
  }

  lemma SameKeepsGood(ms: seq<Migration>, d: Db, d': Db)
    requires Good(ms, d) && SameData(d, d')
    ensures Good(ms, d')
  {
    var effects :| Tells(ms, effects, d);
    FlagsDoNotMatter(ms, effects, d, d');
  }

  lemma NextKeepsGood(ms: seq<Migration>, p: Pair, q: Pair)
    requires DistinctNames(ms) && Good(ms, p.committed) && Good(ms, p.working) && Next(ms, p, q)
    ensures Good(ms, q.committed) && Good(ms, q.working)
  {
    hide Good, Follows, SameData;
    if Attempt(ms, p.committed, p.working, q.committed, q.working) {
      FollowsKeepsGood(ms, p.working, q.working);
      if SameData(p.committed, q.committed) {
        SameKeepsGood(ms, p.committed, q.committed);
      } else {
        FollowsKeepsGood(ms, p.working, q.committed);
      }
    }
  }

  lemma {:induction false} RunKeepsGood(ms: seq<Migration>, pairs: seq<Pair>, i: nat)
    requires DistinctNames(ms) && IsRun(ms, pairs) && i < |pairs|
    ensures Good(ms, pairs[i].committed) && Good(ms, pairs[i].working)
  {
    hide Good, Next;
    if i == 0 {
      EmptyIsGood(ms);
    } else {
      RunKeepsGood(ms, pairs, i - 1);
      NextKeepsGood(ms, pairs[i - 1], pairs[i]);
    }
  }

  /**
   After any run, the recorded names are a prefix of the ordered files, no checksum ever mismatches, and the log
   is that of a history: transactional files whole and once, in order, others by parts before their whole.
   */
  lemma RecordedIsPrefix(ms: seq<Migration>, pairs: seq<Pair>, i: nat) returns (k: nat, effects: seq<Effect>)
    requires DistinctNames(ms) && IsRun(ms, pairs) && i < |pairs|
    ensures var d := pairs[i].committed;
            && k <= |ms| && d.rows == RowsOf(ms[..k]) && Mismatches(ms, d.rows) == [] && Pending(ms, d.rows) == ms[k..]
            && Tells(ms, effects, d) && Count(effects) == k
  {
    RunKeepsGood(ms, pairs, i);
    var d := pairs[i].committed;
    effects :| Tells(ms, effects, d);
    HistoryInRange(ms, effects);
    k := Count(effects);
    TodoIsRest(ms, k);
  }

  /** How often file `m` took effect. */
  function Times(effects: seq<Effect>, m: nat): nat {
    if effects == [] then 0 else Times(Init(effects), m) + if Last(effects).m == m then 1 else 0
  }

  /** A transactional file took effect exactly once if it is recorded and never otherwise; no file before its turn. */
  lemma {:induction false} EffectsOfFile(ms: seq<Migration>, effects: seq<Effect>, m: nat)
    requires History(ms, effects) && m < |ms|
    ensures !ms[m].noTransaction ==> Times(effects, m) == if m < Count(effects) then 1 else 0
    ensures m > Count(effects) ==> Times(effects, m) == 0
    ensures m < Count(effects) ==> Times(effects, m) >= 1
  {
    if effects != [] {
      EffectsOfFile(ms, Init(effects), m);
    }
  }

  // ---- a completed run is a clean one ----

  function Fold<S>(exec: (S, Stmt) -> S, s: S, log: seq<Stmt>): S {
    if log == [] then s else exec(Fold(exec, s, Init(log)), Last(log))
  }

  lemma {:induction false} FoldConcat<S>(exec: (S, Stmt) -> S, s: S, a: seq<Stmt>, b: seq<Stmt>)
    ensures Fold(exec, s, a + b) == Fold(exec, Fold(exec, s, a), b)
  {
    if b == [] {
      assert a + b == a;
    } else {
      FoldConcat(exec, s, a, Init(b));
      assert Init(a + b) == a + Init(b);
    }
  }

  /** Running the file whole after any first part of it leads where running it once leads. */
  ghost predicate RerunWhole<S(!new)>(exec: (S, Stmt) -> S, file: seq<Stmt>) {
    forall s: S, j: nat :: j <= |file| ==> Fold(exec, Fold(exec, s, file[..j]), file) == Fold(exec, s, file)
  }

  ghost predicate AllRerunWhole<S(!new)>(exec: (S, Stmt) -> S, ms: seq<Migration>) {
    forall m :: 0 <= m < |ms| && ms[m].noTransaction ==> RerunWhole(exec, Flat(ms[m].batches))
  }

  /**
   The state after a history. Running the first unrecorded file from here leads where it leads after a clean run of
   the recorded ones; unless that file has been run in part, this already is the state of the clean run.
   */
  lemma {:induction false} HistoryState<S(!new)>(exec: (S, Stmt) -> S, s0: S, ms: seq<Migration>, effects: seq<Effect>)
    requires History(ms, effects) && AllRerunWhole(exec, ms)
    ensures InRange(ms, effects) && Count(effects) <= |ms|
    ensures var k := Count(effects);
      var clean, state := Fold(exec, s0, Script(ms[..k])), Fold(exec, s0, LogOf(ms, effects));
      && (k == |ms| || !ms[k].noTransaction ==> state == clean)
      && (k < |ms| ==> Fold(exec, state, Flat(ms[k].batches)) == Fold(exec, clean, Flat(ms[k].batches)))
    decreases |effects|
  {
    hide *;
    HistoryInRange(ms, effects);
    if effects == [] {
      NothingRun(ms);
    } else {
      var e := Last(effects);
      var k := e.m;
      LastEffect(ms, effects);
      HistoryState(exec, s0, ms, Init(effects));
      var file := Flat(ms[k].batches);
      FoldConcat(exec, s0, LogOf(ms, Init(effects)), file[..e.upTo]);
      if e.recorded {
        ScriptMore(ms, k);
        FoldConcat(exec, s0, Script(ms[..k]), file);
      } else {
        MayRunAgain(exec, ms, k);
        RunAgain(exec, Fold(exec, s0, LogOf(ms, Init(effects))), file, e.upTo);
      }
    }
  }

  lemma NothingRun(ms: seq<Migration>)
    ensures Count([]) == 0 && LogOf(ms, []) == [] && Script(ms[..0]) == []
  {
  }

  /** The last effect of a history, and the history before it. */
  lemma LastEffect(ms: seq<Migration>, effects: seq<Effect>)
    requires effects != [] && History(ms, effects)
    ensures var e, init := Last(effects), Init(effects);
      && History(ms, init) && InRange(ms, init) && InRange(ms, effects)
      && e.m == Count(init) < |ms| && e.upTo <= |Flat(ms[e.m].batches)|
      && LogOf(ms, effects) == LogOf(ms, init) + Flat(ms[e.m].batches)[..e.upTo]
      && Count(effects) == Count(init) + (if e.recorded then 1 else 0)
      && (if e.recorded then Flat(ms[e.m].batches)[..e.upTo] == Flat(ms[e.m].batches) else ms[e.m].noTransaction)
  {
    hide Flat;
    HistoryInRange(ms, effects);
    HistoryInRange(ms, Init(effects));
  }

  lemma ScriptMore(ms: seq<Migration>, k: nat)
    requires k < |ms|
    ensures Script(ms[..k + 1]) == Script(ms[..k]) + Flat(ms[k].batches)
  {
    assert ms[..k + 1][..k] == ms[..k];
  }

  lemma MayRunAgain<S(!new)>(exec: (S, Stmt) -> S, ms: seq<Migration>, k: nat)
    requires AllRerunWhole(exec, ms) && k < |ms| && ms[k].noTransaction
    ensures RerunWhole(exec, Flat(ms[k].batches))
  {
  }

  lemma RunAgain<S(!new)>(exec: (S, Stmt) -> S, s: S, file: seq<Stmt>, j: nat)
    requires RerunWhole(exec, file) && j <= |file|
    ensures Fold(exec, Fold(exec, s, file[..j]), file) == Fold(exec, s, file)
  {
  }

  /**
   When every file is recorded and every file without a transaction may be run again whole, the state is that of one
   clean sequential run, however many attempts failed on the way and wherever.
   */
  lemma CompletedRunIsClean<S(!new)>(exec: (S, Stmt) -> S, s0: S, ms: seq<Migration>, pairs: seq<Pair>, i: nat)
    requires DistinctNames(ms) && IsRun(ms, pairs) && i < |pairs|
    requires Pending(ms, pairs[i].committed.rows) == []
    requires AllRerunWhole(exec, ms)
    ensures Fold(exec, s0, pairs[i].committed.log) == Fold(exec, s0, Script(ms))
  {
    hide AllRerunWhole, Flat, Script, Fold;
    var k, effects := RecordedIsPrefix(ms, pairs, i);
    HistoryState(exec, s0, ms, effects);
    assert ms[..|ms|] == ms;
  }

  // ---- which files may be run again ----

  /** However often the file is tried before it is recorded, and however far each try gets, the state is the clean one. */
  ghost predicate AlwaysClean<S(!new)>(exec: (S, Stmt) -> S, m: Migration) {
    forall s: S, effects :: History([m], effects) && InRange([m], effects) && Count(effects) == 1 ==>
      Fold(exec, s, LogOf([m], effects)) == Fold(exec, s, Flat(m.batches))
  }

  /** For a file on its own, from any state, the hypothesis of the theorem is exactly what the conclusion needs. */
  lemma RerunWholeIsNeeded<S(!new)>(exec: (S, Stmt) -> S, m: Migration)
    requires m.noTransaction
    ensures AlwaysClean(exec, m) <==> RerunWhole(exec, Flat(m.batches))
  {
    var file := Flat(m.batches);
    if RerunWhole(exec, file) {
      forall s: S, effects | History([m], effects) && InRange([m], effects) && Count(effects) == 1
        ensures Fold(exec, s, LogOf([m], effects)) == Fold(exec, s, file)
      {
        hide Flat, Fold, RerunWhole;
        HistoryState(exec, s, [m], effects);
        OneFile(m);
      }
    }
    if AlwaysClean(exec, m) {
      forall s: S, j: nat | j <= |file| ensures Fold(exec, Fold(exec, s, file[..j]), file) == Fold(exec, s, file) {
        TriedTwice(m, j);
        hide Flat, Fold;
        assert Fold(exec, s, LogOf([m], [Effect(0, j, false), Effect(0, |file|, true)])) == Fold(exec, s, file);
        FoldConcat(exec, s, file[..j], file);
      }
    }
  }

  lemma OneFile(m: Migration)
    ensures Script([m][..1]) == Flat(m.batches)
  {
    assert [m][..1] == [m] && [m][..0] == [];
    assert Script([]) + Flat(m.batches) == Flat(m.batches);
  }

  /** A file run in part, then whole. */
  lemma TriedTwice(m: Migration, j: nat)
    requires m.noTransaction && j <= |Flat(m.batches)|
    ensures var file := Flat(m.batches); var effects := [Effect(0, j, false), Effect(0, |file|, true)];
            && History([m], effects) && InRange([m], effects) && Count(effects) == 1
            && LogOf([m], effects) == file[..j] + file
  {
    var file := Flat(m.batches);
    var part, whole := Effect(0, j, false), Effect(0, |file|, true);
    hide Flat;
    assert Init([part]) == [] && Init([part, whole]) == [part];
    assert Last([part]) == part && Last([part, whole]) == whole;
    assert Count([]) == 0 && Count([part]) == 0;
    assert History([m], []);
    assert History([m], [part]);
    assert file[..|file|] == file && LogOf([m], []) + file[..j] == file[..j];
  }

  /** Every statement is guarded: once executed, it does nothing at any later point of its own file. */
  ghost predicate Rerunnable<S(!new)>(exec: (S, Stmt) -> S, file: seq<Stmt>) {
    forall s: S, i: nat, j: nat :: i < j <= |file| ==> exec(Fold(exec, s, file[..j]), file[i]) == Fold(exec, s, file[..j])
  }

  /** Running the first `u` statements of a guarded file again after its first `j` brings the state to the further of the two. */
  lemma {:induction false} RerunReaches<S(!new)>(exec: (S, Stmt) -> S, s: S, file: seq<Stmt>, j: nat, u: nat)
    requires Rerunnable(exec, file) && j <= |file| && u <= |file|
    ensures Fold(exec, Fold(exec, s, file[..j]), file[..u]) == Fold(exec, s, file[..if u < j then j else u])
  {
    if u == 0 {
      assert file[..u] == [];
    } else {
      RerunReaches(exec, s, file, j, u - 1);
      assert Init(file[..u]) == file[..u - 1] && Last(file[..u]) == file[u - 1];
    }
  }

  lemma GuardedMayRunAgain<S(!new)>(exec: (S, Stmt) -> S, file: seq<Stmt>)
    requires Rerunnable(exec, file)
    ensures RerunWhole(exec, file)
  {
    forall s: S, j: nat | j <= |file| ensures Fold(exec, Fold(exec, s, file[..j]), file) == Fold(exec, s, file) {
      hide Rerunnable, Fold;
      RerunReaches(exec, s, file, j, |file|);
      assert file[..|file|] == file;
    }
  }

  lemma NoneRun<S>(exec: (S, Stmt) -> S, s: S, file: seq<Stmt>)
    ensures Fold(exec, s, file[..0]) == s
  {
  }

  /** With guarded files the state after a history is known: the recorded files once each, and the furthest part of the next. */
  lemma {:induction false} FurthestPart<S(!new)>(exec: (S, Stmt) -> S, s0: S, ms: seq<Migration>, effects: seq<Effect>) returns (j: nat)
    requires History(ms, effects)
    requires forall m :: 0 <= m < |ms| && ms[m].noTransaction ==> Rerunnable(exec, Flat(ms[m].batches))
    ensures InRange(ms, effects) && Count(effects) <= |ms| && (j > 0 ==> Count(effects) < |ms| && ms[Count(effects)].noTransaction)
    ensures Count(effects) < |ms| ==> j <= |Flat(ms[Count(effects)].batches)|
    ensures var clean := Fold(exec, s0, Script(ms[..Count(effects)]));
      Fold(exec, s0, LogOf(ms, effects)) == if j == 0 then clean else Fold(exec, clean, Flat(ms[Count(effects)].batches)[..j])
    decreases |effects|
  {
    hide *;
    HistoryInRange(ms, effects);
    if effects == [] {
      NothingRun(ms);
      j := 0;
    } else {
      var e := Last(effects);
      var k := e.m;
      LastEffect(ms, effects);
      var i := FurthestPart(exec, s0, ms, Init(effects));
      var file := Flat(ms[k].batches);
      var clean := Fold(exec, s0, Script(ms[..k]));
      FoldConcat(exec, s0, LogOf(ms, Init(effects)), file[..e.upTo]);
      if i > 0 {
        RerunReaches(exec, clean, file, i, e.upTo);
      }
      if e.recorded {
        j := 0;
        assert i > 0 ==> file[..if |file| < i then i else |file|] == file;
        ScriptMore(ms, k);
        FoldConcat(exec, s0, Script(ms[..k]), file);
      } else {
        NoneRun(exec, clean, file);
        j := if e.upTo < i then i else e.upTo;
      }
    }
  }

  /** A database of one object, there or not: dropped if it exists, created if it does not. */
  function Guarded(there: bool, stmt: Stmt): bool {
    if stmt == "DROP IF EXISTS" then false else true
  }

  /** Dropping an object if it exists and creating it if absent may be run again, though the drop undoes the create. */
  lemma DropThenCreate()
    ensures var file := ["DROP IF EXISTS", "CREATE IF NOT EXISTS"]; RerunWhole(Guarded, file) && !Rerunnable(Guarded, file)
  {
    var file := ["DROP IF EXISTS", "CREATE IF NOT EXISTS"];
    forall s: bool ensures Fold(Guarded, s, file) {
      assert file == Init(file) + [file[1]];
    }
    assert file[..2] == file;
    assert Guarded(Fold(Guarded, true, file[..2]), file[0]) != Fold(Guarded, true, file[..2]);
  }
}
