/**
 Retention on the server: a two-phase delete of old tasks that can stop between any two
 of its durable steps, and the eviction loop that uses it to fit a budget.
 */
module Retention {
  import opened Prelude
  import opened DirGauge

  type Id = nat
  type TaskId = Id

  datatype Sealing = Active | Finalizing | Complete | Missing | Expired

  datatype Task = Task(terminal: bool, finished: Option<int>, created: int,
                       counted: bool,   // a timer or trigger-now task of a schedule
                       recorded: bool)  // its outcome was recorded
  datatype LogKey = LogKey(task: TaskId, execution: Id, stream: Id)
  datatype LogRow = LogRow(path: string, status: Sealing, integrityExpired: bool)

  datatype Db = Db(tasks: map<TaskId, Task>, executions: map<Id, TaskId>,
                   logs: map<LogKey, LogRow>, outbox: map<Id, TaskId>)

  // ------------------------------------------------------------- eligibility

  predicate Open(db: Db, t: TaskId) {
    exists k | k in db.logs :: k.task == t && db.logs[k].status in {Active, Finalizing}
  }

  /** A task whose age, seals and bookkeeping allow its deletion. */
  predicate Eligible(db: Db, t: TaskId, cutoff: Option<int>) {
    && t in db.tasks
    && db.tasks[t].terminal
    && !Open(db, t)
    && !(db.tasks[t].counted && !db.tasks[t].recorded)
    && OldEnough(db.tasks[t], cutoff)
  }

  predicate OldEnough(task: Task, cutoff: Option<int>) {
    cutoff.Some? ==> (if task.finished.Some? then task.finished.value else task.created) < cutoff.value
  }

  /** The eligible tasks, of these only; an empty list restricts nothing. */
  function Chosen(db: Db, cutoff: Option<int>, only: Option<set<TaskId>>): set<TaskId> {
    set t | t in db.tasks && Eligible(db, t, cutoff) && (only.Some? && only.value != {} ==> t in only.value)
  }

  /** Retention may take the task: it ended before the cutoff, its logs are sealed, its outcome counted. */
  ghost predicate MayGo(db: Db, t: TaskId, cutoff: Option<int>)
    requires t in db.tasks
  {
    var task := db.tasks[t];
    && task.terminal
    && (forall k | k in db.logs && k.task == t :: db.logs[k].status != Active && db.logs[k].status != Finalizing)
    && (task.counted ==> task.recorded)
    && match cutoff
       case None => true
       case Some(time) => match task.finished case Some(end) => end < time case None => task.created < time
  }

  /** Not on the list, where there is one. */
  ghost predicate Spared(t: TaskId, only: Option<set<TaskId>>) {
    only.Some? && only.value != {} && t !in only.value
  }

  /** The query finds exactly these tasks. */
  lemma ChosenMayGo(db: Db, cutoff: Option<int>, only: Option<set<TaskId>>)
    ensures forall t :: t in Chosen(db, cutoff, only) <==>
      t in db.tasks && MayGo(db, t, cutoff) && !Spared(t, only)
  {
  }

  // ------------------------------------------------------------- what may go wrong

  /** Where one run of the delete dies, if it does. */
  datatype Crash = Never | AtOnce            // before the audit fact is committed
                 | After(unlinks: nat)       // after that many unlinks, at the latest before the rows go

  /** One run's bad luck: the rows whose unlink is refused or raises, and the crash. */
  datatype Luck = Luck(stuck: set<LogKey>, raising: set<LogKey>, crash: Crash)

  const CALM := Luck({}, {}, Never)

  predicate Bad(luck: Luck, k: LogKey) { k in luck.stuck || k in luck.raising }

  /** The chosen tasks with a row whose unlink goes wrong. */
  function Unlucky(db: Db, chosen: set<TaskId>, luck: Luck): set<TaskId> {
    set k | k in db.logs && k.task in chosen && Bad(luck, k) :: k.task
  }

  /** The bodies whose unlink goes right. */
  function Freed(db: Db, chosen: set<TaskId>, luck: Luck): set<string> {
    set k | k in db.logs && k.task in chosen && !Bad(luck, k) :: db.logs[k].path
  }

  /** No crash, and no unlink of a chosen task goes wrong. */
  predicate Harmless(db: Db, chosen: set<TaskId>, luck: Luck) {
    luck.crash == Never && Unlucky(db, chosen, luck) == {}
  }

  // ------------------------------------------------------------- what must always hold

  /** The foreign key from executions to tasks. */
  ghost predicate Keyed(db: Db) {
    forall e | e in db.executions :: db.executions[e] in db.tasks
  }

  /** No body is shared by two tasks. */
  ghost predicate OwnBodies(db: Db) {
    forall k, l | k in db.logs && l in db.logs && db.logs[k].path == db.logs[l].path :: k.task == l.task
  }

  function PathsOf(db: Db, tasks: set<TaskId>): set<string> {
    set k | k in db.logs && k.task in tasks :: db.logs[k].path
  }

  /** Every body on disk is named by a committed row. */
  ghost predicate Referenced(db: Db, files: map<string, Bytes>) {
    forall p | p in files :: exists k :: k in db.logs && db.logs[k].path == p
  }

  // ------------------------------------------------------------- meaning of a completed delete

  /** The database without these tasks and everything that hangs off them. */
  function Without(db: Db, gone: set<TaskId>): Db {
    Db(map t | t in db.tasks && t !in gone :: db.tasks[t],
       map e | e in db.executions && db.executions[e] !in gone :: db.executions[e],
       map k | k in db.logs && k.task !in gone :: db.logs[k],
       map c | c in db.outbox && db.outbox[c] !in gone :: db.outbox[c])
  }

  /** The same rows, the log rows of these tasks marked expired. */
  function Marked(db: Db, tasks: set<TaskId>): Db {
    db.(logs := map k | k in db.logs ::
      if k.task in tasks then db.logs[k].(status := Expired, integrityExpired := true) else db.logs[k])
  }

  /**
   A delete of `chosen` got as far as this: some of its tasks are gone with their
   bodies, the rest is there with expired rows (or nothing has happened yet).
   */
  ghost predicate Progress(db0: Db, files0: map<string, Bytes>, db: Db, files: map<string, Bytes>,
                           chosen: set<TaskId>, gone: set<TaskId>) {
    && gone <= chosen
    && ((db == db0 && files == files0) || db == Without(Marked(db0, chosen), gone))
    && files - PathsOf(db0, chosen) == files0 - PathsOf(db0, chosen)
    && (forall p | p in files :: p in files0 && files[p] == files0[p])
    && (forall p | p in PathsOf(db0, gone) :: p !in files)
  }

  /** At every crash point, every body on disk has a committed row and every row its task. */
  lemma CrashKeepsReferences(db0: Db, files0: map<string, Bytes>, db: Db, files: map<string, Bytes>,
                             chosen: set<TaskId>, gone: set<TaskId>)
    requires Progress(db0, files0, db, files, chosen, gone)
    requires Keyed(db0) && OwnBodies(db0) && Referenced(db0, files0)
    ensures Keyed(db) && OwnBodies(db) && Referenced(db, files)
  {
    StillKeyed(db0, db, chosen, gone);
    if db != db0 {
      StillReferenced(db0, db, files, chosen, gone);
    }
  }

  lemma StillReferenced(db0: Db, db: Db, files: map<string, Bytes>, chosen: set<TaskId>, gone: set<TaskId>)
    requires db == Without(Marked(db0, chosen), gone) && Referenced(db0, files)
    requires forall p | p in PathsOf(db0, gone) :: p !in files
    ensures Referenced(db, files)
  {
    forall p | p in files
      ensures exists k :: k in db.logs && db.logs[k].path == p
    {
      var k :| k in db0.logs && db0.logs[k].path == p;
      assert k.task in gone ==> p in PathsOf(db0, gone);
      assert k in db.logs && db.logs[k].path == p;
    }
  }

  lemma StillKeyed(db0: Db, db: Db, chosen: set<TaskId>, gone: set<TaskId>)
    requires db == db0 || db == Without(Marked(db0, chosen), gone)
    requires Keyed(db0) && OwnBodies(db0)
    ensures Keyed(db) && OwnBodies(db)
  {
  }

  /** A committed row whose body was removed is expired; a removed row left no body. */
  lemma CrashLeavesNoDanglingRow(db0: Db, files0: map<string, Bytes>, db: Db, files: map<string, Bytes>,
                                 chosen: set<TaskId>, gone: set<TaskId>, k: LogKey)
    requires Progress(db0, files0, db, files, chosen, gone) && OwnBodies(db0) && k in db0.logs
    ensures k in db.logs && db.logs[k].path in files0 && db.logs[k].path !in files ==> db.logs[k].status == Expired
    ensures k !in db.logs ==> db0.logs[k].path !in files
  {
    var p := db0.logs[k].path;
    if k !in db.logs {
      assert p in PathsOf(db0, gone);
    } else if p in files0 && p !in files && k.task !in chosen {
      OthersKeepBodies(db0, files0, files, chosen, k);
    }
  }

  /** A body of a task that was not chosen stays, byte for byte. */
  lemma OthersKeepBodies(db0: Db, files0: map<string, Bytes>, files: map<string, Bytes>, chosen: set<TaskId>, k: LogKey)
    requires OwnBodies(db0) && files - PathsOf(db0, chosen) == files0 - PathsOf(db0, chosen)
    requires k in db0.logs && k.task !in chosen && db0.logs[k].path in files0
    ensures db0.logs[k].path in files && files[db0.logs[k].path] == files0[db0.logs[k].path]
  {
    var p := db0.logs[k].path;
    assert p !in PathsOf(db0, chosen);
    assert p in files0 - PathsOf(db0, chosen);
    assert p in files - PathsOf(db0, chosen);
  }

  /** Nothing that was not chosen is touched: tasks, executions, commands or rows. */
  lemma OthersUntouched(db0: Db, chosen: set<TaskId>, gone: set<TaskId>)
    requires gone <= chosen
    ensures Without(Without(Marked(db0, chosen), gone), chosen) == Without(db0, chosen)
  {
    var w := Without(Without(Marked(db0, chosen), gone), chosen);
    assert w.tasks == Without(db0, chosen).tasks;
    assert w.logs == Without(db0, chosen).logs;
  }

  /** What goes with a deleted task, and what stays as it was, table by table. */
  lemma GoneWithTheTask(db0: Db, files0: map<string, Bytes>, db: Db, files: map<string, Bytes>, chosen: set<TaskId>,
                        gone: set<TaskId>)
    requires Progress(db0, files0, db, files, chosen, gone)
    requires gone != {} ==> db != db0
    ensures forall t | t in db0.tasks ::
      if t in gone then t !in db.tasks else t in db.tasks && db.tasks[t] == db0.tasks[t]
    ensures forall e | e in db0.executions ::
      if db0.executions[e] in gone then e !in db.executions
      else e in db.executions && db.executions[e] == db0.executions[e]
    ensures forall c | c in db0.outbox ::
      if db0.outbox[c] in gone then c !in db.outbox else c in db.outbox && db.outbox[c] == db0.outbox[c]
    ensures forall k | k in db0.logs :: if k.task in gone then k !in db.logs else
      k in db.logs &&
        (db.logs[k] == db0.logs[k] || (k.task in chosen && db.logs[k] == LogRow(db0.logs[k].path, Expired, true)))
    ensures db.tasks.Keys <= db0.tasks.Keys && db.executions.Keys <= db0.executions.Keys
    ensures db.outbox.Keys <= db0.outbox.Keys && db.logs.Keys <= db0.logs.Keys
  {
  }

  /**
   Running it again after any interruption chooses exactly what is left, and a complete
   run from there ends where one uninterrupted run would have.
   */
  lemma RerunFinishes(db0: Db, files0: map<string, Bytes>, db: Db, files: map<string, Bytes>, gone: set<TaskId>,
                      cutoff: Option<int>, only: Option<set<TaskId>>)
    requires Progress(db0, files0, db, files, Chosen(db0, cutoff, only), gone) && OwnBodies(db0)
    ensures var chosen, left := Chosen(db0, cutoff, only), Chosen(db, cutoff, only);
      && (left == chosen - gone || (left == chosen && db == db0))
      && Without(db, left) == Without(db0, chosen)
      && files - PathsOf(db, left) == files0 - PathsOf(db0, chosen)
  {
    var chosen, left := Chosen(db0, cutoff, only), Chosen(db, cutoff, only);
    if db == Without(Marked(db0, chosen), gone) {
      assert chosen <= Chosen(db0, None, None);
      LeftToChoose(db0, db, chosen, gone, cutoff, only);
      RowsLeft(db0, chosen, gone);
      BodiesLeft(db0, db, files, chosen, gone);
    }
  }

  lemma RowsLeft(db0: Db, chosen: set<TaskId>, gone: set<TaskId>)
    requires gone <= chosen
    ensures Without(Without(Marked(db0, chosen), gone), chosen - gone) == Without(db0, chosen)
  {
    var db := Without(Marked(db0, chosen), gone);
    OthersUntouched(db0, chosen, gone);
    assert Without(db, chosen - gone).tasks == Without(db, chosen).tasks;
    assert Without(db, chosen - gone).logs == Without(db, chosen).logs;
    assert Without(db, chosen - gone).executions == Without(db, chosen).executions;
    assert Without(db, chosen - gone).outbox == Without(db, chosen).outbox;
  }

  /** What is still on disk of the chosen tasks belongs to those that are left. */
  lemma BodiesLeft(db0: Db, db: Db, files: map<string, Bytes>, chosen: set<TaskId>, gone: set<TaskId>)
    requires db == Without(Marked(db0, chosen), gone) && gone <= chosen
    requires forall p | p in PathsOf(db0, gone) :: p !in files
    ensures files - PathsOf(db, chosen - gone) == files - PathsOf(db0, chosen)
  {
    forall p | p in files
      ensures p in PathsOf(db, chosen - gone) <==> p in PathsOf(db0, chosen)
    {
      if p in PathsOf(db0, chosen) {
        var k :| k in db0.logs && k.task in chosen && db0.logs[k].path == p;
        assert k.task in gone ==> p in PathsOf(db0, gone);
        assert k in db.logs && db.logs[k].path == p;
      }
    }
  }

  /** A delete, wherever it stands, takes nothing off anyone's list but what it deleted. */
  lemma LeftToChoose(db0: Db, db: Db, chosen: set<TaskId>, gone: set<TaskId>, cutoff: Option<int>,
                     only: Option<set<TaskId>>)
    requires gone <= chosen <= Chosen(db0, None, None) && db == Without(Marked(db0, chosen), gone)
    ensures Chosen(db, cutoff, only) == Chosen(db0, cutoff, only) - gone
  {
    forall t
      ensures t in Chosen(db, cutoff, only) <==> t in Chosen(db0, cutoff, only) - gone
    {
      assert t in db.tasks <==> t in db0.tasks && t !in gone;
      if t in db.tasks && t !in chosen {
        SameSeals(db0, db, chosen, gone, t);
      }
      if t in chosen {
        assert t in Chosen(db0, None, None);
      }
    }
  }

  lemma SameSeals(db0: Db, db: Db, chosen: set<TaskId>, gone: set<TaskId>, t: TaskId)
    requires db == Without(Marked(db0, chosen), gone) && gone <= chosen && t !in chosen
    ensures Open(db, t) <==> Open(db0, t)
  {
    if Open(db0, t) {
      var k :| k in db0.logs && k.task == t && db0.logs[k].status in {Active, Finalizing};
      assert k in db.logs && db.logs[k] == db0.logs[k];
    }
    if Open(db, t) {
      var k :| k in db.logs && k.task == t && db.logs[k].status in {Active, Finalizing};
      assert k in db0.logs && db.logs[k] == db0.logs[k];
    }
  }

  // ------------------------------------------------------------- the sweep

  class Sweep {
    const dir: LogsDir
    const gauge: LogsDirGauge?
    var db: Db                // the committed rows

    constructor (dir: LogsDir, gauge: LogsDirGauge?, db: Db)
      requires gauge != null ==> gauge.dir == dir && gauge.Valid()
      requires Keyed(db) && OwnBodies(db) && Referenced(db, dir.files)
      ensures Valid() && this.dir == dir && this.gauge == gauge && this.db == db
    {
      this.dir, this.gauge, this.db := dir, gauge, db;
    }

    ghost predicate Valid()
      reads this, dir, if gauge != null then {gauge} else {}
    {
      Settled() && Keyed(db) && OwnBodies(db) && Referenced(db, dir.files)
    }

    ghost predicate Settled()
      reads this, dir, if gauge != null then {gauge} else {}
    {
      gauge != null ==> gauge.dir == dir && gauge.Valid()
    }

    /** Unlinks one body and settles the gauge; a missing body is success, unless the attempt raises. */
    method Unlink(path: string, stuck: bool, raising: bool) returns (ok: bool)
      requires Settled()
      modifies dir, if gauge != null then {gauge} else {}
      ensures Settled() && (gauge != null ==> gauge.calibrated == old(gauge.calibrated))
      ensures dir.files == if stuck || raising then old(dir.files) else old(dir.files) - {path}
      ensures ok == (!raising && path !in dir.files)
    {
      var removed := false;
      ghost var before := dir.files;
      if gauge != null {
        removed := gauge.Remove(path, stuck || raising);
      } else if !stuck && !raising && path in dir.files {
        dir.files := dir.files - {path};
        removed := true;
      }
      assert path !in before ==> before - {path} == before;
      ok := removed || (!raising && path !in dir.files);
    }

    /** Step 2: every body of the chosen tasks; returns the tasks that kept one. */
    method UnlinkAll(chosen: set<TaskId>, luck: Luck) returns (done: bool, failed: set<TaskId>)
      requires Settled()
      modifies dir, if gauge != null then {gauge} else {}
      ensures Settled() && (gauge != null ==> gauge.calibrated == old(gauge.calibrated))
      ensures done == (luck.crash == Never)
      ensures done ==> dir.files == old(dir.files) - Freed(db, chosen, luck)
      ensures done ==> forall p | p in PathsOf(db, chosen - failed) :: p !in dir.files
      ensures failed <= Unlucky(db, chosen, luck)
      ensures done ==> forall k | k in db.logs && k.task in chosen && k in luck.raising :: k.task in failed
      ensures dir.files - PathsOf(db, chosen) == old(dir.files) - PathsOf(db, chosen)
      ensures forall p | p in dir.files :: p in old(dir.files) && dir.files[p] == old(dir.files)[p]
    {
      var todo := set k | k in db.logs && k.task in chosen;
      ghost var over: set<LogKey> := {};
      var n := 0;
      failed := {};
      while todo != {}
        invariant Settled() && (gauge != null ==> gauge.calibrated == old(gauge.calibrated))
        invariant todo + over == set k | k in db.logs && k.task in chosen
        invariant dir.files == old(dir.files) - FreedBy(over, luck)
        invariant forall k | k in over :: db.logs[k].path !in dir.files || k.task in failed
        invariant forall k | k in over && k in luck.raising :: k.task in failed
        invariant failed <= Unlucky(db, chosen, luck)
        decreases todo
      {
        if luck.crash != Never && (luck.crash == AtOnce || luck.crash.unlinks <= n) {
          done := false;
          OthersKept(old(dir.files), dir.files, over, chosen, luck);
          return;
        }
        var k :| k in todo;
        ghost var before := dir.files;
        var ok := Unlink(db.logs[k].path, k in luck.stuck, k in luck.raising);
        OneFreed(over, k, luck);
        OneLess(old(dir.files), before, FreedBy(over, luck), db.logs[k].path);
        if !ok {
          failed := failed + {k.task};
        }
        todo, over, n := todo - {k}, over + {k}, n + 1;
      }
      assert over == set k | k in db.logs && k.task in chosen;
      assert FreedBy(over, luck) == Freed(db, chosen, luck);
      OthersKept(old(dir.files), dir.files, over, chosen, luck);
      done := luck.crash == Never;
    }

    /** The bodies of these rows, but for those that went wrong. */
    ghost function FreedBy(rows: set<LogKey>, luck: Luck): set<string>
      reads this
      requires forall k | k in rows :: k in db.logs
    {
      set k | k in rows && !Bad(luck, k) :: db.logs[k].path
    }

    lemma OneFreed(rows: set<LogKey>, k: LogKey, luck: Luck)
      requires (forall r | r in rows :: r in db.logs) && k in db.logs
      ensures FreedBy(rows + {k}, luck) == FreedBy(rows, luck) + if Bad(luck, k) then {} else {db.logs[k].path}
    {
      forall p
        ensures p in FreedBy(rows + {k}, luck) <==> p in FreedBy(rows, luck) || (!Bad(luck, k) && p == db.logs[k].path)
      {
        if !Bad(luck, k) && p == db.logs[k].path {
          assert k in rows + {k};
        }
        if p in FreedBy(rows, luck) {
          var r :| r in rows && !Bad(luck, r) && db.logs[r].path == p;
          assert r in rows + {k};
        }
      }
    }

    lemma OneLess(start: map<string, Bytes>, before: map<string, Bytes>, freed: set<string>, path: string)
      requires before == start - freed
      ensures before - {path} == start - (freed + {path}) && before - {} == start - (freed + {})
    {
    }

    lemma OthersKept(start: map<string, Bytes>, files: map<string, Bytes>, rows: set<LogKey>, chosen: set<TaskId>,
                     luck: Luck)
      requires (forall k | k in rows :: k in db.logs && k.task in chosen) && files == start - FreedBy(rows, luck)
      ensures files - PathsOf(db, chosen) == start - PathsOf(db, chosen)
      ensures forall p | p in files :: p in start && files[p] == start[p]
    {
      assert FreedBy(rows, luck) <= PathsOf(db, chosen);
    }

    /**
     Step 3, children first: each statement deletes from one table, and none leaves an
     execution without its task.
     */
    method DeleteRows(gone: set<TaskId>) returns (ghost trail: seq<Db>)
      requires Keyed(db)
      modifies this`db
      ensures db == Without(old(db), gone)
      ensures trail != [] && trail[0] == old(db) && trail[|trail|-1] == db
      ensures forall i | 0 <= i < |trail| :: Keyed(trail[i])
      ensures forall i | 0 < i < |trail| :: OneTable(trail[i-1], trail[i])
    {
      var tx := db;
      trail := [tx];
      tx := tx.(logs := map k | k in tx.logs && k.task !in gone :: tx.logs[k]);
      trail := trail + [tx];
      tx := tx.(executions := map e | e in tx.executions && tx.executions[e] !in gone :: tx.executions[e]);
      trail := trail + [tx];
      tx := tx.(outbox := map c | c in tx.outbox && tx.outbox[c] !in gone :: tx.outbox[c]);
      trail := trail + [tx];
      tx := tx.(tasks := map t | t in tx.tasks && t !in gone :: tx.tasks[t]);
      trail := trail + [tx];
      db := tx;
    }

    /**
     The two-phase delete.  It may stop before or after any commit or unlink; wherever
     it stops it has made progress towards the one final state, and nothing else.
     */
    method Cleanup(cutoff: Option<int>, only: Option<set<TaskId>>, luck: Luck)
      returns (done: bool, deleted: set<TaskId>)
      requires Valid()
      modifies this`db, dir, if gauge != null then {gauge} else {}
      ensures Valid() && (gauge != null ==> gauge.calibrated == old(gauge.calibrated))
      ensures Progress(old(db), old(dir.files), db, dir.files, Chosen(old(db), cutoff, only), deleted)
      ensures done == (luck.crash == Never || Chosen(old(db), cutoff, only) == {})
      ensures var chosen := Chosen(old(db), cutoff, only);
        done ==>
          && chosen - Unlucky(old(db), chosen, luck) <= deleted
          && dir.files == old(dir.files) - Freed(old(db), chosen, luck)
      ensures deleted != {} ==> done && db == Without(Marked(old(db), Chosen(old(db), cutoff, only)), deleted)
      ensures Chosen(old(db), cutoff, only) == {} ==> db == old(db) && dir.files == old(dir.files)
      ensures db.tasks.Keys == old(db).tasks.Keys - deleted
      // Nothing goes that may not go ...
      ensures forall t | t in old(db).tasks && t !in db.tasks ::
        MayGo(old(db), t, cutoff) && !Spared(t, only)
      // ... and with no crash and no bad unlink all that may go is gone.
      ensures luck.crash == Never && (forall k | k in old(db).logs :: !Bad(luck, k)) ==>
        forall t | t in old(db).tasks && MayGo(old(db), t, cutoff) :: t !in db.tasks || Spared(t, only)
    {
      ChosenMayGo(db, cutoff, only);
      var chosen := Chosen(db, cutoff, only);
      ghost var db0, files0 := db, dir.files;
      deleted := {};
      if chosen == {} || luck.crash == AtOnce {
        assert chosen == {} ==> Freed(db, chosen, luck) == {};
        return chosen == {}, {};
      }
      MarkExpired(chosen);
      var failed;
      done, failed := UnlinkAll(chosen, luck);
      SamePaths(db0, chosen, failed, luck);
      CrashKeepsReferences(db0, files0, db, dir.files, chosen, {});
      if !done {
        return;
      }
      var _ := DeleteRows(chosen - failed);
      deleted := chosen - failed;
      CrashKeepsReferences(db0, files0, db, dir.files, chosen, deleted);
    }

    /** Marking moves no body. */
    lemma SamePaths(db0: Db, chosen: set<TaskId>, failed: set<TaskId>, luck: Luck)
      ensures var db := Marked(db0, chosen);
        && PathsOf(db, chosen) == PathsOf(db0, chosen) && PathsOf(db, chosen - failed) == PathsOf(db0, chosen - failed)
        && PathsOf(db0, {}) == {} && Freed(db, chosen, luck) == Freed(db0, chosen, luck)
        && Unlucky(db, chosen, luck) == Unlucky(db0, chosen, luck)
    {
      var db := Marked(db0, chosen);
      assert db.logs.Keys == db0.logs.Keys;
      assert forall k | k in db0.logs :: db.logs[k].path == db0.logs[k].path;
    }

    /** Step 1: the audit fact first. */
    method MarkExpired(chosen: set<TaskId>)
      modifies this`db
      ensures db == Marked(old(db), chosen) == Without(Marked(old(db), chosen), {})
    {
      db := Marked(db, chosen);
      assert Without(db, {}) == db;
    }

    /**
     Any number of attempts, interrupted anywhere: all aim at one final state, and the
     first without a crash or a refused unlink is there, for good.
     */
    method Retry(cutoff: Option<int>, only: Option<set<TaskId>>, luck: seq<Luck>)
      requires Valid()
      modifies this`db, dir, if gauge != null then {gauge} else {}
      ensures Valid() && SameAim(old(db), old(dir.files), db, dir.files, cutoff, only)
      ensures (exists l | l in luck :: Harmless(old(db), Chosen(old(db), cutoff, only), l))
        ==> Finished(old(db), old(dir.files), db, dir.files, Chosen(old(db), cutoff, only))
    {
      ghost var chosen := Chosen(db, cutoff, only);
      for i := 0 to |luck|
        invariant Valid() && SameAim(old(db), old(dir.files), db, dir.files, cutoff, only)
        invariant Chosen(db, cutoff, only) <= chosen && db.logs.Keys <= old(db).logs.Keys
        invariant (exists l | l in luck[..i] :: Harmless(old(db), chosen, l))
          ==> Finished(old(db), old(dir.files), db, dir.files, chosen)
      {
        ghost var was, files := db, dir.files;
        assert luck[..i+1] == luck[..i] + [luck[i]];
        Attempt(cutoff, only, luck[i]);
        if Finished(old(db), old(dir.files), was, files, chosen) {
          NothingLeft(old(db), cutoff, only);
        } else if Harmless(old(db), chosen, luck[i]) {
          LessLuckNeeded(old(db), was, chosen, Chosen(was, cutoff, only), luck[i]);
          AimReached(old(db), old(dir.files), was, files, db, dir.files, cutoff, only);
        }
      }
      assert luck[..|luck|] == luck;
    }

    method Attempt(cutoff: Option<int>, only: Option<set<TaskId>>, luck: Luck)
      requires Valid()
      modifies this`db, dir, if gauge != null then {gauge} else {}
      ensures Valid() && SameAim(old(db), old(dir.files), db, dir.files, cutoff, only)
      ensures Chosen(db, cutoff, only) <= Chosen(old(db), cutoff, only) && db.logs.Keys <= old(db).logs.Keys
      ensures Harmless(old(db), Chosen(old(db), cutoff, only), luck)
        ==> Finished(old(db), old(dir.files), db, dir.files, Chosen(old(db), cutoff, only))
      ensures Chosen(old(db), cutoff, only) == {} ==> db == old(db) && dir.files == old(dir.files)
    {
      var done, deleted := Cleanup(cutoff, only, luck);
      RerunFinishes(old(db), old(dir.files), db, dir.files, deleted, cutoff, only);
      ghost var chosen := Chosen(old(db), cutoff, only);
      if Harmless(old(db), chosen, luck) {
        assert deleted == chosen;
        CleanIsFinal(old(db), old(dir.files), db, dir.files, deleted);
      }
    }

    /** The oldest task that could be deleted now and was not skipped in this pass. */
    method NextVictim(skipped: set<TaskId>) returns (victim: Option<TaskId>)
      ensures victim == None <==> Chosen(db, None, None) <= skipped
      ensures victim.Some? ==> victim.value in Chosen(db, None, None) - skipped
      ensures victim.Some? ==>
        forall t | t in Chosen(db, None, None) - skipped :: !Older(db.tasks[t], db.tasks[victim.value])
    {
      var todo := Chosen(db, None, None) - skipped;
      victim := None;
      ghost var seen := {};
      while todo != {}
        invariant todo + seen == Chosen(db, None, None) - skipped
        invariant victim == None <==> seen == {}
        invariant victim.Some? ==> victim.value in seen
        invariant victim.Some? ==> forall t | t in seen :: !Older(db.tasks[t], db.tasks[victim.value])
        decreases todo
      {
        var t :| t in todo;
        if victim == None || Older(db.tasks[t], db.tasks[victim.value]) {
          victim := Some(t);
        }
        todo, seen := todo - {t}, seen + {t};
      }
      assert seen == Chosen(db, None, None) - skipped;
      assert forall t | t in Chosen(db, None, None) :: t in skipped || t in seen;
    }

    /** One victim's delete: it goes, or it stays and nothing but its marks changes. */
    method EvictOne(victim: TaskId, now: int, luck: Luck) returns (done: bool, evicted: bool)
      requires Valid() && victim in Chosen(db, None, None)
      modifies this`db, dir, if gauge != null then {gauge} else {}
      ensures Valid() && (gauge != null ==> gauge.calibrated == old(gauge.calibrated))
      ensures (evicted ==> done) && (luck.crash == Never ==> done)
      ensures done && !evicted ==> Excused(old(db), victim, now, luck)
      ensures Chosen(db, None, None) == Chosen(old(db), None, None) - (if evicted then {victim} else {})
      ensures forall t | t in db.tasks :: t in old(db).tasks && db.tasks[t] == old(db).tasks[t]
      ensures Without(db, {victim}) == Without(old(db), {victim}) && db.logs.Keys <= old(db).logs.Keys
      ensures db.tasks.Keys == old(db).tasks.Keys - (if evicted then {victim} else {})
      ensures evicted ==> OldEnough(old(db).tasks[victim], Some(now))
    {
      ghost var chosen := Chosen(db, Some(now), Some({victim}));
      var deleted;
      done, deleted := Cleanup(Some(now), Some({victim}), luck);
      assert chosen <= {victim};
      evicted := deleted != {};
      if db == Without(Marked(old(db), chosen), deleted) {
        LeftToChoose(old(db), db, chosen, deleted, None, None);
        WithoutMore(old(db), db, chosen, deleted, {victim});
      }
      if done && !evicted && OldEnough(old(db).tasks[victim], Some(now)) {
        assert victim in chosen;
        assert victim in Unlucky(old(db), chosen, luck);
      }
    }

    lemma WithoutMore(db0: Db, db: Db, chosen: set<TaskId>, gone: set<TaskId>, more: set<TaskId>)
      requires gone <= chosen <= more && db == Without(Marked(db0, chosen), gone)
      ensures Without(db, more) == Without(db0, more)
    {
      assert Without(db, more).logs == Without(db0, more).logs;
      assert Without(db, more).tasks == Without(db0, more).tasks;
    }

    /**
     Evicts the oldest sealed tasks until the directory fits its budget.  It reports
     recovery exactly when it fits, never gives up before every candidate was tried,
     deletes every candidate it tries unless an unlink of it goes wrong, and never
     deletes a task while leaving an older one it did not have to skip.
     */
    method Evict(budget: nat, now: int, maxVictims: nat, luck: seq<Luck>)
      returns (done: bool, gone: set<TaskId>, skipped: set<TaskId>, attempts: nat, recovered: bool)
      requires Valid()
      modifies this`db, dir, if gauge != null then {gauge} else {}
      ensures Valid() && attempts <= maxVictims
      ensures (forall l | l in luck :: l.crash == Never) ==> done
      ensures done && budget > 0 && gauge != null ==>
        && (recovered <==> Total(dir.files) <= budget)
        && (recovered || attempts == maxVictims || Chosen(db, None, None) <= skipped)
      ensures done ==> |gone| + |skipped| == attempts
      ensures forall t | t in skipped :: t in old(db).tasks && SomeExcuse(old(db), t, now, luck)
      ensures Chosen(db, None, None) == Chosen(old(db), None, None) - gone
      ensures done ==> db.tasks.Keys == old(db).tasks.Keys - gone
      ensures forall t | t in old(db).tasks && t !in db.tasks :: MayGo(old(db), t, Some(now))
      ensures OldestGone(old(db), gone, Chosen(db, None, None) - skipped)
    {
      done, gone, skipped, attempts, recovered := true, {}, {}, 0, true;
      if budget == 0 || gauge == null {
        return;
      }
      gauge.Calibrate();
      while gauge.value > budget && attempts < maxVictims
        invariant Valid() && gauge.calibrated && attempts <= maxVictims && recovered && done
        invariant Evicting(old(db), db, gone, skipped, attempts, now, luck)
        decreases maxVictims - attempts
      {
        var victim := NextVictim(skipped);
        if victim == None {
          recovered := false;
          break;
        }
        done, gone, skipped := EvictNext(victim.value, now, gone, skipped, attempts, luck, old(db));
        attempts := attempts + 1;
        if !done {
          return;
        }
      }
      if gauge.value > budget && attempts >= maxVictims {
        recovered := false;
      }
    }

    /** One round of the eviction: the victim goes, or is skipped with an excuse. */
    method EvictNext(victim: TaskId, now: int, gone: set<TaskId>, skipped: set<TaskId>, attempts: nat,
                     luck: seq<Luck>, ghost db0: Db)
      returns (done: bool, goneNow: set<TaskId>, skippedNow: set<TaskId>)
      requires Valid() && Evicting(db0, db, gone, skipped, attempts, now, luck)
      requires victim in Chosen(db, None, None) - skipped
      requires forall t | t in Chosen(db, None, None) - skipped :: !Older(db.tasks[t], db.tasks[victim])
      modifies this`db, dir, if gauge != null then {gauge} else {}
      ensures Valid() && (gauge != null ==> gauge.calibrated == old(gauge.calibrated))
      ensures (forall l | l in luck :: l.crash == Never) ==> done
      ensures if done then Evicting(db0, db, goneNow, skippedNow, attempts + 1, now, luck)
              else goneNow == gone && skippedNow == skipped && Evicting(db0, db, gone, skipped, attempts, now, luck)
    {
      ghost var was := db;
      var l := if attempts < |luck| then luck[attempts] else CALM;
      var evicted;
      done, evicted := EvictOne(victim, now, l);
      goneNow, skippedNow := gone, skipped;
      if evicted {
        Went(db0, was, db, gone, skipped, victim, attempts, now, luck);
        goneNow := gone + {victim};
      } else if done {
        ExcuseStands(db0, was, victim, now, l, luck);
        Stayed(db0, was, db, gone, skipped, victim, attempts, now, luck);
        skippedNow := skipped + {victim};
      }
    }

    lemma ExcuseStands(db0: Db, db: Db, t: TaskId, now: int, l: Luck, luck: seq<Luck>)
      requires t in db0.tasks && t in db.tasks && db.tasks[t] == db0.tasks[t] && db.logs.Keys <= db0.logs.Keys
      requires Excused(db, t, now, l) && (l == CALM || l in luck)
      ensures SomeExcuse(db0, t, now, luck)
    {
      if OldEnough(db.tasks[t], Some(now)) {
        var k :| k in db.logs && k.task == t && Bad(l, k);
        assert k in db0.logs;
      }
    }
  }

  /** No task that is left is older than one that is gone. */
  ghost predicate OldestGone(db: Db, gone: set<TaskId>, left: set<TaskId>) {
    && gone <= db.tasks.Keys && left <= db.tasks.Keys
    && forall d, r | d in gone && r in left :: NotBefore(db.tasks[r], db.tasks[d])
  }

  /** It ended later, or at the same time and was created no earlier; a task with no end time comes first. */
  ghost predicate NotBefore(later: Task, task: Task) {
    match task.finished
    case None => later.finished.Some? || later.created >= task.created
    case Some(end) =>
      && later.finished.Some?
      && (later.finished.value > end || (later.finished.value == end && later.created >= task.created))
  }

  /** Why a victim may stay: an unlink of it went wrong, or it ended too late. */
  predicate Excused(db: Db, t: TaskId, now: int, luck: Luck)
    requires t in db.tasks
  {
    t in Unlucky(db, {t}, luck) || !OldEnough(db.tasks[t], Some(now))
  }

  ghost predicate SomeExcuse(db: Db, t: TaskId, now: int, luck: seq<Luck>)
    requires t in db.tasks
  {
    !OldEnough(db.tasks[t], Some(now)) || exists l | l in luck :: t in Unlucky(db, {t}, l)
  }

  /** What the eviction loop keeps. */
  ghost predicate Evicting(db0: Db, db: Db, gone: set<TaskId>, skipped: set<TaskId>, attempts: nat, now: int,
                           luck: seq<Luck>) {
    && SameTasks(db0, db)
    && Chosen(db, None, None) == Chosen(db0, None, None) - gone
    && gone <= Chosen(db0, None, None) && gone !! skipped && |gone| + |skipped| == attempts
    && db.tasks.Keys == db0.tasks.Keys - gone && AllOld(db0, gone, now)
    && (forall t | t in skipped :: t in db0.tasks && SomeExcuse(db0, t, now, luck))
    && OldestGone(db0, gone, Chosen(db, None, None) - skipped)
  }

  ghost predicate AllOld(db: Db, tasks: set<TaskId>, now: int) {
    forall t | t in tasks :: t in db.tasks && OldEnough(db.tasks[t], Some(now))
  }

  ghost predicate SameTasks(db0: Db, db: Db) {
    db.logs.Keys <= db0.logs.Keys && forall t | t in db.tasks :: t in db0.tasks && db.tasks[t] == db0.tasks[t]
  }

  /** The oldest candidate went. */
  lemma Went(db0: Db, was: Db, db: Db, gone: set<TaskId>, skipped: set<TaskId>, victim: TaskId, attempts: nat,
             now: int, luck: seq<Luck>)
    requires Evicting(db0, was, gone, skipped, attempts, now, luck) && SameTasks(was, db)
    requires victim in Chosen(was, None, None) - skipped && Chosen(db, None, None) == Chosen(was, None, None) - {victim}
    requires forall t | t in Chosen(was, None, None) - skipped :: !Older(was.tasks[t], was.tasks[victim])
    requires db.tasks.Keys == was.tasks.Keys - {victim} && OldEnough(was.tasks[victim], Some(now))
    ensures Evicting(db0, db, gone + {victim}, skipped, attempts + 1, now, luck)
  {
  }

  /** The candidate stayed. */
  lemma Stayed(db0: Db, was: Db, db: Db, gone: set<TaskId>, skipped: set<TaskId>, victim: TaskId, attempts: nat,
               now: int, luck: seq<Luck>)
    requires Evicting(db0, was, gone, skipped, attempts, now, luck) && SameTasks(was, db)
    requires victim in Chosen(was, None, None) - skipped && Chosen(db, None, None) == Chosen(was, None, None)
    requires victim in db0.tasks && SomeExcuse(db0, victim, now, luck) && db.tasks.Keys == was.tasks.Keys
    ensures Evicting(db0, db, gone, skipped + {victim}, attempts + 1, now, luck)
  {
  }

  /** At least three tables are as they were. */
  predicate OneTable(a: Db, b: Db) {
    || b == a.(logs := b.logs) || b == a.(executions := b.executions)
    || b == a.(outbox := b.outbox) || b == a.(tasks := b.tasks)
  }

  /** Unfinished first, then by finish, then by creation. */
  predicate Older(a: Task, b: Task) {
    if a.finished == None then b.finished.Some? || a.created < b.created
    else if b.finished == None then false
    else if a.finished == b.finished then a.created < b.created
    else a.finished.value < b.finished.value
  }

  /** Without the chosen tasks and their bodies, and otherwise unchanged. */
  ghost predicate Finished(db0: Db, files0: map<string, Bytes>, db: Db, files: map<string, Bytes>,
                           chosen: set<TaskId>) {
    db == Without(db0, chosen) && files == files0 - PathsOf(db0, chosen)
  }

  lemma CleanIsFinal(db0: Db, files0: map<string, Bytes>, db: Db, files: map<string, Bytes>, chosen: set<TaskId>)
    requires Progress(db0, files0, db, files, chosen, chosen)
    requires chosen == {} ==> db == db0
    requires chosen != {} ==> db == Without(Marked(db0, chosen), chosen)
    ensures Finished(db0, files0, db, files, chosen)
  {
    assert files == files - PathsOf(db0, chosen);
    if chosen == {} {
      assert db == Without(db0, {});
    } else {
      assert db.logs == Without(db0, chosen).logs;
      assert db.tasks == Without(db0, chosen).tasks;
    }
  }

  /** A finished delete has nothing left to choose. */
  lemma NothingLeft(db0: Db, cutoff: Option<int>, only: Option<set<TaskId>>)
    ensures Chosen(Without(db0, Chosen(db0, cutoff, only)), cutoff, only) == {}
  {
    var chosen := Chosen(db0, cutoff, only);
    var db := Without(db0, chosen);
    forall t | t in db.tasks
      ensures t !in Chosen(db, cutoff, only)
    {
      StillOpen(db0, chosen, t);
    }
  }

  lemma StillOpen(db0: Db, gone: set<TaskId>, t: TaskId)
    requires t !in gone
    ensures Open(db0, t) ==> Open(Without(db0, gone), t)
  {
    if Open(db0, t) {
      var k :| k in db0.logs && k.task == t && db0.logs[k].status in {Active, Finalizing};
      assert k in Without(db0, gone).logs;
    }
  }

  lemma LessLuckNeeded(db0: Db, db: Db, chosen: set<TaskId>, left: set<TaskId>, luck: Luck)
    requires Harmless(db0, chosen, luck) && left <= chosen && db.logs.Keys <= db0.logs.Keys
    ensures Harmless(db, left, luck)
  {
    assert Unlucky(db, left, luck) <= Unlucky(db0, chosen, luck);
  }

  /** An attempt that finishes from a state with the same aim finishes the first one's delete. */
  lemma AimReached(db0: Db, files0: map<string, Bytes>, db1: Db, files1: map<string, Bytes>, db: Db,
                   files: map<string, Bytes>,
                   cutoff: Option<int>, only: Option<set<TaskId>>)
    requires SameAim(db0, files0, db1, files1, cutoff, only)
    requires Finished(db1, files1, db, files, Chosen(db1, cutoff, only))
    ensures Finished(db0, files0, db, files, Chosen(db0, cutoff, only))
  {
  }

  ghost predicate SameAim(db0: Db, files0: map<string, Bytes>, db: Db, files: map<string, Bytes>, cutoff: Option<int>,
                          only: Option<set<TaskId>>) {
    var chosen, left := Chosen(db0, cutoff, only), Chosen(db, cutoff, only);
    && Without(db, left) == Without(db0, chosen)
    && files - PathsOf(db, left) == files0 - PathsOf(db0, chosen)
  }
}
