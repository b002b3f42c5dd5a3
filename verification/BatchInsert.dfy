/**
 Inserting a list of rows inside one PostgreSQL transaction: begin, insert each row, commit; on any
 failure roll back and rethrow, and let the transaction's destructor try the rollback once more.
 */
module BatchInsert {
  import opened Wrappers

  type Row = string

  /** Where the session stands on the server. `Broken`: the connection is gone. */
  datatype Txn = Idle | Open(rows: seq<Row>) | Aborted | Broken

  /** `ended` counts the COMMIT and ROLLBACK commands that succeeded, `issued` all commands. */
  datatype Database = Database(committed: seq<Row>, txn: Txn, issued: nat, ended: nat)

  datatype Command = Begin | Insert(row: Row) | Commit | Rollback

  /** The fate of a command: done, failed before it left the client, refused by the server, connection lost. */
  datatype Reply = Accepted | Unsent | Refused | Lost

  /** The fate of every command the connection will ever issue. */
  type Replies = nat -> Reply

  datatype Executed = Executed(db: Database, ok: bool)

  datatype BatchError = BeginFailed | InsertFailed | CommitFailed | RollbackFailed

  /**
   The server's rules: BEGIN inside a transaction only warns, a failed command aborts the transaction,
   an aborted transaction refuses everything but its end (COMMIT then succeeds as a rollback), an
   INSERT outside a transaction is durable at once, and a COMMIT that fails commits nothing.
   */
  function Execute(replies: Replies, before: Database, c: Command): Executed {
    var db, reply := before.(issued := before.issued + 1), replies(before.issued);
    if db.txn.Broken? || reply.Lost? then Executed(db.(txn := Broken), false)
    else if reply.Unsent? then Executed(db, false)
    else match c
      case Begin =>
        if reply.Refused? || db.txn.Aborted? then Executed(db.(txn := AfterFailure(db.txn)), false)
        else Executed(db.(txn := if db.txn.Idle? then Open([]) else db.txn), true)
      case Insert(row) =>
        if reply.Refused? || db.txn.Aborted? then Executed(db.(txn := AfterFailure(db.txn)), false)
        else if db.txn.Idle? then Executed(db.(committed := db.committed + [row]), true)
        else Executed(db.(txn := Open(db.txn.rows + [row])), true)
      case Commit =>
        if reply.Refused? then Executed(db.(txn := Idle), false)
        else Executed(db.(committed := db.committed + Pending(db), txn := Idle, ended := db.ended + 1), true)
      case Rollback =>
        if reply.Refused? then Executed(db, false)
        else Executed(db.(txn := Idle, ended := db.ended + 1), true)
  }

  function AfterFailure(txn: Txn): Txn {
    if txn.Open? then Aborted else txn
  }

  /** Rows inserted and not yet durable. */
  function Pending(db: Database): seq<Row> {
    if db.txn.Open? then db.txn.rows else []
  }

  class Connection {
    const replies: Replies
    var db: Database

    constructor (replies: Replies, db: Database)
      ensures this.replies == replies && this.db == db
    {
      this.replies := replies;
      this.db := db;
    }

    method Exec(c: Command) returns (ok: bool)
      modifies this
      ensures Executed(db, ok) == Execute(replies, old(db), c)
    {
      var executed := Execute(replies, db, c);
      db := executed.db;
      ok := executed.ok;
    }
  }

  datatype TransactionError = NotActive | CommandFailed

  class PgTransaction {
    const conn: Connection
    var active: bool

    constructor (conn: Connection)
      ensures this.conn == conn && active
    {
      this.conn := conn;
      active := true;
    }

    method Commit() returns (r: Result<(), TransactionError>)
      modifies this, conn
      ensures !old(active) ==> r == Err(NotActive) && conn.db == old(conn.db) && !active
      ensures old(active) ==> Executed(conn.db, r.Ok?) == Execute(conn.replies, old(conn.db), Command.Commit)
      ensures old(active) ==> active == !r.Ok?
    {
      if !active { return Err(NotActive); }
      var ok := conn.Exec(Command.Commit);
      if !ok { return Err(CommandFailed); }
      active := false;
      return Ok(());
    }

    method Rollback() returns (r: Result<(), TransactionError>)
      modifies this, conn
      ensures !old(active) ==> r == Err(NotActive) && conn.db == old(conn.db) && !active
      ensures old(active) ==> Executed(conn.db, r.Ok?) == Execute(conn.replies, old(conn.db), Command.Rollback)
      ensures old(active) ==> active == !r.Ok?
    {
      if !active { return Err(NotActive); }
      var ok := conn.Exec(Command.Rollback);
      if !ok { return Err(CommandFailed); }
      active := false;
      return Ok(());
    }

    /** The destructor: an unfinished transaction is rolled back and any error swallowed. */
    method Destroy()
      modifies this, conn
      ensures conn.db == if old(active) then Execute(conn.replies, old(conn.db), Command.Rollback).db else old(conn.db)
    {
      if active {
        var _ := Rollback();
      }
    }
  }

  method BeginTransaction(conn: Connection) returns (r: Result<PgTransaction, BatchError>)
    modifies conn
    ensures Executed(conn.db, r.Ok?) == Execute(conn.replies, old(conn.db), Begin)
    ensures r.Ok? ==> fresh(r.value) && r.value.conn == conn && r.value.active
    ensures r.Err? ==> r.error == BeginFailed
  {
    var ok := conn.Exec(Begin);
    if !ok { return Err(BeginFailed); }
    var txn := new PgTransaction(conn);
    return Ok(txn);
  }

  /** The insertions up to the first that fails. */
  function Inserts(replies: Replies, db: Database, rows: seq<Row>): Executed {
    if rows == [] then Executed(db, true)
    else
      var before := Inserts(replies, db, rows[..|rows| - 1]);
      if before.ok then Execute(replies, before.db, Insert(rows[|rows| - 1])) else before
  }

  lemma {:induction false} InsertsStop(replies: Replies, db: Database, rows: seq<Row>, k: nat)
    requires k <= |rows| && !Inserts(replies, db, rows[..k]).ok
    ensures Inserts(replies, db, rows) == Inserts(replies, db, rows[..k])
  {
    if k < |rows| {
      assert rows[..|rows| - 1][..k] == rows[..k];
      InsertsStop(replies, db, rows[..|rows| - 1], k);
    } else {
      assert rows[..k] == rows;
    }
  }

  datatype BatchResult = BatchResult(db: Database, outcome: Result<(), BatchError>)

  /** Rollback in the handler and, when that fails too, once more in the destructor. */
  function Recover(replies: Replies, db: Database, error: BatchError): BatchResult {
    var first := Execute(replies, db, Rollback);
    if first.ok then BatchResult(first.db, Err(error))
    else BatchResult(Execute(replies, first.db, Rollback).db, Err(RollbackFailed))
  }

  function Batch(replies: Replies, db: Database, rows: seq<Row>): BatchResult {
    var begun := Execute(replies, db, Begin);
    var inserted := Inserts(replies, begun.db, rows);
    var committed := Execute(replies, inserted.db, Commit);
    if !begun.ok then BatchResult(begun.db, Err(BeginFailed))
    else if !inserted.ok then Recover(replies, inserted.db, InsertFailed)
    else if !committed.ok then Recover(replies, committed.db, CommitFailed)
    else BatchResult(committed.db, Ok(()))
  }

  /** The handler and the unwinding that follows it. */
  method RollbackAndRethrow(txn: PgTransaction, error: BatchError) returns (thrown: BatchError)
    requires txn.active
    modifies txn, txn.conn
    ensures BatchResult(txn.conn.db, Err(thrown)) == Recover(txn.conn.replies, old(txn.conn.db), error)
  {
    thrown := error;
    var undone := txn.Rollback();
    if undone.Err? { thrown := RollbackFailed; }
    txn.Destroy();
  }

  method InsertBatch(conn: Connection, list: seq<Row>) returns (outcome: Result<(), BatchError>)
    modifies conn
    ensures BatchResult(conn.db, outcome) == Batch(conn.replies, old(conn.db), list)
  {
    var begun := BeginTransaction(conn);
    if begun.Err? { return Err(begun.error); }
    var txn := begun.value;
    ghost var start := conn.db;
    for i := 0 to |list|
      invariant txn.active && txn.conn == conn
      invariant Inserts(conn.replies, start, list[..i]) == Executed(conn.db, true)
    {
      assert list[..i + 1][..i] == list[..i];
      var ok := conn.Exec(Insert(list[i]));
      if !ok {
        InsertsStop(conn.replies, start, list, i + 1);
        var thrown := RollbackAndRethrow(txn, InsertFailed);
        return Err(thrown);
      }
    }
    assert list[..|list|] == list;
    var done := txn.Commit();
    if done.Err? {
      var thrown := RollbackAndRethrow(txn, CommitFailed);
      return Err(thrown);
    }
    txn.Destroy();
    return Ok(());
  }

  // ---- one batch ------------------------------------------------------------------------------

  lemma {:induction false} InsertsStayPending(replies: Replies, db: Database, rows: seq<Row>)
    requires db.txn.Open?
    ensures var r := Inserts(replies, db, rows);
            && r.db.committed == db.committed && r.db.ended == db.ended && !r.db.txn.Idle?
            && Pending(r.db) <= Pending(db) + rows
            && (r.ok ==> r.db.txn == Open(Pending(db) + rows))
  {
    if rows == [] {
      assert Pending(db) + rows == Pending(db);
    } else {
      var init, row := rows[..|rows| - 1], rows[|rows| - 1];
      InsertsStayPending(replies, db, init);
      assert Pending(db) + rows == Pending(db) + init + [row];
    }
  }

  /**
   All or nothing: durable rows grow by the whole list in order (after whatever an enclosing
   transaction had pending) when the call returns normally and not at all when it throws; at most
   one COMMIT or ROLLBACK succeeds, and a transaction is left open only by a failed rollback.
   */
  lemma AllOrNothing(replies: Replies, db: Database, rows: seq<Row>)
    ensures var r := Batch(replies, db, rows);
            && r.db.committed == db.committed + (if r.outcome.Ok? then Pending(db) + rows else [])
            && db.ended <= r.db.ended <= db.ended + 1
            && (r.outcome.Ok? ==> r.db.txn.Idle? && r.db.ended == db.ended + 1)
            && (r.db.txn.Open? ==>
                  || r.outcome == Err(RollbackFailed)
                  || (r.outcome == Err(BeginFailed) && r.db.txn == db.txn))
            && (r.outcome.Err? ==> Pending(r.db) <= Pending(db) + rows)
  {
    var begun := Execute(replies, db, Begin);
    assert db.committed + [] == db.committed;
    if begun.ok {
      InsertsStayPending(replies, begun.db, rows);
      assert Pending(begun.db) == Pending(db);
      var inserted := Inserts(replies, begun.db, rows);
      if inserted.ok {
        CommitAnswers(replies, inserted.db, Pending(db) + rows);
      } else {
        RecoverUndoes(replies, inserted.db, InsertFailed);
      }
    }
  }

  /** No rollback makes anything durable, and only a failed one leaves the transaction open. */
  lemma RecoverUndoes(replies: Replies, db: Database, error: BatchError)
    ensures var r := Recover(replies, db, error);
            && r.outcome.Err? && r.db.committed == db.committed && db.ended <= r.db.ended <= db.ended + 1
            && (r.db.txn.Open? ==> r.outcome == Err(RollbackFailed) && r.db.txn == db.txn)
  {
  }

  lemma CommitAnswers(replies: Replies, db: Database, rows: seq<Row>)
    requires db.txn == Open(rows)
    ensures var done := Execute(replies, db, Commit);
            if done.ok then done.db.committed == db.committed + rows && done.db.txn.Idle? && done.db.ended == db.ended + 1
            else
              var r := Recover(replies, done.db, CommitFailed);
              && r.outcome.Err? && r.db.committed == db.committed && db.ended <= r.db.ended <= db.ended + 1
              && (r.db.txn.Open? ==> r.outcome == Err(RollbackFailed) && r.db.txn == db.txn)
  {
    RecoverUndoes(replies, Execute(replies, db, Commit).db, CommitFailed);
  }

  // ---- which error escapes --------------------------------------------------------------------

  /** The first `n` commands from here on succeed. */
  ghost predicate AllAccepted(replies: Replies, from: nat, n: nat) {
    forall i: nat :: from <= i < from + n ==> replies(i).Accepted?
  }

  lemma {:induction false} InsertsAccepted(replies: Replies, db: Database, rows: seq<Row>)
    requires db.txn.Open? && AllAccepted(replies, db.issued, |rows|)
    ensures var r := Inserts(replies, db, rows); r.ok && r.db.txn.Open? && r.db.issued == db.issued + |rows|
  {
    if rows != [] { InsertsAccepted(replies, db, rows[..|rows| - 1]); }
  }

  lemma InsertsFailAt(replies: Replies, db: Database, rows: seq<Row>, k: nat)
    requires db.txn.Open? && k < |rows| && AllAccepted(replies, db.issued, k) && !replies(db.issued + k).Accepted?
    ensures var r := Inserts(replies, db, rows);
            !r.ok && r.db.issued == db.issued + k + 1 && (r.db.txn.Broken? <==> replies(db.issued + k).Lost?)
  {
    InsertsAccepted(replies, db, rows[..k]);
    assert rows[..k + 1][..k] == rows[..k];
    InsertsStop(replies, db, rows, k + 1);
  }

  /** The error of the command that failed, unless the rollback that follows fails: then that one's. */
  lemma RecoverAnswers(replies: Replies, db: Database, error: BatchError)
    ensures var r, undone := Recover(replies, db, error), !db.txn.Broken? && replies(db.issued).Accepted?;
            && r.outcome == Err(if undone then error else RollbackFailed)
            && r.db.issued == db.issued + if undone then 1 else 2
  {
  }

  /**
   The first command that fails decides which error the caller sees and how many commands are sent:
   `f` is its place, where 0 is BEGIN, the insertions follow, and COMMIT is the last.
   */
  lemma OutcomeByFirstFailure(replies: Replies, db: Database, rows: seq<Row>, f: nat)
    requires db.txn.Idle? && f <= |rows| + 2 && AllAccepted(replies, db.issued, f)
    requires f < |rows| + 2 ==> !replies(db.issued + f).Accepted?
    ensures var r := Batch(replies, db, rows);
            var undone := !replies(db.issued + f).Lost? && replies(db.issued + f + 1).Accepted?;
            if f == |rows| + 2 then r.outcome == Ok(()) && r.db.issued == db.issued + f
            else if f == 0 then r.outcome == Err(BeginFailed) && r.db.issued == db.issued + 1
            else
              && r.db.issued == db.issued + f + (if undone then 2 else 3)
              && r.outcome == Err(if !undone then RollbackFailed else if f <= |rows| then InsertFailed else CommitFailed)
  {
    var begun := Execute(replies, db, Begin);
    if 0 < f {
      assert begun.ok && begun.db.txn == Open([]) && begun.db.issued == db.issued + 1;
      if f <= |rows| {
        InsertsFailAt(replies, begun.db, rows, f - 1);
        RecoverAnswers(replies, Inserts(replies, begun.db, rows).db, InsertFailed);
      } else {
        InsertsAccepted(replies, begun.db, rows);
        CommitEnds(replies, Inserts(replies, begun.db, rows).db);
      }
    }
  }

  lemma CommitEnds(replies: Replies, db: Database)
    requires db.txn.Open?
    ensures var done, reply := Execute(replies, db, Commit), replies(db.issued);
            var undone := !reply.Lost? && replies(db.issued + 1).Accepted?;
            && (done.ok <==> reply.Accepted?) && done.db.issued == db.issued + 1
            && (!done.ok ==>
                  var r := Recover(replies, done.db, CommitFailed);
                  && r.outcome == Err(if undone then CommitFailed else RollbackFailed)
                  && r.db.issued == db.issued + if undone then 2 else 3)
  {
    RecoverAnswers(replies, Execute(replies, db, Commit).db, CommitFailed);
  }

  // ---- runs of batches on one connection ------------------------------------------------------

  function RunBatches(replies: Replies, db: Database, batches: seq<seq<Row>>): Database {
    if batches == [] then db
    else Batch(replies, RunBatches(replies, db, batches[..|batches| - 1]), batches[|batches| - 1]).db
  }

  /** How the last of a non-empty run of batches came out. */
  function LastOutcome(replies: Replies, db: Database, batches: seq<seq<Row>>): Result<(), BatchError>
    requires batches != []
  {
    Batch(replies, RunBatches(replies, db, batches[..|batches| - 1]), batches[|batches| - 1]).outcome
  }

  /** The rows of the batches that returned normally. */
  function Reported(replies: Replies, db: Database, batches: seq<seq<Row>>): seq<Row> {
    if batches == [] then []
    else Reported(replies, db, batches[..|batches| - 1]) +
         if LastOutcome(replies, db, batches).Ok? then batches[|batches| - 1] else []
  }

  /** No batch that returned normally began with rows of an earlier one still pending. */
  ghost predicate NoLeftovers(replies: Replies, db: Database, batches: seq<seq<Row>>) {
    batches == [] ||
    (&& NoLeftovers(replies, db, batches[..|batches| - 1])
     && (LastOutcome(replies, db, batches).Ok? ==>
           Pending(RunBatches(replies, db, batches[..|batches| - 1])) == []))
  }

  /** The durable rows are those of the batches reported as inserted, and no others, exactly without leftovers. */
  lemma {:induction false} RunIsAllOrNothingIff(replies: Replies, db: Database, batches: seq<seq<Row>>)
    ensures RunBatches(replies, db, batches).committed == db.committed + Reported(replies, db, batches) <==>
            NoLeftovers(replies, db, batches)
    ensures NoLeftovers(replies, db, batches) ||
            |RunBatches(replies, db, batches).committed| > |db.committed + Reported(replies, db, batches)|
  {
    if batches != [] {
      var init, last := batches[..|batches| - 1], batches[|batches| - 1];
      var before := RunBatches(replies, db, init);
      RunIsAllOrNothingIff(replies, db, init);
      AllOrNothing(replies, before, last);
      var reported := Reported(replies, db, init);
      if LastOutcome(replies, db, batches).Ok? {
        CommittedIff(db.committed, reported, before.committed, Pending(before), last);
      } else {
        assert reported + [] == reported && before.committed + [] == before.committed;
      }
    }
  }

  /** One successful batch: it adds exactly its own rows unless some were pending. */
  lemma CommittedIff(base: seq<Row>, reported: seq<Row>, before: seq<Row>, pending: seq<Row>, rows: seq<Row>)
    requires before == base + reported || |before| > |base + reported|
    ensures before + (pending + rows) == base + (reported + rows) <==> before == base + reported && pending == []
    ensures (before == base + reported && pending == []) || |before + (pending + rows)| > |base + (reported + rows)|
  {
    assert base + (reported + rows) == base + reported + rows;
    if pending == [] {
      assert pending + rows == rows;
    }
  }

  ghost predicate NoRollbackFailed(replies: Replies, db: Database, batches: seq<seq<Row>>) {
    batches == [] ||
    (&& NoRollbackFailed(replies, db, batches[..|batches| - 1])
     && LastOutcome(replies, db, batches) != Err(RollbackFailed))
  }

  /** A caller that has seen no failed rollback knows the run was all or nothing. */
  lemma {:induction false} CleanRollbacksSuffice(replies: Replies, db: Database, batches: seq<seq<Row>>)
    requires Pending(db) == [] && NoRollbackFailed(replies, db, batches)
    ensures Pending(RunBatches(replies, db, batches)) == []
    ensures NoLeftovers(replies, db, batches)
    ensures RunBatches(replies, db, batches).committed == db.committed + Reported(replies, db, batches)
  {
    if batches != [] {
      var init, last := batches[..|batches| - 1], batches[|batches| - 1];
      CleanRollbacksSuffice(replies, db, init);
      AllOrNothing(replies, RunBatches(replies, db, init), last);
    }
    RunIsAllOrNothingIff(replies, db, batches);
  }

  lemma InsertsNext(replies: Replies, db: Database, init: seq<Row>, row: Row)
    requires Inserts(replies, db, init).ok
    ensures Inserts(replies, db, init + [row]) == Execute(replies, Inserts(replies, db, init).db, Insert(row))
  {
    assert (init + [row])[..|init|] == init;
  }

  /** The second insertion fails, and so do both attempts to roll back. */
  function Unlucky(n: nat): Reply {
    if 2 <= n <= 4 then Unsent else Accepted
  }

  /** Otherwise part of a failed batch can become durable with the next one. */
  lemma LeftoverBecomesDurable(a: Row, b: Row, c: Row)
    ensures var db, batches := Database([], Idle, 0, 0), [[a, b], [c]];
            && Reported(Unlucky, db, batches) == [c]
            && RunBatches(Unlucky, db, batches).committed == [a, c]
  {
    var db, batches := Database([], Idle, 0, 0), [[a, b], [c]];
    FirstFails(db, a, b);
    SecondCommits(Database([], Open([a]), 5, 0), a, c);
    var one := batches[..1];
    assert one == [[a, b]] && one[..0] == [];
    assert RunBatches(Unlucky, db, one) == Database([], Open([a]), 5, 0) && Reported(Unlucky, db, one) == [];
  }

  lemma FirstFails(db: Database, a: Row, b: Row)
    requires db == Database([], Idle, 0, 0)
    ensures Batch(Unlucky, db, [a, b]) == BatchResult(Database([], Open([a]), 5, 0), Err(RollbackFailed))
  {
    var begun := Execute(Unlucky, db, Begin).db;
    assert [] + [a] == [a] && [a] + [b] == [a, b];
    InsertsNext(Unlucky, begun, [], a);
    InsertsNext(Unlucky, begun, [a], b);
  }

  lemma SecondCommits(db: Database, a: Row, c: Row)
    requires db == Database([], Open([a]), 5, 0)
    ensures Batch(Unlucky, db, [c]) == BatchResult(Database([a, c], Idle, 8, 1), Ok(()))
  {
    assert [] + [c] == [c] && [a] + [c] == [a, c] && [] + [a, c] == [a, c];
    InsertsNext(Unlucky, Execute(Unlucky, db, Begin).db, [], c);
  }
}
