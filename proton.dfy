/** The native (proton) driver: the dial address built at construction, and
    Write, a bulk insert in one transaction: begin, prepare the INSERT statement,
    execute it once per row stopping at the first failure, and commit only when
    every row went through. No failure path rolls the transaction back. */
module Proton {
  import opened Wrappers
  import opened Text
  import opened Columnar

  /** The driver's connection settings (the idle-connection limit is not modelled). */
  datatype DriverConfig = DriverConfig(host: string, port: int, user: string, password: string)

  /** The dial address `host:port`, the port in decimal. */
  function Address(host: string, port: int): string {
    host + ":" + IntToString(port)
  }

  /** Splits `s` at its last ':' into what comes before and what comes after. */
  function SplitAtLastColon(s: string): Option<(string, string)> {
    if |s| == 0 then None
    else if s[|s| - 1] == ':' then Some((s[..|s| - 1], ""))
    else
      match SplitAtLastColon(s[..|s| - 1])
      case None => None
      case Some(parts) => Some((parts.0, parts.1 + [s[|s| - 1]]))
  }

  lemma {:induction false} SplitAtLastColonJoin(h: string, t: string)
    requires ':' !in t
    ensures SplitAtLastColon(h + ":" + t) == Some((h, t))
    decreases |t|
  {
    var s := h + ":" + t;
    if t == [] {
      assert s[..|s| - 1] == h;
    } else {
      var t' := t[..|t| - 1];
      assert ':' !in t' by { assert forall c :: c in t' ==> c in t; }
      assert s[..|s| - 1] == h + ":" + t';
      SplitAtLastColonJoin(h, t');
      assert t' + [t[|t| - 1]] == t;
    }
  }

  /** The address gives back its host and its port: the port text after the last
      ':' reads back as the port (whatever colons the host itself contains). */
  lemma AddressRoundTrip(host: string, port: int)
    ensures SplitAtLastColon(Address(host, port)) == Some((host, IntToString(port)))
    ensures ParseInt(IntToString(port)) == Some(port)
  {
    SplitAtLastColonJoin(host, IntToString(port));
    ParseIntToString(port);
  }

  const InsertPrefix: string := "INSERT INTO "
  const ValuesSuffix: string := ") values"

  /** The statement Write prepares: the stream and the columns joined by ",". */
  function InsertStatement(stream: string, cols: seq<string>): string {
    InsertPrefix + stream + " (" + Join(cols, ',') + ValuesSuffix
  }

  /** The column list an INSERT statement for `stream` names, if it is one. */
  function StatementColumns(stmt: string, stream: string): Option<seq<string>> {
    var head := InsertPrefix + stream + " (";
    if |stmt| < |head| + |ValuesSuffix| || stmt[..|head|] != head || stmt[|stmt| - |ValuesSuffix|..] != ValuesSuffix then None
    else
      var middle := stmt[|head|..|stmt| - |ValuesSuffix|];
      if middle == "" then Some([]) else Some(Split(middle, ','))
  }

  /** The statement carries the columns verbatim and in order: when no column is
      empty or contains ',', they can be read back from it. */
  lemma InsertStatementColumns(stream: string, cols: seq<string>)
    requires forall c :: c in cols ==> c != "" && ',' !in c
    ensures StatementColumns(InsertStatement(stream, cols), stream) == Some(cols)
  {
    var head := InsertPrefix + stream + " (";
    var stmt := InsertStatement(stream, cols);
    var middle := Join(cols, ',');
    assert stmt == head + middle + ValuesSuffix;
    assert stmt[..|head|] == head;
    assert stmt[|stmt| - |ValuesSuffix|..] == ValuesSuffix;
    assert stmt[|head|..|stmt| - |ValuesSuffix|] == middle;
    if cols != [] {
      assert cols[0] in cols;
      JoinHead(cols, ',');
      SplitJoin(cols, ',');
    }
  }

  /** The outcomes the database gives: to Begin, to Prepare, to the i-th Exec
      call (`exec[i]`; a call past the end of `exec` succeeds) and to Commit. */
  datatype Db = Db(begin: Option<string>, prepare: Option<string>, exec: seq<Option<string>>, commit: Option<string>)

  function ExecOutcome(db: Db, i: nat): Option<string> {
    if i < |db.exec| then db.exec[i] else None
  }

  /** The position of the first of the first `n` Exec calls that fails, `n` if none does. */
  function FirstFailure(db: Db, n: nat): (k: nat)
    ensures k <= n
  {
    if n == 0 then 0
    else
      var k := FirstFailure(db, n - 1);
      if k < n - 1 then k
      else if ExecOutcome(db, n - 1).Some? then n - 1
      else n
  }

  /** FirstFailure is the first failure: every call before it succeeds and the
      call at it, if there is one, fails. */
  lemma {:induction false} FirstFailureIsFirst(db: Db, n: nat)
    ensures forall i :: 0 <= i < FirstFailure(db, n) ==> ExecOutcome(db, i).None?
    ensures FirstFailure(db, n) < n ==> ExecOutcome(db, FirstFailure(db, n)).Some?
  {
    if n > 0 {
      FirstFailureIsFirst(db, n - 1);
    }
  }

  lemma {:induction false} FirstFailureStays(db: Db, k: nat, n: nat)
    requires k < n && FirstFailure(db, k) == k && ExecOutcome(db, k).Some?
    ensures FirstFailure(db, n) == k
    decreases n
  {
    if n > k + 1 {
      FirstFailureStays(db, k, n - 1);
    }
  }

  /** Everything Write leaves observable: its result, whether a transaction was
      begun, the statements prepared, the rows executed (failing one included),
      and the transaction's commit and rollback flags. */
  datatype Trace = Trace(
    result: Option<string>,
    began: bool,
    prepared: seq<string>,
    executed: seq<Row>,
    commitIssued: bool,
    committed: bool,
    rolledBack: bool)

  /** The trace of Write for the given database outcomes. */
  function WriteTrace(stream: string, cols: seq<string>, rows: seq<Row>, db: Db): Trace {
    if db.begin.Some? then Trace(db.begin, false, [], [], false, false, false)
    else
      var stmt := InsertStatement(stream, cols);
      if db.prepare.Some? then Trace(db.prepare, true, [stmt], [], false, false, false)
      else
        var k := FirstFailure(db, |rows|);
        if k < |rows| then Trace(ExecOutcome(db, k), true, [stmt], rows[..k + 1], false, false, false)
        else Trace(db.commit, true, [stmt], rows, true, db.commit.None?, false)
  }

  /** A Begin failure is returned; nothing is prepared, executed or committed. */
  lemma BeginFailure(stream: string, cols: seq<string>, rows: seq<Row>, db: Db)
    requires db.begin.Some?
    ensures var t := WriteTrace(stream, cols, rows, db);
      t.result == db.begin && !t.began && t.prepared == [] && t.executed == [] && !t.commitIssued
  {
  }

  /** Once begun, exactly one statement is prepared, and it is the INSERT for
      this stream and these columns; a Prepare failure is returned with no row
      executed and no commit. */
  lemma PrepareOnce(stream: string, cols: seq<string>, rows: seq<Row>, db: Db)
    requires db.begin.None?
    ensures var t := WriteTrace(stream, cols, rows, db);
      && t.began && t.prepared == [InsertStatement(stream, cols)]
      && (db.prepare.Some? ==> t.result == db.prepare && t.executed == [] && !t.commitIssued)
  {
  }

  /** Rows are executed in order, each at most once, up to and including the
      first failing one: the executed rows are a prefix of `rows`, all but the
      last of them succeeded, and Write stops short of the end only after a
      failure, whose error it returns. */
  lemma ExecutedPrefix(stream: string, cols: seq<string>, rows: seq<Row>, db: Db)
    requires db.begin.None? && db.prepare.None?
    ensures var t := WriteTrace(stream, cols, rows, db);
      && |t.executed| <= |rows| && t.executed == rows[..|t.executed|]
      && (forall i :: 0 <= i < |t.executed| - 1 ==> ExecOutcome(db, i).None?)
      && (!t.commitIssued ==> |t.executed| > 0 && t.result == ExecOutcome(db, |t.executed| - 1) && t.result.Some?)
      && (t.commitIssued ==> t.executed == rows && forall i :: 0 <= i < |rows| ==> ExecOutcome(db, i).None?)
  {
    FirstFailureIsFirst(db, |rows|);
  }

  /** Commit is issued exactly when the transaction was begun, the statement
      prepared and every row executed without error; its result is then the
      result of Write. */
  lemma CommitIffAllSucceed(stream: string, cols: seq<string>, rows: seq<Row>, db: Db)
    ensures var t := WriteTrace(stream, cols, rows, db);
      && (t.commitIssued <==>
            db.begin.None? && db.prepare.None? && forall i :: 0 <= i < |rows| ==> ExecOutcome(db, i).None?)
      && (t.commitIssued ==> t.result == db.commit && t.committed == db.commit.None?)
  {
    FirstFailureIsFirst(db, |rows|);
    var k := FirstFailure(db, |rows|);
    if db.begin.None? && db.prepare.None? && k < |rows| {
      assert ExecOutcome(db, k).Some?;
    }
  }

  /** No path issues a rollback, so a failing Write leaves its transaction open:
      neither committed nor rolled back. */
  lemma NoRollback(stream: string, cols: seq<string>, rows: seq<Row>, db: Db)
    ensures var t := WriteTrace(stream, cols, rows, db);
      && !t.rolledBack
      && (t.result.Some? ==> !t.committed)
  {
  }

  /** With no rows, Commit directly follows Prepare. */
  lemma EmptyRowsCommit(stream: string, cols: seq<string>, db: Db)
    requires db.begin.None? && db.prepare.None?
    ensures var t := WriteTrace(stream, cols, [], db);
      t.executed == [] && t.commitIssued && t.result == db.commit
  {
  }

  /** Row 2 of 3 fails: its error is returned, row 3 is never executed and
      nothing is committed. */
  lemma SecondOfThreeFails(stream: string, cols: seq<string>, r1: Row, r2: Row, r3: Row, e: string)
    ensures var t := WriteTrace(stream, cols, [r1, r2, r3], Db(None, None, [None, Some(e), None], None));
      t.result == Some(e) && t.executed == [r1, r2] && !t.commitIssued && !t.committed
  {
    var db := Db(None, None, [None, Some(e), None], None);
    assert FirstFailure(db, 1) == 1;
    assert FirstFailure(db, 2) == 1;
    assert FirstFailure(db, 3) == 1;
    assert [r1, r2, r3][..2] == [r1, r2];
  }

  /** A transaction scope: the statements submitted to Prepare, the rows
      submitted to Exec (in order), and its commit and rollback flags. */
  class Tx {
    var prepared: seq<string>
    var executed: seq<Row>
    var commitIssued: bool
    var committed: bool
    var rolledBack: bool

    /** A transaction Begin has opened. */
    constructor ()
      ensures prepared == [] && executed == [] && !commitIssued && !committed && !rolledBack
    {
      prepared := [];
      executed := [];
      commitIssued := false;
      committed := false;
      rolledBack := false;
    }

    method Prepare(stmt: string, outcome: Option<string>) returns (err: Option<string>)
      modifies this
      ensures err == outcome && prepared == old(prepared) + [stmt]
      ensures executed == old(executed) && commitIssued == old(commitIssued)
      ensures committed == old(committed) && rolledBack == old(rolledBack)
    {
      prepared := prepared + [stmt];
      err := outcome;
    }

    method Exec(row: Row, outcome: Option<string>) returns (err: Option<string>)
      modifies this
      ensures err == outcome && executed == old(executed) + [row]
      ensures prepared == old(prepared) && commitIssued == old(commitIssued)
      ensures committed == old(committed) && rolledBack == old(rolledBack)
    {
      executed := executed + [row];
      err := outcome;
    }

    method Commit(outcome: Option<string>) returns (err: Option<string>)
      modifies this
      ensures err == outcome && commitIssued && committed == outcome.None?
      ensures prepared == old(prepared) && executed == old(executed) && rolledBack == old(rolledBack)
    {
      commitIssued := true;
      committed := outcome.None?;
      err := outcome;
    }
  }

  /** What a Write call leaves observable, read off its result and transaction. */
  function Observe(err: Option<string>, tx: Tx?): Trace
    reads tx
  {
    if tx == null then Trace(err, false, [], [], false, false, false)
    else Trace(err, true, tx.prepared, tx.executed, tx.commitIssued, tx.committed, tx.rolledBack)
  }

  /** The driver: the address it dials and the credentials it uses. */
  class Driver {
    const addr: string
    const user: string
    const password: string

    /** NewDriver. */
    constructor (config: DriverConfig)
      ensures addr == Address(config.host, config.port)
      ensures user == config.user && password == config.password
    {
      addr := Address(config.host, config.port);
      user := config.user;
      password := config.password;
    }

    /** Write. `tx` is the transaction Begin opened, null when Begin failed. */
    method Write(stream: string, cols: seq<string>, rows: seq<Row>, db: Db) returns (err: Option<string>, tx: Tx?)
      ensures tx == null <==> db.begin.Some?
      ensures tx != null ==> fresh(tx)
      ensures Observe(err, tx) == WriteTrace(stream, cols, rows, db)
    {
      if db.begin.Some? {
        return db.begin, null;
      }
      tx := new Tx();
      var stmt := InsertStatement(stream, cols);
      err := tx.Prepare(stmt, db.prepare);
      if err.Some? {
        return;
      }
      var i := 0;
      while i < |rows|
        invariant 0 <= i <= |rows|
        invariant tx.prepared == [stmt] && tx.executed == rows[..i]
        invariant !tx.commitIssued && !tx.committed && !tx.rolledBack
        invariant FirstFailure(db, i) == i
      {
        err := tx.Exec(rows[i], ExecOutcome(db, i));
        if err.Some? {
          FirstFailureStays(db, i, |rows|);
          assert rows[..i] + [rows[i]] == rows[..i + 1];
          return;
        }
        assert rows[..i] + [rows[i]] == rows[..i + 1];
        i := i + 1;
      }
      assert rows[..i] == rows;
      err := tx.Commit(db.commit);
    }
  }
}
