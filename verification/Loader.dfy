/** Loading in batches. */
module Loader {
  // Loading a CSV file into a table in batches (src/loader.rs). The file is a sequence of parse
  // results; the database accepts or rejects each insert and each commit, and the connection keeps
  // what is committed apart from what the open transaction has pending.

  import opened Arithmetic
  import opened Common

  type Row = seq<string>

  /** What the CSV reader yields for one record. */
  datatype Record = Read(fields: seq<string>) | Malformed

  datatype OnError = Skip | Fail

  datatype LoadSpec = LoadSpec(batchSize: nat, transaction: bool, onError: OnError)

  datatype LoadError =
    BadRecord | MissingColumn | Rejected | NotPrepared | NoData | HeaderNotFound | NoMapping | TooFewRows

  /** `byHeader` names the columns of the file to load; `byIndex` counts only when it is empty. */
  datatype TableSpec = TableSpec(byHeader: seq<string>, byIndex: seq<nat>, minRows: Option<nat>)

  /** The file named for a table, when there is one. */
  datatype DataFile = NotFound | Found(headers: seq<string>, records: seq<Record>)

  /**
   The database's answers: whether the table takes a row on top of those it holds, and whether a
   commit of pending rows on top of committed ones succeeds.
   */
  datatype Database = Database(accepts: (seq<Row>, Row) -> bool, commits: (seq<Row>, seq<Row>) -> bool)

  /** What a script leaves of the rows in the table, and whether it runs to its end. */
  type Script = seq<Row> -> (seq<Row>, bool)

  // ------------------------------------------------------------- specification

  /** The wanted columns of a record, when it has them all. */
  predicate HasColumns(fields: seq<string>, cols: seq<nat>) {
    forall k :: 0 <= k < |cols| ==> cols[k] < |fields|
  }

  function Project(fields: seq<string>, cols: seq<nat>): (r: Row)
    requires HasColumns(fields, cols)
    ensures |r| == |cols| && forall k :: 0 <= k < |cols| ==> r[k] == fields[cols[k]]
  {
    seq(|cols|, k requires 0 <= k < |cols| => fields[cols[k]])
  }

  predicate IsGood(rec: Record, cols: seq<nat>) {
    rec.Read? && HasColumns(rec.fields, cols)
  }

  /** The projections of the good ones among the first `n` records, in file order. */
  function GoodRows(records: seq<Record>, cols: seq<nat>, n: nat): (rows: seq<Row>)
    requires n <= |records|
    ensures |rows| <= n
  {
    if n == 0 then []
    else
      GoodRows(records, cols, n - 1)
      + if IsGood(records[n - 1], cols) then [Project(records[n - 1].fields, cols)] else []
  }

  /** At least one record goes into a batch. */
  function BatchOf(load: LoadSpec): nat {
    if load.batchSize < 1 then 1 else load.batchSize
  }

  /** The largest multiple of the batch that is at most `n`. */
  function WholeCount(n: nat, batch: nat): (r: nat)
    requires 0 < batch
    ensures r <= n < r + batch
  {
    n / batch * batch
  }

  lemma WholeCountIs(n: nat, batch: nat, q: nat)
    requires 0 < batch && q * batch <= n < q * batch + batch
    ensures WholeCount(n, batch) == q * batch
  {
    DivIs(n, batch, q, n - q * batch);
  }

  /** One more row completes a batch or stays in the last, partial one. */
  lemma WholeCountStep(n: nat, batch: nat)
    requires 0 < batch
    ensures WholeCount(n + 1, batch) == if n + 1 == WholeCount(n, batch) + batch then n + 1 else WholeCount(n, batch)
  {
    var q := n / batch;
    if n + 1 == WholeCount(n, batch) + batch {
      Distribute(q, 1, batch);
      WholeCountIs(n + 1, batch, q + 1);
    } else {
      WholeCountIs(n + 1, batch, q);
    }
  }

  /** The rows of all whole batches. */
  function WholeBatches(rows: seq<Row>, batch: nat): seq<Row>
    requires 0 < batch
  {
    rows[..WholeCount(|rows|, batch)]
  }

  /** Whether the row that follows `rows` completes a batch. */
  predicate FillsBatch(rows: seq<Row>, load: LoadSpec) {
    |rows| + 1 == WholeCount(|rows|, BatchOf(load)) + BatchOf(load)
  }

  /** What is committed once `rows` are in: whole batches, or every row without transactions. */
  function Committed(rows: seq<Row>, load: LoadSpec): seq<Row> {
    if load.transaction then WholeBatches(rows, BatchOf(load)) else rows
  }

  /** Whether a commit succeeds when `rows` are in, `count` of them committed before. */
  predicate CommitsFrom(base: seq<Row>, rows: seq<Row>, count: nat, db: Database)
    requires count <= |rows|
  {
    db.commits(base + rows[..count], rows[count..])
  }

  /** Whether the row that follows `rows` goes in: the insert is accepted, and the commit that it may cause. */
  predicate GoesIn(base: seq<Row>, rows: seq<Row>, row: Row, load: LoadSpec, db: Database) {
    && db.accepts(base + rows, row)
    && (load.transaction && FillsBatch(rows, load) ==>
          CommitsFrom(base, rows + [row], WholeCount(|rows|, BatchOf(load)), db))
  }

  /** Whether the load stops at record `n`, when everything before it was taken. */
  predicate StopsAt(records: seq<Record>, cols: seq<nat>, n: nat, load: LoadSpec, base: seq<Row>, db: Database)
    requires n < |records|
  {
    if IsGood(records[n], cols) then
      !GoesIn(base, GoodRows(records, cols, n), Project(records[n].fields, cols), load, db)
    else load.onError.Fail?
  }

  predicate RunsTo(records: seq<Record>, cols: seq<nat>, n: nat, load: LoadSpec, base: seq<Row>, db: Database)
    requires n <= |records|
  {
    forall k :: 0 <= k < n ==> !StopsAt(records, cols, k, load, base, db)
  }

  /** Whether the commit after the last record succeeds. */
  predicate Ends(rows: seq<Row>, load: LoadSpec, base: seq<Row>, db: Database) {
    load.transaction ==> CommitsFrom(base, rows, WholeCount(|rows|, BatchOf(load)), db)
  }

  // ------------------------------------------------------------------ operations

  class Connection {
    const db: Database
    var committed: seq<Row>
    var pending: seq<Row>
    var open: bool
    /** The most rows that were ever pending at once. */
    ghost var peak: nat

    ghost predicate Valid()
      reads this
    {
      (!open ==> pending == []) && |pending| <= peak
    }

    constructor (db: Database)
      ensures Valid() && this.db == db
      ensures committed == [] && pending == [] && !open && peak == 0
    {
      this.db := db;
      committed, pending, open, peak := [], [], false, 0;
    }

    /** A script runs outside any transaction; what it did before an error stays. */
    method Execute(script: Script) returns (ok: bool)
      requires Valid() && !open
      modifies this
      ensures Valid() && !open && (committed, ok) == script(old(committed)) && pending == [] && peak == old(peak)
    {
      var (rows, ran) := script(committed);
      committed, ok := rows, ran;
    }

    method Begin()
      requires Valid() && !open
      modifies this
      ensures Valid() && open && committed == old(committed) && pending == [] && peak == old(peak)
    {
      open := true;
    }

    /** Outside a transaction a row is committed at once. */
    method Insert(row: Row) returns (ok: bool)
      requires Valid()
      modifies this
      ensures Valid() && open == old(open)
      ensures ok == db.accepts(old(committed) + old(pending), row)
      ensures committed == old(committed) + if ok && !open then [row] else []
      ensures pending == old(pending) + if ok && open then [row] else []
      ensures peak == if |pending| > old(peak) then |pending| else old(peak)
    {
      ok := db.accepts(committed + pending, row);
      if ok && open {
        pending := pending + [row];
      } else if ok {
        committed := committed + [row];
      }
      peak := if |pending| > peak then |pending| else peak;
    }

    /** A commit that fails drops its transaction. */
    method Commit() returns (ok: bool)
      requires Valid() && open
      modifies this
      ensures Valid() && !open && pending == [] && peak == old(peak)
      ensures ok == db.commits(old(committed), old(pending))
      ensures committed == old(committed) + if ok then old(pending) else []
    {
      ok := db.commits(committed, pending);
      if ok {
        committed := committed + pending;
      }
      pending, open := [], false;
    }

    /** A transaction that is dropped without a commit. */
    method Rollback()
      requires Valid()
      modifies this
      ensures Valid() && !open && committed == old(committed) && pending == [] && peak == old(peak)
    {
      pending, open := [], false;
    }
  }

  /** The wanted columns of one record; `bad` counts the records skipped so far. */
  method ExtractRowRefs(fields: seq<string>, cols: seq<nat>, bad: nat, load: LoadSpec)
    returns (r: Result<Option<Row>, LoadError>, bad': nat)
    ensures HasColumns(fields, cols) ==> r == Ok(Some(Project(fields, cols))) && bad' == bad
    ensures !HasColumns(fields, cols) && load.onError.Skip? ==> r == Ok(None) && bad' == bad + 1
    ensures !HasColumns(fields, cols) && load.onError.Fail? ==> r == Err(MissingColumn) && bad' == bad
  {
    bad' := bad;
    var vs: Row := [];
    for i := 0 to |cols|
      invariant |vs| == i
      invariant forall k :: 0 <= k < i ==> cols[k] < |fields| && vs[k] == fields[cols[k]]
    {
      if |fields| <= cols[i] {
        if load.onError.Skip? {
          return Ok(None), bad + 1;
        }
        return Err(MissingColumn), bad;
      }
      vs := vs + [fields[cols[i]]];
    }
    assert vs == Project(fields, cols);
    r := Ok(Some(vs));
  }

  datatype Counts = Counts(inserted: nat, bad: nat)

  /** Where the connection stands once the good rows among the first records are in. */
  ghost predicate Loaded(committed: seq<Row>, pending: seq<Row>, base: seq<Row>, rows: seq<Row>, load: LoadSpec) {
    if load.transaction then
      var n := WholeCount(|rows|, BatchOf(load));
      committed == base + rows[..n] && pending == rows[n..]
    else committed == base + rows && pending == []
  }

  lemma AllHeld(committed: seq<Row>, pending: seq<Row>, base: seq<Row>, rows: seq<Row>, load: LoadSpec)
    requires Loaded(committed, pending, base, rows, load)
    ensures committed + pending == base + rows
  {
  }

  /** One more row inside a transaction, before it is known whether the batch is full. */
  lemma InsertInBatch(pending: seq<Row>, rows: seq<Row>, row: Row, n: nat)
    requires n <= |rows| && pending == rows[n..]
    ensures pending + [row] == (rows + [row])[n..] && rows[..n] == (rows + [row])[..n]
  {
  }

  lemma CommitBatch(base: seq<Row>, rows: seq<Row>, n: nat)
    requires n <= |rows|
    ensures base + rows[..n] + rows[n..] == base + rows && rows[|rows|..] == [] && rows[..|rows|] == rows
  {
  }

  lemma RunsOn(records: seq<Record>, cols: seq<nat>, n: nat, load: LoadSpec, base: seq<Row>, db: Database)
    requires n < |records| && RunsTo(records, cols, n, load, base, db)
    requires !StopsAt(records, cols, n, load, base, db)
    ensures RunsTo(records, cols, n + 1, load, base, db)
  {
  }

  ghost predicate PeakWithin(conn: Connection, before: nat, load: LoadSpec)
    reads conn
  {
    conn.peak <= if BatchOf(load) > before then BatchOf(load) else before
  }

  /** A full batch is committed and the next transaction begun. */
  method FinishBatch(conn: Connection, load: LoadSpec, ghost base: seq<Row>, ghost rows: seq<Row>, ghost n: nat)
    returns (ok: bool)
    requires conn.Valid() && conn.open && n <= |rows|
    requires conn.committed == base + rows[..n] && conn.pending == rows[n..]
    modifies conn
    ensures conn.Valid() && conn.peak == old(conn.peak) && conn.pending == []
    ensures ok == CommitsFrom(base, rows, n, conn.db)
    ensures ok ==> conn.open && conn.committed == base + rows
    ensures !ok ==> conn.committed == old(conn.committed)
  {
    CommitBatch(base, rows, n);
    ok := conn.Commit();
    if ok {
      conn.Begin();
    }
  }

  /** The loop's body for a record with all its columns: insert it, and commit when the batch is full. */
  method InsertRow(conn: Connection, row: Row, load: LoadSpec, batchLeft: nat, ghost base: seq<Row>,
                   ghost rows: seq<Row>)
    returns (ok: bool, batchLeft': nat)
    requires conn.Valid() && conn.open == load.transaction
    requires Loaded(conn.committed, conn.pending, base, rows, load)
    requires load.transaction ==> 0 < batchLeft && batchLeft + |conn.pending| == BatchOf(load)
    modifies conn
    ensures conn.Valid() && ok == GoesIn(base, rows, row, load, conn.db)
    ensures ok ==> conn.open == load.transaction && Loaded(conn.committed, conn.pending, base, rows + [row], load)
    ensures ok && load.transaction ==> 0 < batchLeft' && batchLeft' + |conn.pending| == BatchOf(load)
    ensures !ok ==> conn.committed == old(conn.committed)
    ensures PeakWithin(conn, old(conn.peak), load)
  {
    AllHeld(conn.committed, conn.pending, base, rows, load);
    ghost var n := WholeCount(|rows|, BatchOf(load));
    WholeCountStep(|rows|, BatchOf(load));
    if load.transaction {
      InsertInBatch(conn.pending, rows, row, n);
    } else {
      assert base + rows + [row] == base + (rows + [row]);
    }
    batchLeft' := batchLeft;
    ok := conn.Insert(row);
    if ok && load.transaction {
      batchLeft' := batchLeft - 1;
      if batchLeft' == 0 {
        ok := FinishBatch(conn, load, base, rows + [row], n);
        CommitBatch(base, rows + [row], n);
        batchLeft' := BatchOf(load);
      }
    }
  }

  method LoadRecords(conn: Connection, records: seq<Record>, cols: seq<nat>, load: LoadSpec)
    returns (r: Result<Counts, LoadError>, ghost stop: nat)
    requires conn.Valid() && !conn.open
    modifies conn
    ensures conn.Valid() && !conn.open
    ensures stop <= |records| && RunsTo(records, cols, stop, load, old(conn.committed), conn.db)
    ensures stop < |records| ==> r.Err? && StopsAt(records, cols, stop, load, old(conn.committed), conn.db)
    ensures stop == |records| ==>
              (r.Ok? <==> Ends(GoodRows(records, cols, stop), load, old(conn.committed), conn.db))
    ensures r.Ok? ==>
              && conn.committed == old(conn.committed) + GoodRows(records, cols, |records|)
              && r.value.inserted == |GoodRows(records, cols, |records|)|
              && r.value.inserted + r.value.bad == |records|
    ensures r.Err? ==> conn.committed == old(conn.committed) + Committed(GoodRows(records, cols, stop), load)
    ensures PeakWithin(conn, old(conn.peak), load)
  {
    var inserted, bad: nat, batchLeft: nat := 0, 0, BatchOf(load);
    if load.transaction {
      conn.Begin();
    }
    ghost var base := conn.committed;
    for i := 0 to |records|
      invariant conn.Valid() && conn.open == load.transaction
      invariant RunsTo(records, cols, i, load, base, conn.db)
      invariant Loaded(conn.committed, conn.pending, base, GoodRows(records, cols, i), load)
      invariant inserted == |GoodRows(records, cols, i)| && inserted + bad == i
      invariant load.transaction ==> 0 < batchLeft && batchLeft + |conn.pending| == BatchOf(load)
      invariant PeakWithin(conn, old(conn.peak), load)
    {
      ghost var rows := GoodRows(records, cols, i);
      if records[i].Malformed? {
        if load.onError.Fail? {
          conn.Rollback();
          return Err(BadRecord), i;
        }
        RunsOn(records, cols, i, load, base, conn.db);
        bad := bad + 1;
        continue;
      }
      var refs, bad' := ExtractRowRefs(records[i].fields, cols, bad, load);
      bad := bad';
      if refs.Err? {
        conn.Rollback();
        return Err(refs.error), i;
      }
      AllHeld(conn.committed, conn.pending, base, rows, load);
      if refs.value.Some? {
        var ok, left := InsertRow(conn, refs.value.value, load, batchLeft, base, rows);
        if !ok {
          conn.Rollback();
          return Err(Rejected), i;
        }
        inserted := inserted + 1;
        batchLeft := left;
      }
      RunsOn(records, cols, i, load, base, conn.db);
    }
    AllHeld(conn.committed, conn.pending, base, GoodRows(records, cols, |records|), load);
    stop := |records|;
    if load.transaction {
      var ok := conn.Commit();
      if !ok {
        return Err(Rejected), stop;
      }
    }
    r := Ok(Counts(inserted, bad));
  }

  // --------------------------------------------------------------- the whole table

  /** The first header with the name, or the number of headers. */
  function FirstHeader(headers: seq<string>, name: string, i: nat): (r: nat)
    requires i <= |headers|
    ensures i <= r <= |headers|
    ensures r < |headers| ==> headers[r] == name
    ensures name in headers[i..] ==> r < |headers|
    ensures forall j :: i <= j < r ==> headers[j] != name
    decreases |headers| - i
  {
    if i == |headers| || headers[i] == name then i else FirstHeader(headers, name, i + 1)
  }

  function HeaderColumns(headers: seq<string>, wanted: seq<string>): (cols: seq<nat>)
    ensures |cols| == |wanted| && forall k :: 0 <= k < |wanted| ==> cols[k] == FirstHeader(headers, wanted[k], 0)
  {
    seq(|wanted|, k requires 0 <= k < |wanted| => FirstHeader(headers, wanted[k], 0))
  }

  predicate AllNamed(headers: seq<string>, wanted: seq<string>) {
    forall k :: 0 <= k < |wanted| ==> wanted[k] in headers
  }

  method SelectIndicesByHeader(headers: seq<string>, wanted: seq<string>) returns (r: Result<seq<nat>, LoadError>)
    ensures r == if AllNamed(headers, wanted) then Ok(HeaderColumns(headers, wanted)) else Err(HeaderNotFound)
  {
    var out: seq<nat> := [];
    for i := 0 to |wanted|
      invariant |out| == i
      invariant forall k :: 0 <= k < i ==> wanted[k] in headers && out[k] == FirstHeader(headers, wanted[k], 0)
    {
      var pos := FirstHeader(headers, wanted[i], 0);
      if pos == |headers| {
        assert wanted[i] !in headers[0..];
        return Err(HeaderNotFound);
      }
      out := out + [pos];
    }
    assert out == HeaderColumns(headers, wanted);
    r := Ok(out);
  }

  predicate Mapped(t: TableSpec, headers: seq<string>) {
    if t.byHeader != [] then AllNamed(headers, t.byHeader) else t.byIndex != []
  }

  function Columns(t: TableSpec, headers: seq<string>): seq<nat> {
    if t.byHeader != [] then HeaderColumns(headers, t.byHeader) else t.byIndex
  }

  /**
   With columns chosen by header, a record as wide as the header never misses one, and each value comes
   from its column.
   */
  lemma HeaderColumnsNeverMiss(headers: seq<string>, wanted: seq<string>, fields: seq<string>)
    requires AllNamed(headers, wanted) && |headers| <= |fields|
    ensures HasColumns(fields, HeaderColumns(headers, wanted))
    ensures forall k :: 0 <= k < |wanted| ==>
              var c := HeaderColumns(headers, wanted)[k];
              headers[c] == wanted[k] && (forall j :: 0 <= j < c ==> headers[j] != wanted[k])
              && Project(fields, HeaderColumns(headers, wanted))[k] == fields[c]
  {
    forall k | 0 <= k < |wanted| ensures FirstHeader(headers, wanted[k], 0) < |headers| {
      assert wanted[k] in headers[0..];
    }
  }

  /** What a load into a table that holds `base` commits when it gives up after `stop` records. */
  ghost predicate GaveUpAt(stop: nat, committed: seq<Row>, base: seq<Row>, records: seq<Record>, cols: seq<nat>,
                           load: LoadSpec, db: Database)
  {
    && stop <= |records| && RunsTo(records, cols, stop, load, base, db)
    && var rows := GoodRows(records, cols, stop);
       (if stop < |records| then StopsAt(records, cols, stop, load, base, db) else !Ends(rows, load, base, db))
       && committed == base + Committed(rows, load)
  }

  ghost predicate GaveUp(committed: seq<Row>, base: seq<Row>, records: seq<Record>, cols: seq<nat>, load: LoadSpec,
                         db: Database) {
    exists stop: nat :: GaveUpAt(stop, committed, base, records, cols, load, db)
  }

  predicate Completes(records: seq<Record>, cols: seq<nat>, load: LoadSpec, base: seq<Row>, db: Database) {
    RunsTo(records, cols, |records|, load, base, db) && Ends(GoodRows(records, cols, |records|), load, base, db)
  }

  /**
   The clean-up, the import and the check of the row count. What the clean-up removed stays removed
   when the file, a column or a record is at fault, and too few rows are reported after they were
   committed.
   */
  method LoadOneTable(conn: Connection, prepare: Script, t: TableSpec, file: DataFile, load: LoadSpec)
    returns (r: Result<Counts, LoadError>)
    requires conn.Valid() && !conn.open
    modifies conn
    ensures conn.Valid() && !conn.open
    ensures var (base, prepared) := prepare(old(conn.committed));
            if !prepared || file.NotFound? || !Mapped(t, file.headers) then r.Err? && conn.committed == base
            else
              var cols := Columns(t, file.headers);
              var all := GoodRows(file.records, cols, |file.records|);
              if Completes(file.records, cols, load, base, conn.db) then
                && conn.committed == base + all
                && r == if t.minRows.Some? && |all| < t.minRows.value then Err(TooFewRows)
                        else Ok(Counts(|all|, |file.records| - |all|))
              else r.Err? && GaveUp(conn.committed, base, file.records, cols, load, conn.db)
  {
    var prepared := conn.Execute(prepare);
    if !prepared {
      return Err(NotPrepared);
    }
    if file.NotFound? {
      return Err(NoData);
    }
    var cols: seq<nat> := t.byIndex;
    if t.byHeader != [] {
      var selected := SelectIndicesByHeader(file.headers, t.byHeader);
      if selected.Err? {
        return Err(selected.error);
      }
      cols := selected.value;
    } else if t.byIndex == [] {
      return Err(NoMapping);
    }
    ghost var base := conn.committed;
    ghost var stop: nat;
    r, stop := LoadRecords(conn, file.records, cols, load);
    if r.Err? {
      assert GaveUpAt(stop, conn.committed, base, file.records, cols, load, conn.db);
      return;
    }
    if t.minRows.Some? && r.value.inserted < t.minRows.value {
      return Err(TooFewRows);
    }
  }

  /** One row where two are asked for: the load is reported as failed, and the row stays. */
  method TooFewRowsStay() returns (conn: Connection, r: Result<Counts, LoadError>)
    ensures r == Err(TooFewRows) && conn.committed == [["a"]]
  {
    conn := new Connection(Database((held, row) => true, (held, pending) => true));
    var t := TableSpec([], [0], Some(2));
    var records := [Read(["a"])];
    var load := LoadSpec(10, true, Skip);
    r := LoadOneTable(conn, held => ([], true), t, Found([], records), load);
    assert IsGood(records[0], [0]) && Project(["a"], [0]) == ["a"];
    assert GoodRows(records, [0], 0) == [];
    assert GoodRows(records, [0], 1) == [["a"]];
  }

  /** A load that gives up does so in one way: where it stopped and what it left follow from the file and the table. */
  lemma GaveUpOnce(c: seq<Row>, d: seq<Row>, base: seq<Row>, records: seq<Record>, cols: seq<nat>, load: LoadSpec,
                   db: Database)
    requires GaveUp(c, base, records, cols, load, db) && GaveUp(d, base, records, cols, load, db)
    ensures c == d && !Completes(records, cols, load, base, db)
  {
    var i: nat :| GaveUpAt(i, c, base, records, cols, load, db);
    var j: nat :| GaveUpAt(j, d, base, records, cols, load, db);
  }

  /** With the clean-up that a table has by default, loading it again from the same file leaves the same rows. */
  method LoadAgain(conn: Connection, t: TableSpec, file: DataFile, load: LoadSpec)
    returns (first: Result<Counts, LoadError>, second: Result<Counts, LoadError>, between: seq<Row>)
    requires conn.Valid() && !conn.open
    modifies conn
    ensures conn.Valid() && !conn.open && conn.committed == between
    ensures first.Ok? <==> second.Ok?
    ensures first.Ok? ==> first == second
  {
    first := LoadOneTable(conn, held => ([], true), t, file, load);
    between := conn.committed;
    second := LoadOneTable(conn, held => ([], true), t, file, load);
    if file.Found? && Mapped(t, file.headers) {
      var cols := Columns(t, file.headers);
      if !Completes(file.records, cols, load, [], conn.db) {
        GaveUpOnce(between, conn.committed, [], file.records, cols, load, conn.db);
      }
    }
  }

  // ---------------------------------------------------------------------- theorems

  /** No longer run of whole batches fits into the rows. */
  lemma WholeCountIsLargest(n: nat, batch: nat, m: nat)
    requires 0 < batch && m <= n && m % batch == 0
    ensures m <= WholeCount(n, batch) && WholeCount(n, batch) % batch == 0
  {
    var q := m / batch;
    if n / batch < q {
      MulAtMost(n / batch + 1, q, batch);
      Distribute(n / batch, 1, batch);
    }
    DivIs(n / batch * batch, batch, n / batch, 0);
  }

  /** Loading two files one after the other brings in the rows of the joined file. */
  lemma {:induction false} GoodRowsJoin(a: seq<Record>, b: seq<Record>, cols: seq<nat>, n: nat)
    requires n <= |b|
    ensures GoodRows(a + b, cols, |a| + n) == GoodRows(a, cols, |a|) + GoodRows(b, cols, n)
    decreases n
  {
    if n == 0 {
      GoodRowsPrefix(a, b, cols, |a|);
    } else {
      GoodRowsJoin(a, b, cols, n - 1);
      assert (a + b)[|a| + n - 1] == b[n - 1];
    }
  }

  lemma {:induction false} GoodRowsPrefix(a: seq<Record>, b: seq<Record>, cols: seq<nat>, n: nat)
    requires n <= |a|
    ensures GoodRows(a + b, cols, n) == GoodRows(a, cols, n)
  {
    if 0 < n {
      GoodRowsPrefix(a, b, cols, n - 1);
      assert (a + b)[n - 1] == a[n - 1];
    }
  }

  /**
   What a failed load keeps is a prefix of the good rows of the whole file, and of the rows inserted
   before the failure fewer than one batch are lost.
   */
  lemma LostRowsAreATail(records: seq<Record>, cols: seq<nat>, stop: nat, batch: nat)
    requires stop <= |records| && 0 < batch
    ensures var rows, all := GoodRows(records, cols, stop), GoodRows(records, cols, |records|);
            var kept := WholeBatches(rows, batch);
            && |kept| <= |all| && all[..|kept|] == kept
            && |rows| - |kept| < batch
  {
    GoodRowsGrow(records, cols, stop, |records|);
  }

  /** In terms of the configured size: a failed load keeps whole batches of it; a size of zero loads row by row. */
  lemma FailedLoadKeeps(rows: seq<Row>, load: LoadSpec)
    requires load.transaction
    ensures var kept := Committed(rows, load);
            && kept == rows[..|kept|]
            && (load.batchSize == 0 ==> kept == rows)
            && (0 < load.batchSize ==> |kept| % load.batchSize == 0 && |rows| - |kept| < load.batchSize)
  {
    WholeCountIsLargest(|rows|, BatchOf(load), 0);
  }

  lemma {:induction false} GoodRowsGrow(records: seq<Record>, cols: seq<nat>, m: nat, n: nat)
    requires m <= n <= |records|
    ensures |GoodRows(records, cols, m)| <= |GoodRows(records, cols, n)|
    ensures GoodRows(records, cols, n)[..|GoodRows(records, cols, m)|] == GoodRows(records, cols, m)
    decreases n
  {
    if m < n {
      GoodRowsGrow(records, cols, m, n - 1);
    }
  }
}
