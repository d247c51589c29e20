/** The batcher's operations on its own fields, and the text of the combined statement. */
module InsertBatcher {
  import opened Wrappers
  import T = Text
  import opened BatchProtocol
  import opened BulkInsert

  // ---- the combined statement ----------------------------------------------------------------

  function JoinWith(parts: seq<string>, sep: string): string {
    if parts == [] then ""
    else if |parts| == 1 then parts[0]
    else JoinWith(parts[..|parts| - 1], sep) + sep + parts[|parts| - 1]
  }

  function PrintRow(row: seq<string>): string {
    "(" + JoinWith(row, ", ") + ")"
  }

  function PrintRows(rows: seq<seq<string>>): seq<string> {
    seq(|rows|, k requires 0 <= k < |rows| => PrintRow(rows[k]))
  }

  function PrintInsert(st: Insert): string {
    "INSERT INTO " + st.table + " (" + JoinWith(st.columns, ", ") + ") VALUES " + JoinWith(PrintRows(st.rows), ", ")
  }

  method CombineInserts(requests: seq<Request>) returns (sql: string)
    ensures sql == if requests == [] then "" else PrintInsert(Combined(requests))
  {
    if requests == [] {
      return "";
    }
    var first := requests[0];
    sql := "INSERT INTO " + first.table + " (" + JoinWith(first.columns, ", ") + ") VALUES ";
    var parts: seq<string> := [];
    for i := 0 to |requests|
      invariant parts == PrintRows(AllRows(requests[..i]))
    {
      var rows := requests[i].rows;
      for j := 0 to |rows|
        invariant parts == PrintRows(AllRows(requests[..i]) + rows[..j])
      {
        assert AllRows(requests[..i]) + rows[..j + 1] == AllRows(requests[..i]) + rows[..j] + [rows[j]];
        parts := parts + [PrintRow(rows[j])];
      }
      assert rows[..|rows|] == rows;
      assert requests[..i + 1][..i] == requests[..i];
    }
    assert requests[..|requests|] == requests;
    sql := sql + JoinWith(parts, ", ");
  }

  // ---- the text reads back -------------------------------------------------------------------

  /** A list between parentheses: pieces between commas, each but the first after a space. */
  function ReadList(s: string): seq<string> {
    var fields := T.Split(s, ',');
    seq(|fields|, k requires 0 <= k < |fields| => if k > 0 && fields[k] != [] then fields[k][1..] else fields[k])
  }

  /** The lists between parentheses, one after the other. */
  function ReadRows(s: string): seq<seq<string>>
    decreases |s|
  {
    T.SplitOnceMeaning(s, '(');
    var from := T.SplitOnce(s, '(');
    if from.None? then []
    else
      T.SplitOnceMeaning(from.value.1, ')');
      var to := T.SplitOnce(from.value.1, ')');
      if to.None? then [] else [ReadList(to.value.0)] + ReadRows(to.value.1)
  }

  const InsertInto := "INSERT INTO "

  function ReadInsert(s: string): Option<Insert> {
    if !(InsertInto <= s) then None
    else
      var table := T.SplitOnce(s[|InsertInto|..], '(');
      if table.None? || table.value.0 == [] then None
      else
        var columns := T.SplitOnce(table.value.1, ')');
        if columns.None? then None
        else
          var name := table.value.0[..|table.value.0| - 1];
          Some(Insert(name, ReadList(columns.value.0), ReadRows(columns.value.1)))
  }

  ghost predicate PlainText(s: string) {
    ',' !in s && '(' !in s && ')' !in s
  }

  ghost predicate PlainList(parts: seq<string>) {
    parts != [] && forall k :: 0 <= k < |parts| ==> PlainText(parts[k])
  }

  /** Names and values without commas and parentheses of their own. */
  ghost predicate PlainInsert(st: Insert) {
    PlainText(st.table) && PlainList(st.columns) && forall k :: 0 <= k < |st.rows| ==> PlainList(st.rows[k])
  }

  function Spaced(parts: seq<string>): seq<string> {
    seq(|parts|, k requires 0 <= k < |parts| => if k > 0 then " " + parts[k] else parts[k])
  }

  lemma {:induction false} JoinWithIsJoin(parts: seq<string>)
    requires parts != []
    ensures JoinWith(parts, ", ") == T.Join(Spaced(parts), ',')
  {
    var n := |parts| - 1;
    if n == 0 {
      assert Spaced(parts) == [parts[0]];
    } else {
      JoinWithIsJoin(parts[..n]);
      assert Spaced(parts) == Spaced(parts[..n]) + [" " + parts[n]];
      T.JoinAppend(Spaced(parts[..n]), " " + parts[n], ',');
      var front := JoinWith(parts[..n], ", ");
      assert front + ", " + parts[n] == front + "," + (" " + parts[n]);
    }
  }

  lemma {:induction false} JoinWithFirst(parts: seq<string>, sep: string)
    requires |parts| > 1
    ensures JoinWith(parts, sep) == parts[0] + sep + JoinWith(parts[1..], sep)
  {
    var n := |parts| - 1;
    if n == 1 {
      assert parts[..1] == [parts[0]] && parts[1..] == [parts[1]];
    } else {
      JoinWithFirst(parts[..n], sep);
      assert parts[..n][1..] == parts[1..][..n - 1];
    }
  }

  lemma {:induction false} JoinWithPlain(parts: seq<string>, c: char)
    requires c == '(' || c == ')'
    requires forall k :: 0 <= k < |parts| ==> PlainText(parts[k])
    ensures c !in JoinWith(parts, ", ")
  {
    if |parts| > 1 {
      JoinWithPlain(parts[..|parts| - 1], c);
    }
  }

  lemma ReadListBack(parts: seq<string>)
    requires PlainList(parts)
    ensures ReadList(JoinWith(parts, ", ")) == parts
  {
    hide T.Split, T.Join;
    JoinWithIsJoin(parts);
    var spaced := Spaced(parts);
    forall k | 0 <= k < |spaced| ensures ',' !in spaced[k] {
      assert PlainText(parts[k]);
    }
    T.SplitJoin(spaced, ',');
    assert forall k :: 0 < k < |parts| ==> spaced[k][1..] == parts[k];
  }

  lemma {:induction false} ReadRowsBack(before: string, rows: seq<seq<string>>)
    requires '(' !in before && forall k :: 0 <= k < |rows| ==> PlainList(rows[k])
    ensures ReadRows(before + JoinWith(PrintRows(rows), ", ")) == rows
    decreases |rows|
  {
    hide JoinWith, T.SplitOnce, ReadList, PlainList;
    var text := before + JoinWith(PrintRows(rows), ", ");
    if rows == [] {
      NoParts();
      assert PrintRows(rows) == [] && text == before;
      T.SplitOnceMeaning(text, '(');
    } else {
      var row := JoinWith(rows[0], ", ");
      PlainRow(rows[0]);
      ReadListBack(rows[0]);
      var after := if |rows| == 1 then "" else ", " + JoinWith(PrintRows(rows[1..]), ", ");
      FirstRow(rows);
      assert text == before + "(" + (row + ")" + after);
      T.SplitOnceAt(before, '(', row + ")" + after);
      T.SplitOnceAt(row, ')', after);
      if |rows| == 1 {
        T.SplitOnceMeaning("", '(');
        assert rows == [rows[0]] + [];
      } else {
        ReadRowsBack(", ", rows[1..]);
        assert rows == [rows[0]] + rows[1..];
      }
    }
  }

  lemma NoParts()
    ensures JoinWith([], ", ") == ""
  {
  }

  lemma OnePart(parts: seq<string>)
    requires |parts| == 1
    ensures JoinWith(parts, ", ") == parts[0]
  {
  }

  lemma PlainRow(row: seq<string>)
    requires PlainList(row)
    ensures '(' !in JoinWith(row, ", ") && ')' !in JoinWith(row, ", ")
  {
    JoinWithPlain(row, '(');
    JoinWithPlain(row, ')');
  }

  lemma FirstRow(rows: seq<seq<string>>)
    requires rows != []
    ensures var after := if |rows| == 1 then "" else ", " + JoinWith(PrintRows(rows[1..]), ", ");
            JoinWith(PrintRows(rows), ", ") == "(" + JoinWith(rows[0], ", ") + ")" + after
  {
    var parts := PrintRows(rows);
    if |rows| == 1 {
      OnePart(parts);
    } else {
      hide JoinWith;
      JoinWithFirst(parts, ", ");
      assert parts[1..] == PrintRows(rows[1..]);
    }
  }

  /** The text of a statement is read back as the statement, if its names and values have no commas and
      parentheses of their own. */
  lemma PrintReadsBack(st: Insert)
    requires PlainInsert(st)
    ensures ReadInsert(PrintInsert(st)) == Some(st)
  {
    hide JoinWith, T.SplitOnce, ReadList, ReadRows, PlainList;
    var columns, rows := JoinWith(st.columns, ", "), JoinWith(PrintRows(st.rows), ", ");
    var rest := PrintInsert(st)[|InsertInto|..];
    assert rest == (st.table + " ") + "(" + (columns + ")" + (" VALUES " + rows));
    T.SplitOnceAt(st.table + " ", '(', columns + ")" + (" VALUES " + rows));
    PlainRow(st.columns);
    T.SplitOnceAt(columns, ')', " VALUES " + rows);
    ReadListBack(st.columns);
    ReadRowsBack(" VALUES ", st.rows);
  }

  // ---- the batcher ---------------------------------------------------------------------------

  datatype AddAnswer = Ticket(id: nat) | Disabled | ShutDown

  datatype SealedBatch = SealedBatch(requests: seq<Request>, rowCount: nat, sql: string)

  class InsertBatcher {
    const config: Config
    var pending: map<Table, Pending>
    var rowsReceived: nat
    var rowsInserted: nat
    ghost var rowsFailed: nat
    var batchesFlushed: nat
    var flushFailures: nat
    var replies: seq<Reply>
    var nextId: nat
    var shutdown: bool

    ghost function View(): Shared
      reads this
    {
      Shared(pending, rowsReceived, rowsInserted, rowsFailed, batchesFlushed, flushFailures, replies, nextId, shutdown)
    }

    constructor (cfg: Config)
      ensures config == cfg && View() == Initial().shared
    {
      config := cfg;
      pending, rowsReceived, rowsInserted, rowsFailed := map[], 0, 0, 0;
      batchesFlushed, flushFailures, replies, nextId, shutdown := 0, 0, [], 0, false;
    }

    /** `PendingBatch::add` under the map's lock, and whether the batch is now due. */
    method AddToBatch(request: Request, waited: bool) returns (due: bool)
      modifies this
      ensures (View(), if due then Sealing(request.table) else Done)
           == Next(old(View()), Recorded(request), waited, config)
      ensures var p := if request.table in old(pending) then old(pending)[request.table] else Pending([], 0, 0);
              pending == old(pending)[request.table := Pending(
                p.requests + [request], p.rowCount + |request.rows|, p.byteCount + request.sqlLen)]
      ensures due <==>
              || pending[request.table].rowCount >= config.maxRows
              || pending[request.table].byteCount >= config.maxBytes
              || waited
    {
      var batch := if request.table in pending then pending[request.table] else EmptyBatch;
      batch := batch.(rowCount := batch.rowCount + |request.rows|);
      batch := batch.(byteCount := batch.byteCount + request.sqlLen);
      batch := batch.(requests := batch.requests + [request]);
      pending := pending[request.table := batch];
      due := batch.rowCount >= config.maxRows || batch.byteCount >= config.maxBytes || waited;
    }

    method SealBatch(table: Table) returns (r: Option<SealedBatch>)
      modifies this
      ensures (View(), if r.Some? then Sealed(r.value.requests, r.value.rowCount) else Done) == Seal(old(View()), table)
      ensures r.Some? <==> table in old(pending) && old(pending)[table].requests != []
      ensures r.Some? ==>
                && r.value.requests == old(pending)[table].requests && r.value.rowCount == old(pending)[table].rowCount
                && r.value.requests != [] && r.value.sql == PrintInsert(Combined(r.value.requests))
      ensures pending == old(pending) - {table}
    {
      if table !in pending {
        return None;
      }
      var batch := pending[table];
      pending := pending - {table};
      if batch.requests == [] {
        return None;
      }
      var sql := CombineInserts(batch.requests);
      return Some(SealedBatch(batch.requests, batch.rowCount, sql));
    }

    /** `execute_sealed`, given the outcome of the combined INSERT. */
    method ExecuteSealed(sealed: SealedBatch, ok: bool)
      modifies this
      ensures var settled := Settle(old(View()), sealed.rowCount, ok);
              View() == settled.(replies := old(replies) + Answered(sealed.requests, ok))
      ensures batchesFlushed == old(batchesFlushed) + 1
      ensures flushFailures == old(flushFailures) + if ok then 0 else 1
      ensures rowsInserted == old(rowsInserted) + if ok then sealed.rowCount else 0
      ensures |replies| == |old(replies)| + |sealed.requests| && old(replies) <= replies
      ensures forall k :: 0 <= k < |sealed.requests| ==>
                replies[|old(replies)| + k]
                == Reply(sealed.requests[k], if ok then |sealed.requests[k].rows| else 0, ok)
    {
      batchesFlushed := batchesFlushed + 1;
      if ok {
        rowsInserted := rowsInserted + sealed.rowCount;
      } else {
        flushFailures := flushFailures + 1;
        rowsFailed := rowsFailed + sealed.rowCount;
      }
      for k := 0 to |sealed.requests|
        invariant var settled := Settle(old(View()), sealed.rowCount, ok);
                  View() == settled.(replies := old(replies) + Answered(sealed.requests, ok)[..k])
      {
        var r := sealed.requests[k];
        replies := replies + [Reply(r, if ok then |r.rows| else 0, ok)];
      }
      assert Answered(sealed.requests, ok)[..|sealed.requests|] == Answered(sealed.requests, ok);
    }

    /** `add`, up to the point where a due batch is sealed; executing it is the spawned task's work. */
    method Add(table: Table, columns: seq<string>, rows: seq<seq<string>>, sqlLen: nat, waited: bool)
      returns (answer: AddAnswer, sealed: Option<SealedBatch>)
      modifies this
      ensures answer == if !config.enabled then Disabled
                        else if old(shutdown) then ShutDown
                        else if config.batchTables != [] && table !in config.batchTables then Disabled
                        else Ticket(old(nextId))
      ensures answer.Ticket? <==> Accepts(config, old(View()), table)
      ensures !answer.Ticket? ==> View() == old(View()) && sealed.None?
      ensures answer.Ticket? ==>
                var p := if table in old(pending) then old(pending)[table] else Pending([], 0, 0);
                var all := p.requests + [Request(old(nextId), table, columns, rows, sqlLen)];
                var rowCount, byteCount := p.rowCount + |rows|, p.byteCount + sqlLen;
                if rowCount >= config.maxRows || byteCount >= config.maxBytes || waited then
                  && pending == old(pending) - {table}
                  && sealed == Some(SealedBatch(all, rowCount, PrintInsert(Combined(all))))
                else
                  pending == old(pending)[table := Pending(all, rowCount, byteCount)] && sealed.None?
      ensures answer.Ticket? ==>
                var request := Request(old(nextId), table, columns, rows, sqlLen);
                var sh0 := old(View()).(nextId := old(nextId) + 1, rowsReceived := old(rowsReceived) + |rows|);
                var (sh1, task1) := Next(sh0, Recorded(request), waited, config);
                var (sh2, task2) := Next(sh1, task1, true, config);
                && View() == sh2
                && task2 == if sealed.Some? then Sealed(sealed.value.requests, sealed.value.rowCount) else Done
    {
      hide Seal, Enqueue, ShouldFlush, PrintInsert, Combined;
      sealed := None;
      if !config.enabled {
        return Disabled, sealed;
      }
      if shutdown {
        return ShutDown, sealed;
      }
      if config.batchTables != [] && table !in config.batchTables {
        return Disabled, sealed;
      }
      var request := Request(nextId, table, columns, rows, sqlLen);
      answer := Ticket(nextId);
      nextId := nextId + 1;
      rowsReceived := rowsReceived + |rows|;
      var due := AddToBatch(request, waited);
      if due {
        sealed := SealBatch(table);
      }
    }
  }
}
