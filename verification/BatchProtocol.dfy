/** The INSERT batcher as a protocol: adding a request, sealing a batch, executing it and answering its
    requests are separate steps, and any number of calls interleave. */
module BatchProtocol {
  import opened Sums

  type Table = string

  /** `sqlLen` is the length of the original statement, the estimate of its size. */
  datatype Request = Request(id: nat, table: Table, columns: seq<string>, rows: seq<seq<string>>, sqlLen: nat)

  datatype Pending = Pending(requests: seq<Request>, rowCount: nat, byteCount: nat)

  datatype Config = Config(enabled: bool, batchTables: seq<Table>, maxRows: nat, maxBytes: nat)

  /** Where a call is: adding a request, about to seal, holding a sealed batch, or answering it. */
  datatype Task =
    | Done
    | Adding(request: Request)
    | Recorded(request: Request)
    | Sealing(table: Table)
    | Sealed(requests: seq<Request>, rowCount: nat)
    | Answering(requests: seq<Request>, ok: bool)

  datatype Reply = Reply(request: Request, rowsInserted: nat, success: bool)

  datatype Shared = Shared(
    pending: map<Table, Pending>,
    rowsReceived: nat,
    rowsInserted: nat,
    rowsFailed: nat,       // not a statistic of the code: the rows of the batches that failed
    batchesFlushed: nat,
    flushFailures: nat,
    replies: seq<Reply>,
    nextId: nat,
    shutdown: bool)

  datatype State = State(shared: Shared, tasks: seq<Task>)

  /** `Add` is a call with its arguments, `Flush` is `flush_batch` on a table (as called by `flush_all`
      and the timer as well), and `Step(i, yes)` is the next action of task `i`: `yes` says that a
      batch has waited long enough, or that the combined INSERT succeeded. */
  datatype Event =
    | Add(table: Table, columns: seq<string>, rows: seq<seq<string>>, sqlLen: nat)
    | Flush(table: Table)
    | Shutdown
    | Step(i: nat, yes: bool)

  function Rows(r: Request): nat {
    |r.rows|
  }

  function Bytes(r: Request): nat {
    r.sqlLen
  }

  predicate Accepts(cfg: Config, sh: Shared, table: Table) {
    cfg.enabled && !sh.shutdown && (cfg.batchTables == [] || table in cfg.batchTables)
  }

  const EmptyBatch := Pending([], 0, 0)

  function AddTo(p: Pending, r: Request): Pending {
    Pending(p.requests + [r], p.rowCount + Rows(r), p.byteCount + Bytes(r))
  }

  predicate ShouldFlush(cfg: Config, p: Pending, waited: bool) {
    p.rowCount >= cfg.maxRows || p.byteCount >= cfg.maxBytes || waited
  }

  function Batch(sh: Shared, table: Table): Pending {
    if table in sh.pending then sh.pending[table] else EmptyBatch
  }

  function Enqueue(sh: Shared, r: Request): Shared {
    sh.(pending := sh.pending[r.table := AddTo(Batch(sh, r.table), r)])
  }

  /** A sealed batch leaves the map; an empty one is just dropped. */
  function Seal(sh: Shared, table: Table): (Shared, Task) {
    if table !in sh.pending then (sh, Done)
    else
      var p := sh.pending[table];
      (sh.(pending := sh.pending - {table}), if p.requests == [] then Done else Sealed(p.requests, p.rowCount))
  }

  /** The statistics after the combined INSERT has run, or failed. */
  function Settle(sh: Shared, rowCount: nat, ok: bool): Shared {
    if ok then sh.(batchesFlushed := sh.batchesFlushed + 1, rowsInserted := sh.rowsInserted + rowCount)
    else
      sh.(batchesFlushed := sh.batchesFlushed + 1, flushFailures := sh.flushFailures + 1,
          rowsFailed := sh.rowsFailed + rowCount)
  }

  function ReplyTo(r: Request, ok: bool): Reply {
    Reply(r, if ok then Rows(r) else 0, ok)
  }

  function Next(sh: Shared, t: Task, yes: bool, cfg: Config): (Shared, Task) {
    match t
    case Done => (sh, Done)
    case Adding(r) => (sh.(rowsReceived := sh.rowsReceived + Rows(r)), Recorded(r))
    case Recorded(r) =>
      var sh' := Enqueue(sh, r);
      (sh', if ShouldFlush(cfg, sh'.pending[r.table], yes) then Sealing(r.table) else Done)
    case Sealing(table) => Seal(sh, table)
    case Sealed(rs, n) => (Settle(sh, n, yes), Answering(rs, yes))
    case Answering(rs, ok) =>
      if rs == [] then (sh, Done)
      else (sh.(replies := sh.replies + [ReplyTo(rs[0], ok)]), Answering(rs[1..], ok))
  }

  /** The request that an `add` makes. */
  function Requested(s: State, e: Event): Request
    requires e.Add?
  {
    Request(s.shared.nextId, e.table, e.columns, e.rows, e.sqlLen)
  }

  function Apply(s: State, e: Event, cfg: Config): State {
    match e
    case Add(table, _, _, _) =>
      if Accepts(cfg, s.shared, table) then
        State(s.shared.(nextId := s.shared.nextId + 1), s.tasks + [Adding(Requested(s, e))])
      else s
    case Flush(table) => s.(tasks := s.tasks + [Sealing(table)])
    case Shutdown => s.(shared := s.shared.(shutdown := true))
    case Step(i, yes) =>
      if i < |s.tasks| then
        var (sh, t) := Next(s.shared, s.tasks[i], yes, cfg);
        State(sh, s.tasks[i := t])
      else s
  }

  function Initial(): State {
    State(Shared(map[], 0, 0, 0, 0, 0, [], 0, false), [])
  }

  function Run(events: seq<Event>, cfg: Config): State {
    if events == [] then Initial()
    else Apply(Run(events[..|events| - 1], cfg), events[|events| - 1], cfg)
  }

  // ---- where the requests are ----------------------------------------------------------------

  type Weight = Request -> nat

  function BeingAdded(t: Task): seq<Request> {
    if t.Adding? || t.Recorded? then [t.request] else []
  }

  function InSealed(t: Task): seq<Request> {
    if t.Sealed? || t.Answering? then t.requests else []
  }

  ghost function OnAdding(w: Weight): Task -> nat {
    (t: Task) => SeqSum(BeingAdded(t), w)
  }

  ghost function OnSealed(w: Weight): Task -> nat {
    (t: Task) => SeqSum(InSealed(t), w)
  }

  ghost function OnPending(w: Weight): Pending -> nat {
    (p: Pending) => SeqSum(p.requests, w)
  }

  ghost function OnReply(w: Weight): Reply -> nat {
    (r: Reply) => w(r.request)
  }

  /** The four places: being added, pending, in a batch that has left the map, answered. */
  ghost function Weigh(s: State, w: Weight): nat {
    SeqSum(s.tasks, OnAdding(w)) + MapSum(s.shared.pending, OnPending(w))
    + SeqSum(s.tasks, OnSealed(w)) + SeqSum(s.shared.replies, OnReply(w))
  }

  ghost function ById(id: nat): Weight {
    (r: Request) => if r.id == id then 1 else 0
  }

  /** What a single task and the shared part weigh together. */
  ghost function Local(sh: Shared, t: Task, w: Weight): nat {
    OnAdding(w)(t) + MapSum(sh.pending, OnPending(w)) + OnSealed(w)(t) + SeqSum(sh.replies, OnReply(w))
  }

  lemma EnqueueWeight(sh: Shared, r: Request, w: Weight)
    ensures MapSum(Enqueue(sh, r).pending, OnPending(w)) == MapSum(sh.pending, OnPending(w)) + w(r)
  {
    var p := Batch(sh, r.table);
    MapSumInsert(sh.pending, r.table, AddTo(p, r), OnPending(w));
    SeqSumAppend(p.requests, r, w);
  }

  lemma SealWeight(sh: Shared, table: Table, w: Weight)
    ensures Local(Seal(sh, table).0, Seal(sh, table).1, w) == Local(sh, Sealing(table), w)
  {
    if table in sh.pending {
      MapSumRemove(sh.pending, table, OnPending(w));
    }
  }

  /** A step hands requests on and never loses, copies or makes one. */
  lemma NextWeight(sh: Shared, t: Task, yes: bool, cfg: Config, w: Weight)
    ensures Local(Next(sh, t, yes, cfg).0, Next(sh, t, yes, cfg).1, w) == Local(sh, t, w)
  {
    hide Seal, Enqueue, MapSum, SeqSum, ShouldFlush;
    SeqSumEmpty(w);
    match t
    case Done =>
    case Adding(r) =>
    case Recorded(r) =>
      EnqueueWeight(sh, r, w);
      SeqSumSingle(r, w);
      EnqueueKeeps(sh, r);
    case Sealing(table) => SealWeight(sh, table, w);
    case Sealed(rs, n) =>
    case Answering(rs, ok) =>
      if rs != [] {
        AnswerWeight(sh, rs, ok, w);
      }
  }

  /** Answering the first request moves it from the sealed batch to the replies. */
  lemma AnswerWeight(sh: Shared, rs: seq<Request>, ok: bool, w: Weight)
    requires rs != []
    ensures SeqSum(rs, w) == w(rs[0]) + SeqSum(rs[1..], w)
    ensures SeqSum(sh.replies + [ReplyTo(rs[0], ok)], OnReply(w)) == SeqSum(sh.replies, OnReply(w)) + w(rs[0])
  {
    assert rs == [rs[0]] + rs[1..];
    SeqSumPrepend(rs[0], rs[1..], w);
    SeqSumAppend(sh.replies, ReplyTo(rs[0], ok), OnReply(w));
  }

  lemma EnqueueKeeps(sh: Shared, r: Request)
    ensures Enqueue(sh, r) == sh.(pending := Enqueue(sh, r).pending)
  {
  }

  lemma StepWeight(s: State, e: Event, cfg: Config, w: Weight)
    ensures var s' := Apply(s, e, cfg);
            Weigh(s', w) == Weigh(s, w)
              + if e.Add? && Accepts(cfg, s.shared, e.table) then w(Requested(s, e)) else 0
  {
    hide MapSum, Next;
    var s' := Apply(s, e, cfg);
    match e
    case Add(_, _, _, _) =>
      if Accepts(cfg, s.shared, e.table) {
        var t := s'.tasks[|s.tasks|];
        SeqSumAppend(s.tasks, t, OnAdding(w));
        SeqSumAppend(s.tasks, t, OnSealed(w));
        SeqSumSingle(t.request, w);
      }
    case Flush(table) =>
      SeqSumAppend(s.tasks, Sealing(table), OnAdding(w));
      SeqSumAppend(s.tasks, Sealing(table), OnSealed(w));
    case Shutdown =>
    case Step(i, yes) =>
      if i < |s.tasks| {
        SeqSumUpdate(s.tasks, i, s'.tasks[i], OnAdding(w));
        SeqSumUpdate(s.tasks, i, s'.tasks[i], OnSealed(w));
        NextWeight(s.shared, s.tasks[i], yes, cfg, w);
      }
  }

  /** Every accepted request is in exactly one of the four places, and no other request is anywhere. */
  ghost predicate ExactlyOnce(s: State) {
    forall id: nat :: Weigh(s, ById(id)) == if id < s.shared.nextId then 1 else 0
  }

  lemma NextIdStep(s: State, e: Event, cfg: Config)
    ensures Apply(s, e, cfg).shared.nextId
         == s.shared.nextId + if e.Add? && Accepts(cfg, s.shared, e.table) then 1 else 0
  {
  }

  lemma {:induction false} RequestsConserved(events: seq<Event>, cfg: Config)
    ensures ExactlyOnce(Run(events, cfg))
  {
    hide Weigh, Apply;
    if events != [] {
      var front, e := Run(events[..|events| - 1], cfg), events[|events| - 1];
      RequestsConserved(events[..|events| - 1], cfg);
      NextIdStep(front, e, cfg);
      forall id: nat ensures Weigh(Run(events, cfg), ById(id)) == if id < Run(events, cfg).shared.nextId then 1 else 0 {
        StepWeight(front, e, cfg, ById(id));
      }
    } else {
      forall id: nat ensures Weigh(Initial(), ById(id)) == 0 {
        NothingYet(ById(id));
      }
    }
  }

  lemma NothingYet(w: Weight)
    ensures Weigh(Initial(), w) == 0
  {
  }

  /** So no request is answered twice. */
  lemma AtMostOneReply(events: seq<Event>, cfg: Config, i: nat, j: nat)
    requires i < j < |Run(events, cfg).shared.replies|
    ensures Run(events, cfg).shared.replies[i].request.id != Run(events, cfg).shared.replies[j].request.id
  {
    RequestsConserved(events, cfg);
    hide Run, SeqSum, MapSum;
    var s := Run(events, cfg);
    var id, rs := s.shared.replies[i].request.id, s.shared.replies;
    var f := OnReply(ById(id));
    assert Weigh(s, ById(id)) <= 1;
    assert rs == rs[..j] + rs[j..];
    SeqSumConcat(rs[..j], rs[j..], f);
    assert rs[..j][i] == rs[i] && rs[j..][0] == rs[j];
    SeqSumAtLeast(rs[..j], i, f);
    SeqSumAtLeast(rs[j..], 0, f);
  }

  // ---- the row counts ------------------------------------------------------------------------

  ghost predicate PendingOk(p: Pending) {
    p.rowCount == SeqSum(p.requests, Rows) && p.byteCount == SeqSum(p.requests, Bytes)
  }

  /** Rows that have been received and that a call still holds uncounted. */
  ghost function RowsHeld(t: Task): nat {
    match t
    case Recorded(r) => Rows(r)
    case Sealed(_, n) => n
    case _ => 0
  }

  /** Rows of a batch that was inserted and whose requests have not all been answered. */
  ghost function RowsUnanswered(t: Task): nat {
    if t.Answering? && t.ok then SeqSum(t.requests, Rows) else 0
  }

  function PendingRows(p: Pending): nat {
    p.rowCount
  }

  function ReplyRows(r: Reply): nat {
    r.rowsInserted
  }

  ghost predicate TaskOk(t: Task) {
    t.Sealed? ==> t.rowCount == SeqSum(t.requests, Rows)
  }

  /** The counts of the pending batches and of the sealed ones are the sums over their requests; rows
      received are rows being added, pending, sealed, inserted or failed; and what the replies report as
      inserted is what the statistics say, up to the answers under way. */
  ghost predicate RowsInv(s: State) {
    && (forall table :: table in s.shared.pending ==> PendingOk(s.shared.pending[table]))
    && (forall i :: 0 <= i < |s.tasks| ==> TaskOk(s.tasks[i]))
    && s.shared.rowsReceived
       == SeqSum(s.tasks, RowsHeld) + MapSum(s.shared.pending, PendingRows)
          + s.shared.rowsInserted + s.shared.rowsFailed
    && s.shared.rowsInserted == SeqSum(s.shared.replies, ReplyRows) + SeqSum(s.tasks, RowsUnanswered)
  }

  /** The same for the shared part and one task, where the other tasks hold `held` and `unanswered`. */
  ghost predicate LocalRows(sh: Shared, t: Task, held: nat, unanswered: nat) {
    && (forall table :: table in sh.pending ==> PendingOk(sh.pending[table]))
    && TaskOk(t)
    && sh.rowsReceived == held + RowsHeld(t) + MapSum(sh.pending, PendingRows) + sh.rowsInserted + sh.rowsFailed
    && sh.rowsInserted == SeqSum(sh.replies, ReplyRows) + unanswered + RowsUnanswered(t)
  }

  lemma EnqueueRows(sh: Shared, r: Request, held: nat, unanswered: nat)
    requires LocalRows(sh, Recorded(r), held, unanswered)
    ensures LocalRows(Enqueue(sh, r), Done, held, unanswered)
  {
    assert PendingOk(EmptyBatch);
    hide SeqSum, MapSum;
    var p := Batch(sh, r.table);
    SeqSumAppend(p.requests, r, Rows);
    SeqSumAppend(p.requests, r, Bytes);
    MapSumInsert(sh.pending, r.table, AddTo(p, r), PendingRows);
  }

  lemma SealRows(sh: Shared, table: Table, held: nat, unanswered: nat)
    requires LocalRows(sh, Sealing(table), held, unanswered)
    ensures LocalRows(Seal(sh, table).0, Seal(sh, table).1, held, unanswered)
  {
    hide MapSum;
    if table in sh.pending {
      MapSumRemove(sh.pending, table, PendingRows);
    }
  }

  lemma AnswerRows(sh: Shared, rs: seq<Request>, ok: bool, held: nat, unanswered: nat, cfg: Config)
    requires LocalRows(sh, Answering(rs, ok), held, unanswered)
    ensures var (sh', t') := Next(sh, Answering(rs, ok), true, cfg); LocalRows(sh', t', held, unanswered)
  {
    hide MapSum, SeqSum, PendingOk;
    SeqSumEmpty(Rows);
    if rs != [] {
      assert rs == [rs[0]] + rs[1..];
      SeqSumPrepend(rs[0], rs[1..], Rows);
      SeqSumAppend(sh.replies, ReplyTo(rs[0], ok), ReplyRows);
    }
  }

  lemma NextRows(sh: Shared, t: Task, yes: bool, cfg: Config, held: nat, unanswered: nat)
    requires LocalRows(sh, t, held, unanswered)
    ensures LocalRows(Next(sh, t, yes, cfg).0, Next(sh, t, yes, cfg).1, held, unanswered)
  {
    hide Seal, Enqueue, MapSum, SeqSum;
    match t
    case Done =>
    case Adding(r) =>
    case Recorded(r) => EnqueueRows(sh, r, held, unanswered);
    case Sealing(table) => SealRows(sh, table, held, unanswered);
    case Sealed(rs, n) =>
    case Answering(rs, ok) => AnswerRows(sh, rs, ok, held, unanswered, cfg);
  }

  lemma RowsStep(s: State, e: Event, cfg: Config)
    requires RowsInv(s)
    ensures RowsInv(Apply(s, e, cfg))
  {
    hide Next, MapSum, SeqSum;
    var s' := Apply(s, e, cfg);
    if |s'.tasks| > |s.tasks| {
      SeqSumAppend(s.tasks, s'.tasks[|s.tasks|], RowsHeld);
      SeqSumAppend(s.tasks, s'.tasks[|s.tasks|], RowsUnanswered);
    } else if e.Step? && e.i < |s.tasks| {
      var t, t' := s.tasks[e.i], s'.tasks[e.i];
      SeqSumAtLeast(s.tasks, e.i, RowsHeld);
      SeqSumAtLeast(s.tasks, e.i, RowsUnanswered);
      SeqSumUpdate(s.tasks, e.i, t', RowsHeld);
      SeqSumUpdate(s.tasks, e.i, t', RowsUnanswered);
      NextRows(s.shared, t, e.yes, cfg,
               SeqSum(s.tasks, RowsHeld) - RowsHeld(t), SeqSum(s.tasks, RowsUnanswered) - RowsUnanswered(t));
    }
  }

  lemma {:induction false} RowsConserved(events: seq<Event>, cfg: Config)
    ensures RowsInv(Run(events, cfg))
  {
    if events != [] {
      RowsConserved(events[..|events| - 1], cfg);
      RowsStep(Run(events[..|events| - 1], cfg), events[|events| - 1], cfg);
    }
  }

  // ---- a batch is for one table --------------------------------------------------------------

  ghost predicate ForTable(requests: seq<Request>, table: Table) {
    forall k :: 0 <= k < |requests| ==> requests[k].table == table
  }

  ghost predicate OneTable(requests: seq<Request>) {
    requests != [] && ForTable(requests, requests[0].table)
  }

  /** A pending batch holds requests for its own table; a batch that was sealed is not empty. */
  ghost predicate TablesInv(s: State) {
    && (forall table :: table in s.shared.pending ==> ForTable(s.shared.pending[table].requests, table))
    && (forall i :: 0 <= i < |s.tasks| && s.tasks[i].Sealed? ==> OneTable(s.tasks[i].requests))
  }

  lemma TablesNext(sh: Shared, t: Task, yes: bool, cfg: Config)
    requires TablesInv(State(sh, [t]))
    ensures TablesInv(State(Next(sh, t, yes, cfg).0, [Next(sh, t, yes, cfg).1]))
  {
    hide ShouldFlush;
    if t.Recorded? {
      assert ForTable(AddTo(Batch(sh, t.request.table), t.request).requests, t.request.table);
    }
  }

  lemma {:induction false} BatchesAreForOneTable(events: seq<Event>, cfg: Config)
    ensures TablesInv(Run(events, cfg))
  {
    hide Next, ForTable, Accepts;
    if events != [] {
      var s, e := Run(events[..|events| - 1], cfg), events[|events| - 1];
      BatchesAreForOneTable(events[..|events| - 1], cfg);
      if e.Step? && e.i < |s.tasks| {
        assert TablesInv(State(s.shared, [s.tasks[e.i]]));
        TablesNext(s.shared, s.tasks[e.i], e.yes, cfg);
        var (sh, t) := Next(s.shared, s.tasks[e.i], e.yes, cfg);
        assert [t][0] == t;
      }
    }
  }
}
