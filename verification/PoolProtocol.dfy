/** The connection pool as a protocol: every call is a slot that advances by one lock section or
    one atomic operation at a time, in any interleaving with the others. */
module PoolProtocol {
  import opened Sums

  type NodeId = nat

  datatype ConnectionState = Idle | InUse | Validating | Closed

  /** A connection. `permit` names the semaphore whose permit travels inside it; each registration
      of a node has a semaphore of its own. */
  datatype Connection = Connection(id: nat, node: NodeId, permit: nat, state: ConnectionState)

  datatype NodePool = NodePool(connections: seq<Connection>, semaphore: nat)

  /** What the calls share: the pools behind the lock, the free permits of every semaphore made
      so far, the two gauges and the supply of fresh connection ids. */
  datatype Shared = Shared(
    pools: map<NodeId, NodePool>,
    permits: seq<nat>,
    total: nat,
    active: nat,
    nextId: nat)

  /** Where a call is. `Popped` to `Activated` are inside `get_connection`, `CheckedOut` is
      between calls, and the rest are inside `return_connection`, `close_connection`,
      `remove_node`, `evict_idle` and `close_all`. */
  datatype Slot =
    | Done
    | Popped(conn: Connection, node: NodeId, sem: nat)
    | Recycling(conn: Connection, node: NodeId, sem: nat)
    | Waiting(node: NodeId, sem: nat)
    | Permitted(node: NodeId, sem: nat)
    | Created(conn: Connection)
    | Activated(conn: Connection)
    | CheckedOut(conn: Connection)
    | Returning(conn: Connection)
    | Returned(conn: Connection)
    | Closing(conn: Connection)
    | ClosingTotal(conn: Connection)
    | Dropping(conns: seq<Connection>)
    | Evicting(todo: seq<NodeId>, expired: set<nat>, conns: seq<Connection>, evicted: nat)
    | Clearing(todo: seq<NodeId>, conns: seq<Connection>, cleared: nat)
    | ZeroActive

  datatype State = State(shared: Shared, slots: seq<Slot>)

  /** One move of the system. `Advance(i, ok)` lets slot `i` do its next atomic action; `ok` is the
      answer of the world where the code asks one (fresh and alive? permit before the timeout?
      connected?). */
  datatype Event =
    | AddNode(node: NodeId)
    | Get(node: NodeId)
    | Return(i: nat)
    | Close(i: nat)
    | Remove(node: NodeId)
    | Evict(order: seq<NodeId>, expired: set<nat>)
    | CloseAll(order: seq<NodeId>)
    | Advance(i: nat, ok: bool)

  // ---- the operations on the shared part -----------------------------------------------------

  function SatSub(gauge: nat, n: nat): nat {
    if gauge <= n then 0 else gauge - n
  }

  /** Dropping a connection or a bare permit gives the permit back to its own semaphore. */
  function Release(permits: seq<nat>, sem: nat): seq<nat> {
    if sem < |permits| then permits[sem := permits[sem] + 1] else permits
  }

  function AddPool(sh: Shared, node: NodeId, max: nat): Shared {
    if node in sh.pools then sh
    else sh.(pools := sh.pools[node := NodePool([], |sh.permits|)], permits := sh.permits + [max])
  }

  /** The position of the first connection marked idle, or the length if there is none. */
  function FirstIdle(conns: seq<Connection>): (k: nat)
    ensures k <= |conns|
    ensures forall j :: 0 <= j < k ==> !conns[j].state.Idle?
    ensures k < |conns| ==> conns[k].state.Idle?
  {
    if conns == [] || conns[0].state.Idle? then 0 else 1 + FirstIdle(conns[1..])
  }

  /** Removal in constant time: the last element takes the place of the removed one. */
  function SwapRemove(conns: seq<Connection>, k: nat): seq<Connection>
    requires k < |conns|
  {
    conns[k := conns[|conns| - 1]][..|conns| - 1]
  }

  /** What `retain` keeps and what it drops. */
  function Kept(conns: seq<Connection>, expired: set<nat>): seq<Connection> {
    if conns == [] then []
    else
      var rest := Kept(conns[..|conns| - 1], expired);
      var last := conns[|conns| - 1];
      if last.id in expired then rest else rest + [last]
  }

  function Expired(conns: seq<Connection>, expired: set<nat>): seq<Connection> {
    if conns == [] then []
    else
      var rest := Expired(conns[..|conns| - 1], expired);
      var last := conns[|conns| - 1];
      if last.id in expired then rest + [last] else rest
  }

  function SetIdle(sh: Shared, node: NodeId, conns: seq<Connection>): Shared
    requires node in sh.pools
  {
    sh.(pools := sh.pools[node := sh.pools[node].(connections := conns)])
  }

  // ---- one step ------------------------------------------------------------------------------

  /** The first lock section of `get_connection`. */
  function BeginGet(sh: Shared, node: NodeId): (Shared, Slot) {
    if node !in sh.pools then (sh, Done)
    else
      var pool := sh.pools[node];
      var k := FirstIdle(pool.connections);
      if k == |pool.connections| then (sh, Waiting(node, pool.semaphore))
      else
        (SetIdle(sh, node, SwapRemove(pool.connections, k)), Popped(pool.connections[k], node, pool.semaphore))
  }

  /** `remove_node`: the pool leaves the map, its connections are uncounted, then dropped. */
  function BeginRemove(sh: Shared, node: NodeId): (Shared, Slot) {
    if node !in sh.pools then (sh, Done)
    else
      var conns := sh.pools[node].connections;
      (sh.(pools := sh.pools - {node}, total := SatSub(sh.total, |conns|)), Dropping(conns))
  }

  /** The last lock section of `return_connection`. */
  function PutBack(sh: Shared, c: Connection): (Shared, Slot) {
    if c.node in sh.pools then
      (SetIdle(sh, c.node, sh.pools[c.node].connections + [c.(state := Idle)]), Done)
    else (sh.(total := SatSub(sh.total, 1)), Dropping([c]))
  }

  /** `evict_idle`: a pool's expired connections are dropped one by one; when all pools are done,
      the gauge is lowered by the number evicted. */
  function EvictMove(sh: Shared, sl: Slot): (Shared, Slot)
    requires sl.Evicting?
  {
    if sl.conns != [] then
      (sh.(permits := Release(sh.permits, sl.conns[0].permit)),
       Evicting(sl.todo, sl.expired, sl.conns[1..], sl.evicted))
    else if sl.todo == [] then (sh.(total := SatSub(sh.total, sl.evicted)), Done)
    else if sl.todo[0] !in sh.pools then (sh, Evicting(sl.todo[1..], sl.expired, [], sl.evicted))
    else
      var conns := sh.pools[sl.todo[0]].connections;
      var out := Expired(conns, sl.expired);
      (SetIdle(sh, sl.todo[0], Kept(conns, sl.expired)),
       Evicting(sl.todo[1..], sl.expired, out, sl.evicted + |out|))
  }

  /** `close_all`: the pools are cleared one by one, then both gauges are set to zero. */
  function ClearMove(sh: Shared, sl: Slot): (Shared, Slot)
    requires sl.Clearing?
  {
    if sl.conns != [] then
      (sh.(permits := Release(sh.permits, sl.conns[0].permit)), Clearing(sl.todo, sl.conns[1..], sl.cleared))
    else if sl.todo == [] then (sh.(total := 0), ZeroActive)
    else if sl.todo[0] !in sh.pools then (sh, Clearing(sl.todo[1..], [], sl.cleared))
    else
      var conns := sh.pools[sl.todo[0]].connections;
      (SetIdle(sh, sl.todo[0], []), Clearing(sl.todo[1..], conns, sl.cleared + |conns|))
  }

  /** The next atomic action of a call in progress. */
  function Next(sh: Shared, sl: Slot, ok: bool): (Shared, Slot) {
    match sl
    case Done => (sh, sl)
    case CheckedOut(_) => (sh, sl)
    case Popped(c, node, sem) =>
      if ok then (sh.(active := sh.active + 1), CheckedOut(c.(state := InUse)))
      else (sh.(total := SatSub(sh.total, 1)), Recycling(c, node, sem))
    case Recycling(c, node, sem) => (sh.(permits := Release(sh.permits, c.permit)), Waiting(node, sem))
    case Waiting(node, sem) =>
      if !ok then (sh, Done)
      else if sem < |sh.permits| && sh.permits[sem] > 0 then
        (sh.(permits := sh.permits[sem := sh.permits[sem] - 1]), Permitted(node, sem))
      else (sh, sl)
    case Permitted(node, sem) =>
      if ok then (sh.(nextId := sh.nextId + 1), Created(Connection(sh.nextId, node, sem, InUse)))
      else (sh.(permits := Release(sh.permits, sem)), Done)
    case Created(c) => (sh.(active := sh.active + 1), Activated(c))
    case Activated(c) => (sh.(total := sh.total + 1), CheckedOut(c))
    case Returning(c) => (sh.(active := SatSub(sh.active, 1)), Returned(c))
    case Returned(c) => PutBack(sh, c)
    case Closing(c) => (sh.(active := SatSub(sh.active, 1)), ClosingTotal(c))
    case ClosingTotal(c) => (sh.(total := SatSub(sh.total, 1)), Dropping([c]))
    case Dropping(cs) =>
      if cs == [] then (sh, Done)
      else (sh.(permits := Release(sh.permits, cs[0].permit)), Dropping(cs[1..]))
    case Evicting(_, _, _, _) => EvictMove(sh, sl)
    case Clearing(_, _, _) => ClearMove(sh, sl)
    case ZeroActive => (sh.(active := 0), Done)
  }

  /** An event changes the shared part and one slot. A call that begins starts from `Done`. */
  function Move(sh: Shared, sl: Slot, e: Event, max: nat): (Shared, Slot) {
    match e
    case AddNode(node) => (AddPool(sh, node, max), sl)
    case Get(node) => BeginGet(sh, node)
    case Remove(node) => BeginRemove(sh, node)
    case Evict(order, expired) => (sh, Evicting(order, expired, [], 0))
    case CloseAll(order) => (sh, Clearing(order, [], 0))
    case Return(_) => (sh, if sl.CheckedOut? then Returning(sl.conn) else sl)
    case Close(_) => (sh, if sl.CheckedOut? then Closing(sl.conn) else sl)
    case Advance(_, ok) => Next(sh, sl, ok)
  }

  predicate Begins(e: Event) {
    !e.Return? && !e.Close? && !e.Advance?
  }

  /** One event; an event about a slot that does not exist leaves the state as it is. */
  function Apply(s: State, e: Event, max: nat): State {
    if Begins(e) then
      var (sh, sl) := Move(s.shared, Done, e, max);
      State(sh, s.slots + [sl])
    else if e.i < |s.slots| then
      var (sh, sl) := Move(s.shared, s.slots[e.i], e, max);
      State(sh, s.slots[e.i := sl])
    else s
  }

  function Initial(): State {
    State(Shared(map[], [], 0, 0, 0), [])
  }

  /** The state after a whole schedule. */
  function Run(events: seq<Event>, max: nat): State {
    if events == [] then Initial()
    else Apply(Run(events[..|events| - 1], max), events[|events| - 1], max)
  }

  // ---- weighing the connections in the system ------------------------------------------------

  /** A weight looks at a connection's id and permit, the parts that never change. */
  type Weight = (nat, nat) -> nat

  ghost function OnConnection(w: Weight): Connection -> nat {
    (c: Connection) => w(c.id, c.permit)
  }

  /** The connections in the hand of a slot. */
  function Held(slot: Slot): seq<Connection> {
    match slot
    case Done => []
    case Waiting(_, _) => []
    case Permitted(_, _) => []
    case ZeroActive => []
    case Popped(c, _, _) => [c]
    case Recycling(c, _, _) => [c]
    case Created(c) => [c]
    case Activated(c) => [c]
    case CheckedOut(c) => [c]
    case Returning(c) => [c]
    case Returned(c) => [c]
    case Closing(c) => [c]
    case ClosingTotal(c) => [c]
    case Dropping(cs) => cs
    case Evicting(_, _, cs, _) => cs
    case Clearing(_, cs, _) => cs
  }

  ghost function OnPool(w: Weight): NodePool -> nat {
    (p: NodePool) => SeqSum(p.connections, OnConnection(w))
  }

  ghost function OnSlot(w: Weight): Slot -> nat {
    (sl: Slot) => SeqSum(Held(sl), OnConnection(w))
  }

  /** The weight of every live connection: pooled, in a call's hand, or checked out. */
  ghost function Weigh(s: State, w: Weight): nat {
    MapSum(s.shared.pools, OnPool(w)) + SeqSum(s.slots, OnSlot(w))
  }

  ghost function ByPermit(sem: nat): Weight {
    (id: nat, permit: nat) => if permit == sem then 1 else 0
  }

  ghost function ById(id: nat): Weight {
    (i: nat, permit: nat) => if i == id then 1 else 0
  }

  ghost function BarePermit(sem: nat): Slot -> nat {
    (sl: Slot) => if sl.Permitted? && sl.sem == sem then 1 else 0
  }

  /** How much of `total_connections` a slot is responsible for. */
  function TotalPart(slot: Slot): nat {
    match slot
    case Popped(_, _, _) => 1
    case CheckedOut(_) => 1
    case Returning(_) => 1
    case Returned(_) => 1
    case Closing(_) => 1
    case ClosingTotal(_) => 1
    case Evicting(_, _, _, n) => n
    case Clearing(_, _, n) => n
    case _ => 0
  }

  function ActivePart(slot: Slot): nat {
    if slot.Activated? || slot.CheckedOut? || slot.Returning? || slot.Closing? then 1 else 0
  }

  function PoolSize(pool: NodePool): nat {
    |pool.connections|
  }

  ghost function IdleCount(s: State): nat {
    MapSum(s.shared.pools, PoolSize)
  }

  ghost function TotalDue(s: State): nat {
    IdleCount(s) + SeqSum(s.slots, TotalPart)
  }

  ghost function ActiveDue(s: State): nat {
    SeqSum(s.slots, ActivePart)
  }

  function CountOut(slot: Slot): nat {
    if slot.CheckedOut? then 1 else 0
  }

  ghost function CheckedOutCount(s: State): nat {
    SeqSum(s.slots, CountOut)
  }

  ghost predicate Quiet(s: State) {
    forall sl :: sl in s.slots ==> sl.Done? || sl.CheckedOut?
  }

  function FreePermits(sh: Shared, sem: nat): nat {
    if sem < |sh.permits| then sh.permits[sem] else 0
  }

  /** Free permits, permits held by acquires in progress, and permits inside live connections. */
  ghost function PermitsOf(s: State, sem: nat): nat {
    FreePermits(s.shared, sem) + SeqSum(s.slots, BarePermit(sem)) + Weigh(s, ByPermit(sem))
  }

  // ---- how a step moves connections ----------------------------------------------------------

  lemma {:induction false} SplitExpired(conns: seq<Connection>, expired: set<nat>, f: Connection -> nat)
    ensures SeqSum(Kept(conns, expired), f) + SeqSum(Expired(conns, expired), f) == SeqSum(conns, f)
    ensures |Kept(conns, expired)| + |Expired(conns, expired)| == |conns|
  {
    if conns != [] {
      var front, last := conns[..|conns| - 1], conns[|conns| - 1];
      SplitExpired(front, expired, f);
      SeqSumAppend(Kept(front, expired), last, f);
      SeqSumAppend(Expired(front, expired), last, f);
    }
  }

  lemma SwapRemoveSum(conns: seq<Connection>, k: nat, f: Connection -> nat)
    requires k < |conns|
    ensures SeqSum(SwapRemove(conns, k), f) + f(conns[k]) == SeqSum(conns, f)
  {
    var last := conns[|conns| - 1];
    SeqSumUpdate(conns, k, last, f);
    assert conns[k := last][|conns| - 1] == last;
  }

  /** The connections a move drops, and the ones it makes. */
  function Dropped(sl: Slot, e: Event): seq<Connection> {
    if e.Advance? && (sl.Recycling? || sl.Dropping? || sl.Evicting? || sl.Clearing?) && Held(sl) != [] then
      [Held(sl)[0]]
    else []
  }

  function Made(sh: Shared, sl: Slot, e: Event): seq<Connection> {
    if e.Advance? && e.ok && sl.Permitted? then [Connection(sh.nextId, sl.node, sl.sem, InUse)] else []
  }

  /** The slot an event acts on. */
  function Actor(s: State, e: Event): Slot {
    if !Begins(e) && e.i < |s.slots| then s.slots[e.i] else Done
  }

  lemma SetIdleSums(sh: Shared, node: NodeId, conns: seq<Connection>, w: Weight)
    requires node in sh.pools
    ensures MapSum(SetIdle(sh, node, conns).pools, OnPool(w)) + SeqSum(sh.pools[node].connections, OnConnection(w))
         == MapSum(sh.pools, OnPool(w)) + SeqSum(conns, OnConnection(w))
    ensures MapSum(SetIdle(sh, node, conns).pools, PoolSize) + |sh.pools[node].connections|
         == MapSum(sh.pools, PoolSize) + |conns|
  {
    MapSumInsert(sh.pools, node, sh.pools[node].(connections := conns), OnPool(w));
    MapSumInsert(sh.pools, node, sh.pools[node].(connections := conns), PoolSize);
  }

  lemma FlowGet(sh: Shared, node: NodeId, w: Weight)
    ensures var (sh', sl') := BeginGet(sh, node);
            MapSum(sh'.pools, OnPool(w)) + OnSlot(w)(sl') == MapSum(sh.pools, OnPool(w))
  {
    if node in sh.pools {
      var conns := sh.pools[node].connections;
      var k := FirstIdle(conns);
      if k < |conns| {
        SwapRemoveSum(conns, k, OnConnection(w));
        SetIdleSums(sh, node, SwapRemove(conns, k), w);
        SeqSumSingle(conns[k], OnConnection(w));
      }
    }
  }

  lemma FlowBegin(sh: Shared, e: Event, max: nat, w: Weight)
    requires Begins(e)
    ensures var (sh', sl') := Move(sh, Done, e, max);
            MapSum(sh'.pools, OnPool(w)) + OnSlot(w)(sl') == MapSum(sh.pools, OnPool(w))
  {
    match e
    case AddNode(node) => MapSumInsert(sh.pools, node, NodePool([], |sh.permits|), OnPool(w));
    case Get(node) => FlowGet(sh, node, w);
    case Remove(node) =>
      if node in sh.pools {
        MapSumRemove(sh.pools, node, OnPool(w));
      }
    case _ =>
  }

  lemma FlowPutBack(sh: Shared, c: Connection, w: Weight)
    ensures var (sh', sl') := PutBack(sh, c);
            MapSum(sh'.pools, OnPool(w)) + OnSlot(w)(sl') == MapSum(sh.pools, OnPool(w)) + w(c.id, c.permit)
  {
    SeqSumSingle(c, OnConnection(w));
    if c.node in sh.pools {
      var conns := sh.pools[c.node].connections;
      SetIdleSums(sh, c.node, conns + [c.(state := Idle)], w);
      SeqSumAppend(conns, c.(state := Idle), OnConnection(w));
    }
  }

  /** A pool gives up the connections that leave its idle list, no more and no less. */
  lemma KeptSums(sh: Shared, node: NodeId, expired: set<nat>, w: Weight)
    requires node in sh.pools
    ensures var conns := sh.pools[node].connections;
            var swept := SetIdle(sh, node, Kept(conns, expired));
            && MapSum(swept.pools, OnPool(w)) + SeqSum(Expired(conns, expired), OnConnection(w))
               == MapSum(sh.pools, OnPool(w))
            && MapSum(swept.pools, PoolSize) + |Expired(conns, expired)| == MapSum(sh.pools, PoolSize)
  {
    var conns := sh.pools[node].connections;
    SplitExpired(conns, expired, OnConnection(w));
    SetIdleSums(sh, node, Kept(conns, expired), w);
  }

  lemma FlowEvict(sh: Shared, sl: Slot, w: Weight)
    requires sl.Evicting? && sl.conns == []
    ensures MapSum(EvictMove(sh, sl).0.pools, OnPool(w)) + OnSlot(w)(EvictMove(sh, sl).1) == MapSum(sh.pools, OnPool(w))
  {
    var next := EvictMove(sh, sl);
    if sl.todo == [] || sl.todo[0] !in sh.pools {
      assert next.0.pools == sh.pools && Held(next.1) == [];
    } else {
      KeptSums(sh, sl.todo[0], sl.expired, w);
      assert Held(next.1) == Expired(sh.pools[sl.todo[0]].connections, sl.expired);
    }
  }

  lemma FlowClear(sh: Shared, sl: Slot, w: Weight)
    requires sl.Clearing? && sl.conns == []
    ensures MapSum(ClearMove(sh, sl).0.pools, OnPool(w)) + OnSlot(w)(ClearMove(sh, sl).1) == MapSum(sh.pools, OnPool(w))
  {
    if sl.todo != [] && sl.todo[0] in sh.pools {
      SetIdleSums(sh, sl.todo[0], [], w);
      assert Held(ClearMove(sh, sl).1) == sh.pools[sl.todo[0]].connections;
    }
  }

  /** The first of the connections in a hand leaves it. */
  lemma HeldFirst(sl: Slot, w: Weight)
    requires Held(sl) != []
    ensures OnSlot(w)(sl) == OnConnection(w)(Held(sl)[0]) + SeqSum(Held(sl)[1..], OnConnection(w))
  {
    assert Held(sl) == [Held(sl)[0]] + Held(sl)[1..];
    SeqSumPrepend(Held(sl)[0], Held(sl)[1..], OnConnection(w));
  }

  /** Connections flow: a move hands them on, drops one, or makes one, and does nothing else. */
  ghost predicate Flows(sh: Shared, sl: Slot, e: Event, max: nat, w: Weight) {
    var (sh', sl') := Move(sh, sl, e, max);
    MapSum(sh'.pools, OnPool(w)) + OnSlot(w)(sl') + SeqSum(Dropped(sl, e), OnConnection(w))
    == MapSum(sh.pools, OnPool(w)) + OnSlot(w)(sl) + SeqSum(Made(sh, sl, e), OnConnection(w))
  }

  lemma FlowDrop(sh: Shared, sl: Slot, e: Event, max: nat, w: Weight)
    requires e.Advance? && (sl.Dropping? || sl.Evicting? || sl.Clearing?) && sl.conns != []
    ensures Flows(sh, sl, e, max, w)
  {
    hide MapSum, SeqSum, SetIdle, Kept, Expired;
    SeqSumEmpty(OnConnection(w));
    HeldFirst(sl, w);
    SeqSumSingle(sl.conns[0], OnConnection(w));
    var (sh', sl') := Move(sh, sl, e, max);
    assert sh'.pools == sh.pools && Held(sl') == sl.conns[1..];
    assert Dropped(sl, e) == [sl.conns[0]] && Made(sh, sl, e) == [];
  }

  lemma FlowSweep(sh: Shared, sl: Slot, e: Event, max: nat, w: Weight)
    requires e.Advance? && (sl.Dropping? || sl.Evicting? || sl.Clearing?)
    ensures Flows(sh, sl, e, max, w)
  {
    hide MapSum, SeqSum, SetIdle, Kept, Expired;
    SeqSumEmpty(OnConnection(w));
    if sl.conns != [] {
      FlowDrop(sh, sl, e, max, w);
    } else if sl.Evicting? {
      FlowEvict(sh, sl, w);
    } else if sl.Clearing? {
      FlowClear(sh, sl, w);
    }
  }

  lemma FlowPass(sh: Shared, sl: Slot, e: Event, max: nat, w: Weight)
    requires e.Advance? && !sl.Dropping? && !sl.Evicting? && !sl.Clearing? && !sl.Returned?
    ensures Flows(sh, sl, e, max, w)
  {
    hide MapSum, SeqSum, EvictMove, ClearMove, PutBack, Release;
    SeqSumEmpty(OnConnection(w));
    if |Held(sl)| == 1 {
      SeqSumSingle(Held(sl)[0], OnConnection(w));
    }
    if sl.Popped? {
      SeqSumSingle(sl.conn.(state := InUse), OnConnection(w));
    }
  }

  lemma FlowNext(sh: Shared, sl: Slot, e: Event, max: nat, w: Weight)
    requires !Begins(e)
    ensures Flows(sh, sl, e, max, w)
  {
    hide MapSum, SeqSum, EvictMove, ClearMove, PutBack;
    SeqSumEmpty(OnConnection(w));
    if !e.Advance? {
      assert Held(Move(sh, sl, e, max).1) == Held(sl);
    } else if sl.Dropping? || sl.Evicting? || sl.Clearing? {
      FlowSweep(sh, sl, e, max, w);
    } else if sl.Returned? {
      SeqSumSingle(sl.conn, OnConnection(w));
      FlowPutBack(sh, sl.conn, w);
    } else {
      FlowPass(sh, sl, e, max, w);
    }
  }

  /** The sum of a weight over the slots changes by the change of the slot that acts. */
  lemma SlotsStep(s: State, e: Event, max: nat, f: Slot -> nat)
    requires Begins(e) || e.i < |s.slots|
    ensures SeqSum(Apply(s, e, max).slots, f) + (if Begins(e) then 0 else f(Actor(s, e)))
         == SeqSum(s.slots, f) + f(Move(s.shared, Actor(s, e), e, max).1)
  {
    var sl' := Move(s.shared, Actor(s, e), e, max).1;
    if Begins(e) {
      SeqSumAppend(s.slots, sl', f);
    } else {
      SeqSumUpdate(s.slots, e.i, sl', f);
    }
  }

  lemma Flow(s: State, e: Event, max: nat, w: Weight)
    requires Begins(e) || e.i < |s.slots|
    ensures Weigh(Apply(s, e, max), w) + SeqSum(Dropped(Actor(s, e), e), OnConnection(w))
         == Weigh(s, w) + SeqSum(Made(s.shared, Actor(s, e), e), OnConnection(w))
  {
    SlotsStep(s, e, max, OnSlot(w));
    if Begins(e) {
      FlowBegin(s.shared, e, max, w);
    } else {
      FlowNext(s.shared, s.slots[e.i], e, max, w);
    }
  }

  // ---- permits are conserved -----------------------------------------------------------------

  ghost predicate Conserved(s: State, max: nat) {
    forall sem: nat :: PermitsOf(s, sem) == if sem < |s.shared.permits| then max else 0
  }

  /** A move gives back exactly the permits of the connections it drops, and a connection it makes
      takes over the bare permit of its slot. */
  lemma PermitMove(sh: Shared, sl: Slot, e: Event, max: nat, sem: nat)
    requires Begins(e) ==> sl == Done
    ensures var (sh', sl') := Move(sh, sl, e, max);
            var f := OnConnection(ByPermit(sem));
            sem < |sh.permits| ==>
              && sem < |sh'.permits|
              && FreePermits(sh', sem) + BarePermit(sem)(sl') + SeqSum(Made(sh, sl, e), f)
              == FreePermits(sh, sem) + BarePermit(sem)(sl) + SeqSum(Dropped(sl, e), f)
    ensures var (sh', sl') := Move(sh, sl, e, max);
            var f := OnConnection(ByPermit(sem));
            sem >= |sh.permits| && !(sl.Permitted? && sl.sem == sem) ==>
              && BarePermit(sem)(sl') == 0 && SeqSum(Made(sh, sl, e), f) == 0
              && FreePermits(sh', sem) == if sem < |sh'.permits| then max else 0
  {
    hide SeqSum, Kept, Expired, FirstIdle, SwapRemove;
    var f := OnConnection(ByPermit(sem));
    SeqSumEmpty(f);
    if Dropped(sl, e) != [] {
      SeqSumSingle(Dropped(sl, e)[0], f);
    }
    if Made(sh, sl, e) != [] {
      SeqSumSingle(Made(sh, sl, e)[0], f);
    }
  }

  lemma ConservedStep(s: State, e: Event, max: nat)
    requires Conserved(s, max)
    ensures Conserved(Apply(s, e, max), max)
  {
    hide MapSum, SeqSum, Move, Weigh;
    var s' := Apply(s, e, max);
    if Begins(e) || e.i < |s.slots| {
      forall sem: nat
        ensures PermitsOf(s', sem) == if sem < |s'.shared.permits| then max else 0
      {
        assert PermitsOf(s, sem) == if sem < |s.shared.permits| then max else 0;
        Flow(s, e, max, ByPermit(sem));
        SlotsStep(s, e, max, BarePermit(sem));
        PermitMove(s.shared, Actor(s, e), e, max, sem);
        if !Begins(e) {
          SeqSumAtLeast(s.slots, e.i, BarePermit(sem));
        }
      }
    }
  }

  /** In every run, for every registration: free permits, permits of acquires in progress and
      permits inside live connections add up to `max_connections`. */
  lemma {:induction false} PermitConservation(events: seq<Event>, max: nat)
    ensures Conserved(Run(events, max), max)
  {
    if events != [] {
      PermitConservation(events[..|events| - 1], max);
      ConservedStep(Run(events[..|events| - 1], max), events[|events| - 1], max);
    }
  }

  /** So the connections made under one registration never exceed the cap. */
  lemma LiveConnectionsBounded(events: seq<Event>, max: nat, sem: nat)
    ensures Weigh(Run(events, max), ByPermit(sem)) <= max
  {
    PermitConservation(events, max);
    assert PermitsOf(Run(events, max), sem) <= max;
  }

  // ---- no connection is in two places --------------------------------------------------------

  ghost predicate Unique(s: State) {
    forall id: nat :: Weigh(s, ById(id)) <= if id < s.shared.nextId then 1 else 0
  }

  lemma IdsMove(sh: Shared, sl: Slot, e: Event, max: nat)
    ensures Move(sh, sl, e, max).0.nextId == sh.nextId + |Made(sh, sl, e)|
  {
  }

  lemma UniqueStep(s: State, e: Event, max: nat)
    requires Unique(s)
    ensures Unique(Apply(s, e, max))
  {
    hide MapSum, Move, Weigh;
    var s' := Apply(s, e, max);
    if Begins(e) || e.i < |s.slots| {
      forall id: nat
        ensures Weigh(s', ById(id)) <= if id < s'.shared.nextId then 1 else 0
      {
        assert Weigh(s, ById(id)) <= if id < s.shared.nextId then 1 else 0;
        Flow(s, e, max, ById(id));
        IdsMove(s.shared, Actor(s, e), e, max);
        assert s'.shared == Move(s.shared, Actor(s, e), e, max).0;
        var made := Made(s.shared, Actor(s, e), e);
        if made != [] {
          SeqSumSingle(made[0], OnConnection(ById(id)));
        }
      }
    }
  }

  /** In every run, every connection id occurs at most once over all idle lists, all hands of calls
      in progress and all checked-out connections together. */
  lemma {:induction false} NeverInTwoPlaces(events: seq<Event>, max: nat)
    ensures Unique(Run(events, max))
  {
    if events != [] {
      NeverInTwoPlaces(events[..|events| - 1], max);
      UniqueStep(Run(events[..|events| - 1], max), events[|events| - 1], max);
    } else {
      assert Run(events, max) == Initial();
    }
  }

  // ---- the gauges ----------------------------------------------------------------------------

  /** What `total_connections` should show of the pools and of one slot. */
  ghost function TotalOf(sh: Shared, sl: Slot): nat {
    MapSum(sh.pools, PoolSize) + TotalPart(sl)
  }

  /** The step at which `close_all` stores zero into `total_connections`, and the one at which it stores
      zero into `active_connections`. */
  predicate StoresTotal(sl: Slot, e: Event) {
    e.Advance? && sl.Clearing? && sl.todo == [] && sl.conns == []
  }

  predicate StoresActive(sl: Slot, e: Event) {
    e.Advance? && sl.ZeroActive?
  }

  /** A gauge that is `lost` short of what is due stays that much short, unless less than that is due. */
  predicate Keeps(gauge: nat, due: nat, gauge': nat, due': nat, lost: nat) {
    gauge + lost == due ==> gauge' == SatSub(due', lost)
  }

  /** A move keeps `total_connections` as far from what is due as it was, or stores zero. `rest` is what
      the other slots are responsible for. */
  ghost predicate TotalFollows(sh: Shared, sl: Slot, sh': Shared, sl': Slot) {
    forall rest: nat, lost: nat :: FollowsWith(sh, sl, sh', sl', rest, lost)
  }

  ghost predicate FollowsWith(sh: Shared, sl: Slot, sh': Shared, sl': Slot, rest: nat, lost: nat) {
    Keeps(sh.total, TotalOf(sh, sl) + rest, sh'.total, TotalOf(sh', sl') + rest, lost)
  }

  lemma TotalBegin(sh: Shared, e: Event, max: nat)
    requires Begins(e)
    ensures var (sh', sl') := Move(sh, Done, e, max); TotalFollows(sh, Done, sh', sl')
  {
    hide MapSum, SeqSum, Kept, Expired;
    match e
    case AddNode(node) => MapSumInsert(sh.pools, node, NodePool([], |sh.permits|), PoolSize);
    case Get(node) =>
      if node in sh.pools {
        var conns := sh.pools[node].connections;
        if FirstIdle(conns) < |conns| {
          SetIdleSums(sh, node, SwapRemove(conns, FirstIdle(conns)), ById(0));
        }
      }
    case Remove(node) =>
      if node in sh.pools {
        MapSumRemove(sh.pools, node, PoolSize);
      }
    case _ =>
  }

  lemma TotalSweep(sh: Shared, sl: Slot)
    requires sl.Evicting? || sl.Clearing?
    requires !(sl.Clearing? && sl.todo == [] && sl.conns == [])
    ensures var (sh', sl') := Next(sh, sl, true); TotalFollows(sh, sl, sh', sl')
  {
    hide MapSum, SeqSum, Kept, Expired;
    if sl.conns == [] && sl.todo != [] && sl.todo[0] in sh.pools {
      if sl.Evicting? {
        KeptSums(sh, sl.todo[0], sl.expired, ById(0));
      } else {
        SetIdleSums(sh, sl.todo[0], [], ById(0));
      }
    }
  }

  lemma TotalNext(sh: Shared, sl: Slot, e: Event, max: nat)
    requires !Begins(e) && !StoresTotal(sl, e)
    ensures var (sh', sl') := Move(sh, sl, e, max); TotalFollows(sh, sl, sh', sl')
  {
    hide MapSum, SeqSum, Kept, Expired;
    if e.Advance? {
      if sl.Evicting? || sl.Clearing? {
        TotalSweep(sh, sl);
      } else if sl.Returned? && sl.conn.node in sh.pools {
        SetIdleSums(sh, sl.conn.node, sh.pools[sl.conn.node].connections + [sl.conn.(state := Idle)], ById(0));
      }
    }
  }

  /** The same for `active_connections`, which only slots answer for. */
  lemma ActiveMove(sh: Shared, sl: Slot, e: Event, max: nat, rest: nat, lost: nat)
    requires Begins(e) ==> sl == Done
    requires !StoresActive(sl, e)
    ensures var (sh', sl') := Move(sh, sl, e, max);
            Keeps(sh.active, ActivePart(sl) + rest, sh'.active, ActivePart(sl') + rest, lost)
  {
  }

  lemma StoreMove(sh: Shared, sl: Slot, e: Event, max: nat)
    ensures StoresTotal(sl, e) ==> Move(sh, sl, e, max).0.total == 0
    ensures StoresActive(sl, e) ==> Move(sh, sl, e, max).0.active == 0
  {
  }

  /** An event, seen from `total_connections`. */
  lemma TotalStep(s: State, e: Event, max: nat, lost: nat)
    requires s.shared.total + lost == TotalDue(s)
    ensures var s' := Apply(s, e, max);
            s'.shared.total == if StoresTotal(Actor(s, e), e) then 0 else SatSub(TotalDue(s'), lost)
  {
    hide MapSum, SeqSum, Move, StoresTotal;
    if Begins(e) || e.i < |s.slots| {
      var sl := Actor(s, e);
      StoreMove(s.shared, sl, e, max);
      SlotsStep(s, e, max, TotalPart);
      if Begins(e) {
        TotalBegin(s.shared, e, max);
      } else {
        SeqSumAtLeast(s.slots, e.i, TotalPart);
        if !StoresTotal(sl, e) {
          TotalNext(s.shared, sl, e, max);
        }
      }
      var (sh', sl') := Move(s.shared, sl, e, max);
      var rest := SeqSum(s.slots, TotalPart) - TotalPart(sl);
      assert TotalFollows(s.shared, sl, sh', sl') ==> FollowsWith(s.shared, sl, sh', sl', rest, lost);
    } else {
      NoStore(e);
    }
  }

  /** An event, seen from `active_connections`. */
  lemma ActiveStep(s: State, e: Event, max: nat, lost: nat)
    requires s.shared.active + lost == ActiveDue(s)
    ensures var s' := Apply(s, e, max);
            s'.shared.active == if StoresActive(Actor(s, e), e) then 0 else SatSub(ActiveDue(s'), lost)
  {
    hide SeqSum, Move, StoresActive;
    if Begins(e) || e.i < |s.slots| {
      var sl := Actor(s, e);
      StoreMove(s.shared, sl, e, max);
      SlotsStep(s, e, max, ActivePart);
      if !Begins(e) {
        SeqSumAtLeast(s.slots, e.i, ActivePart);
      }
      if !StoresActive(sl, e) {
        ActiveMove(s.shared, sl, e, max, SeqSum(s.slots, ActivePart) - ActivePart(sl), lost);
      }
    } else {
      NoStore(e);
    }
  }

  lemma NoStore(e: Event)
    ensures !StoresTotal(Done, e) && !StoresActive(Done, e)
  {
  }

  function Min(a: nat, b: nat): nat {
    if a <= b then a else b
  }

  datatype Gauge = Total | Active

  function Shown(sh: Shared, g: Gauge): nat {
    if g.Total? then sh.total else sh.active
  }

  ghost function Due(s: State, g: Gauge): nat {
    if g.Total? then TotalDue(s) else ActiveDue(s)
  }

  predicate Stores(s: State, e: Event, g: Gauge) {
    if g.Total? then StoresTotal(Actor(s, e), e) else StoresActive(Actor(s, e), e)
  }

  lemma GaugeStep(s: State, e: Event, max: nat, g: Gauge, lost: nat)
    requires Shown(s.shared, g) + lost == Due(s, g)
    ensures var s' := Apply(s, e, max);
            Shown(s'.shared, g) == if Stores(s, e, g) then 0 else SatSub(Due(s', g), lost)
  {
    hide Apply, TotalDue, ActiveDue, StoresTotal, StoresActive;
    match g
    case Total => TotalStep(s, e, max, lost);
    case Active => ActiveStep(s, e, max, lost);
  }

  /** How far a gauge is below what is due: all of it after a store of zero, and from then on as much,
      unless less is due. */
  ghost function Lost(events: seq<Event>, max: nat, g: Gauge): nat {
    if events == [] then 0
    else
      var front, e := events[..|events| - 1], events[|events| - 1];
      var due := Due(Run(events, max), g);
      if Stores(Run(front, max), e, g) then due else Min(Lost(front, max, g), due)
  }

  lemma NothingDue(g: Gauge)
    ensures Due(Initial(), g) == 0 && Shown(Initial().shared, g) == 0
  {
  }

  /** In every schedule, in the middle of calls too, a gauge shows what is due less what was lost. */
  lemma {:induction false} GaugeLessLost(events: seq<Event>, max: nat, g: Gauge)
    ensures Shown(Run(events, max).shared, g) + Lost(events, max, g) == Due(Run(events, max), g)
  {
    hide Apply, Due, Shown, Stores;
    if events == [] {
      NothingDue(g);
    } else {
      var front, e := events[..|events| - 1], events[|events| - 1];
      GaugeLessLost(front, max, g);
      GaugeStep(Run(front, max), e, max, g, Lost(front, max, g));
    }
  }

  /** No zero is stored into the gauge from event `j` on. */
  ghost predicate NoStoreFrom(events: seq<Event>, max: nat, g: Gauge, j: nat) {
    forall k :: j <= k < |events| ==> !Stores(Run(events[..k], max), events[k], g)
  }

  /** At the moment after `j` events nothing was due, and no zero has been stored since. */
  ghost predicate ClearSince(events: seq<Event>, max: nat, g: Gauge, j: nat) {
    j <= |events| && Due(Run(events[..j], max), g) == 0 && NoStoreFrom(events, max, g, j)
  }

  lemma ClearSinceFront(events: seq<Event>, max: nat, g: Gauge, j: nat)
    requires events != [] && j < |events|
    ensures ClearSince(events, max, g, j) <==>
            var n := |events| - 1; ClearSince(events[..n], max, g, j) && !Stores(Run(events[..n], max), events[n], g)
  {
    hide Run, Due, Stores;
    var front := events[..|events| - 1];
    assert forall k :: 0 <= k <= |front| ==> front[..k] == events[..k];
    if ClearSince(front, max, g, j) && !Stores(Run(front, max), events[|front|], g) {
      forall k | j <= k < |events| ensures !Stores(Run(events[..k], max), events[k], g) {
        if k < |front| {
          assert !Stores(Run(front[..k], max), front[k], g);
        }
      }
    }
    if ClearSince(events, max, g, j) {
      forall k | j <= k < |front| ensures !Stores(Run(front[..k], max), front[k], g) {
        assert !Stores(Run(events[..k], max), events[k], g);
      }
    }
  }

  lemma {:induction false} NothingLostIff(events: seq<Event>, max: nat, g: Gauge)
    ensures Lost(events, max, g) == 0 <==> exists j: nat :: ClearSince(events, max, g, j)
  {
    hide Run, Due, Stores;
    var n := |events|;
    assert events[..n] == events;
    assert ClearSince(events, max, g, n) <==> Due(Run(events, max), g) == 0;
    if events == [] {
      EmptyRun(max);
      NothingDue(g);
    } else {
      var front := events[..n - 1];
      NothingLostIff(front, max, g);
      forall j: nat | j < n
        ensures ClearSince(events, max, g, j) <==>
                ClearSince(front, max, g, j) && !Stores(Run(front, max), events[n - 1], g)
      {
        ClearSinceFront(events, max, g, j);
      }
      if Lost(front, max, g) == 0 && !Stores(Run(front, max), events[n - 1], g) {
        var j: nat :| ClearSince(front, max, g, j);
        assert ClearSince(events, max, g, j);
      }
    }
  }

  lemma EmptyRun(max: nat)
    ensures Run([], max) == Initial()
  {
  }

  /** Only a call of `close_all` gets to where the gauges are set to zero. */
  lemma OnlyCloseAll(sh: Shared, sl: Slot, e: Event, max: nat)
    requires !e.CloseAll? && !sl.Clearing? && !sl.ZeroActive?
    ensures !Move(sh, sl, e, max).1.Clearing? && !Move(sh, sl, e, max).1.ZeroActive?
  {
  }

  ghost predicate NoneClearing(s: State) {
    forall i :: 0 <= i < |s.slots| ==> !s.slots[i].Clearing? && !s.slots[i].ZeroActive?
  }

  lemma {:induction false} NothingLost(events: seq<Event>, max: nat, g: Gauge)
    requires forall e :: e in events ==> !e.CloseAll?
    ensures NoneClearing(Run(events, max)) && Lost(events, max, g) == 0
  {
    hide Move, Due;
    if events != [] {
      var front, e := Run(events[..|events| - 1], max), events[|events| - 1];
      NothingLost(events[..|events| - 1], max, g);
      if Begins(e) || e.i < |front.slots| {
        OnlyCloseAll(front.shared, Actor(front, e), e, max);
      }
    }
  }

  /** Without `close_all`, in the middle of calls too, a gauge shows what is due. */
  lemma RunExact(events: seq<Event>, max: nat, g: Gauge)
    requires forall e :: e in events ==> !e.CloseAll?
    ensures Shown(Run(events, max).shared, g) == Due(Run(events, max), g)
  {
    hide Run, Lost, Due, Shown;
    NothingLost(events, max, g);
    GaugeLessLost(events, max, g);
  }

  /** What a gauge is for: idle and checked-out connections, or the checked-out ones. */
  ghost function TrueCount(s: State, g: Gauge): nat {
    if g.Total? then IdleCount(s) + CheckedOutCount(s) else CheckedOutCount(s)
  }

  lemma QuietDue(s: State, g: Gauge)
    requires Quiet(s)
    ensures Due(s, g) == TrueCount(s, g)
  {
    SeqSumSame(s.slots, TotalPart, CountOut);
    SeqSumSame(s.slots, ActivePart, CountOut);
  }

  /** Without `close_all`, at every moment with no call in progress, `total_connections` is idle
      plus checked out and `active_connections` is checked out. */
  lemma GaugesExact(events: seq<Event>, max: nat, g: Gauge)
    requires forall e :: e in events ==> !e.CloseAll?
    requires Quiet(Run(events, max))
    ensures Shown(Run(events, max).shared, g) == TrueCount(Run(events, max), g)
  {
    hide Run, Shown, Due, TrueCount;
    RunExact(events, max, g);
    QuietDue(Run(events, max), g);
  }

  /** With `close_all` anywhere, the gauges never show more than there is. */
  lemma GaugesNeverAbove(events: seq<Event>, max: nat, g: Gauge)
    requires Quiet(Run(events, max))
    ensures Shown(Run(events, max).shared, g) <= TrueCount(Run(events, max), g)
  {
    hide Run, Shown, Due, TrueCount, Lost;
    GaugeLessLost(events, max, g);
    QuietDue(Run(events, max), g);
  }

  /** With `close_all` anywhere, at a moment with no call in progress: a gauge is exact if and only if at
      some moment nothing was due (pooled, checked out, or in the hand of a call that answers for it) and
      no zero has been stored since. At the start nothing is due, so a run without a store is exact. */
  lemma GaugeExactIff(events: seq<Event>, max: nat, g: Gauge)
    requires Quiet(Run(events, max))
    ensures Shown(Run(events, max).shared, g) == TrueCount(Run(events, max), g) <==>
            exists j: nat :: ClearSince(events, max, g, j)
  {
    hide Run, Shown, Due, TrueCount, Lost, ClearSince;
    GaugeLessLost(events, max, g);
    NothingLostIff(events, max, g);
    QuietDue(Run(events, max), g);
  }

  lemma RunSnoc(events: seq<Event>, e: Event, max: nat)
    ensures Run(events + [e], max) == Apply(Run(events, max), e, max)
  {
    assert (events + [e])[..|events|] == events;
  }

  /** One acquire, up to its permit. */
  lemma OnePermit(max: nat) returns (events: seq<Event>)
    requires max >= 1
    ensures Run(events, max) == State(Shared(map[0 := NodePool([], 0)], [max - 1], 0, 0, 0), [Done, Permitted(0, 0)])
  {
    assert Run([], max) == Initial();
    hide Run, EvictMove, ClearMove, PutBack, BeginRemove;
    RunSnoc([], AddNode(0), max);
    events := [] + [AddNode(0)];
    assert Run(events, max) == State(Shared(map[0 := NodePool([], 0)], [max], 0, 0, 0), [Done]);
    RunSnoc(events, Get(0), max);
    events := events + [Get(0)];
    assert Run(events, max) == State(Shared(map[0 := NodePool([], 0)], [max], 0, 0, 0), [Done, Waiting(0, 0)]);
    RunSnoc(events, Advance(1, true), max);
    events := events + [Advance(1, true)];
  }

  /** One acquire, completed. */
  lemma OneAcquire(max: nat) returns (events: seq<Event>)
    requires max >= 1
    ensures Run(events, max) == State(Shared(map[0 := NodePool([], 0)], [max - 1], 1, 1, 1),
                                      [Done, CheckedOut(Connection(0, 0, 0, InUse))])
  {
    hide Run, EvictMove, ClearMove, PutBack, BeginRemove, BeginGet;
    events := OnePermit(max);
    var c := Connection(0, 0, 0, InUse);
    RunSnoc(events, Advance(1, true), max);
    events := events + [Advance(1, true)];
    assert Run(events, max) == State(Shared(map[0 := NodePool([], 0)], [max - 1], 0, 0, 1), [Done, Created(c)]);
    RunSnoc(events, Advance(1, true), max);
    events := events + [Advance(1, true)];
    RunSnoc(events, Advance(1, true), max);
    events := events + [Advance(1, true)];
  }

  /** And that does fail: after one acquire and one `close_all`, the connection that is checked out is
      still there, and no longer counted. */
  lemma CloseAllUndercounts(max: nat) returns (events: seq<Event>)
    requires max >= 1
    ensures var s := Run(events, max);
            && s.slots == [Done, CheckedOut(Connection(0, 0, 0, InUse)), Done]
            && s.shared.total == 0 && s.shared.active == 0
  {
    hide Run, EvictMove, PutBack, BeginRemove, BeginGet;
    events := OneAcquire(max);
    RunSnoc(events, CloseAll([0]), max);
    events := events + [CloseAll([0])];
    RunSnoc(events, Advance(2, true), max);
    events := events + [Advance(2, true)];
    assert Run(events, max).slots[2] == Clearing([], [], 0);
    RunSnoc(events, Advance(2, true), max);
    events := events + [Advance(2, true)];
    RunSnoc(events, Advance(2, true), max);
    events := events + [Advance(2, true)];
  }

  // ---- a pooled connection can be reused -----------------------------------------------------

  ghost predicate ReadyFor(conns: seq<Connection>, node: NodeId) {
    forall k :: 0 <= k < |conns| ==> conns[k].state.Idle? && conns[k].node == node
  }

  /** What a pool holds is idle and its own; what a caller holds is in use. */
  ghost predicate Ready(s: State) {
    && (forall node :: node in s.shared.pools ==> ReadyFor(s.shared.pools[node].connections, node))
    && (forall i :: 0 <= i < |s.slots| ==> SlotReady(s.slots[i]))
  }

  ghost predicate SlotReady(sl: Slot) {
    && (sl.Created? || sl.Activated? || sl.CheckedOut? ==> sl.conn.state.InUse?)
    && (sl.Popped? ==> sl.conn.state.Idle? && sl.conn.node == sl.node)
  }

  lemma {:induction false} KeptReady(conns: seq<Connection>, expired: set<nat>, node: NodeId)
    requires ReadyFor(conns, node)
    ensures ReadyFor(Kept(conns, expired), node)
  {
    if conns != [] {
      KeptReady(conns[..|conns| - 1], expired, node);
    }
  }

  lemma ReadyMove(sh: Shared, sl: Slot, e: Event, max: nat)
    requires Ready(State(sh, [sl])) && (Begins(e) ==> sl == Done)
    ensures Ready(State(Move(sh, sl, e, max).0, [Move(sh, sl, e, max).1]))
  {
    hide Kept, Expired, Release, SatSub;
    assert SlotReady([sl][0]);
    if e.Advance? && sl.Evicting? && sl.conns == [] && sl.todo != [] && sl.todo[0] in sh.pools {
      KeptReady(sh.pools[sl.todo[0]].connections, sl.expired, sl.todo[0]);
    }
  }

  lemma {:induction false} PooledAreReady(events: seq<Event>, max: nat)
    ensures Ready(Run(events, max))
  {
    hide Move, SlotReady;
    if events == [] {
      assert Run(events, max) == Initial();
    } else {
      var s, e := Run(events[..|events| - 1], max), events[|events| - 1];
      PooledAreReady(events[..|events| - 1], max);
      if Begins(e) || e.i < |s.slots| {
        var sl := Actor(s, e);
        assert SlotReady(sl) by {
          DoneReady();
        }
        ReadyMove(s.shared, sl, e, max);
        var (sh', sl') := Move(s.shared, sl, e, max);
        assert SlotReady([sl'][0]);
      }
    }
  }

  lemma DoneReady()
    ensures SlotReady(Done)
  {
  }

  /** So in every run an acquire opens nothing new while its node has a pooled connection: it takes the
      first one, and the others stay, the last in the place of the first. */
  lemma PooledIsReused(events: seq<Event>, max: nat, node: NodeId)
    requires node in Run(events, max).shared.pools && Run(events, max).shared.pools[node].connections != []
    ensures var s, s' := Run(events, max), Run(events + [Get(node)], max);
            var conns := s.shared.pools[node].connections;
            && |s'.slots| == |s.slots| + 1
            && s'.slots[|s.slots|] == Popped(conns[0], node, s.shared.pools[node].semaphore)
            && node in s'.shared.pools
            && multiset(s'.shared.pools[node].connections) == multiset(conns[1..])
  {
    PooledAreReady(events, max);
    RunSnoc(events, Get(node), max);
    var conns := Run(events, max).shared.pools[node].connections;
    assert ReadyFor(conns, node) && FirstIdle(conns) == 0;
    SwapRemoveFirst(conns);
  }

  lemma SwapRemoveFirst(conns: seq<Connection>)
    requires conns != []
    ensures multiset(SwapRemove(conns, 0)) == multiset(conns[1..])
  {
    var n := |conns| - 1;
    if n > 0 {
      assert conns[1..] == conns[1..n] + [conns[n]];
      assert SwapRemove(conns, 0) == [conns[n]] + conns[1..n];
    }
  }

  // ---- registrations -------------------------------------------------------------------------

  lemma KeysMove(sh: Shared, sl: Slot, e: Event, max: nat)
    ensures var pools' := Move(sh, sl, e, max).0.pools;
            && pools'.Keys == (match e
                               case AddNode(node) => sh.pools.Keys + {node}
                               case Remove(node) => sh.pools.Keys - {node}
                               case _ => sh.pools.Keys)
            && forall node :: node in sh.pools && node in pools' ==> pools'[node].semaphore == sh.pools[node].semaphore
  {
    hide Kept, Expired, Release, SatSub, FirstIdle, SwapRemove;
  }

  /** A node is registered after an event if the event adds it, or if it was before and is not removed. */
  lemma RegisteredStep(s: State, e: Event, max: nat, node: NodeId)
    ensures node in Apply(s, e, max).shared.pools <==>
            e == AddNode(node) || (node in s.shared.pools && e != Remove(node))
  {
    hide Move;
    if Begins(e) || e.i < |s.slots| {
      KeysMove(s.shared, Actor(s, e), e, max);
    }
  }

  /** Event `k` adds the node, and none after it removes it. */
  ghost predicate AddedAt(events: seq<Event>, node: NodeId, k: nat) {
    k < |events| && events[k] == AddNode(node) && forall j :: k < j < |events| ==> events[j] != Remove(node)
  }

  /** In every schedule a node has a pool if and only if it has been added and not removed since. */
  lemma {:induction false} RegisteredIff(events: seq<Event>, max: nat, node: NodeId)
    ensures node in Run(events, max).shared.pools <==> exists k: nat :: AddedAt(events, node, k)
  {
    hide Apply;
    if events != [] {
      var n := |events| - 1;
      var front := events[..n];
      RegisteredIff(front, max, node);
      RegisteredStep(Run(front, max), events[n], max, node);
      forall k: nat | k < n ensures AddedAt(events, node, k) <==> AddedAt(front, node, k) && events[n] != Remove(node) {
        assert forall j :: 0 <= j < n ==> front[j] == events[j];
        assert AddedAt(events, node, k) ==> events[n] != Remove(node);
      }
      assert AddedAt(events, node, n) <==> events[n] == AddNode(node);
      if k: nat :| AddedAt(front, node, k) {
        assert events[n] != Remove(node) ==> AddedAt(events, node, k);
      }
    }
  }

  /** An acquire for a node that is not registered ends at once and changes nothing; one that finds no idle
      connection waits on the semaphore of its own node. */
  lemma GetMeaning(s: State, node: NodeId, max: nat)
    ensures var s' := Apply(s, Get(node), max);
            && |s'.slots| == |s.slots| + 1 && s'.slots[..|s.slots|] == s.slots
            && (node !in s.shared.pools ==> s'.shared == s.shared && s'.slots[|s.slots|] == Done)
            && (node in s.shared.pools
                && (forall c :: c in s.shared.pools[node].connections ==> !c.state.Idle?) ==>
                  s'.shared == s.shared && s'.slots[|s.slots|] == Waiting(node, s.shared.pools[node].semaphore))
  {
    if node in s.shared.pools {
      var conns := s.shared.pools[node].connections;
      assert FirstIdle(conns) < |conns| ==> conns[FirstIdle(conns)] in conns;
    }
  }

  /** So from a removal to the next addition, an acquire for the node ends at once and changes nothing. */
  lemma RemovedIsNotFound(before: seq<Event>, after: seq<Event>, max: nat, node: NodeId)
    requires forall e :: e in after ==> e != AddNode(node)
    ensures var events := before + [Remove(node)] + after;
            var s, s' := Run(events, max), Run(events + [Get(node)], max);
            node !in s.shared.pools && s' == State(s.shared, s.slots + [Done])
  {
    hide Apply;
    var events := before + [Remove(node)] + after;
    forall k: nat | k < |events| ensures !AddedAt(events, node, k) {
      assert events[|before|] == Remove(node);
      assert k > |before| ==> events[k] == after[k - |before| - 1] && events[k] in after;
    }
    hide Run;
    RegisteredIff(events, max, node);
    RunSnoc(events, Get(node), max);
    var s, s' := Run(events, max), Run(events + [Get(node)], max);
    GetMeaning(s, node, max);
    assert s'.slots == s'.slots[..|s.slots|] + [s'.slots[|s.slots|]];
  }

  // ---- whose semaphore a permit is of ---------------------------------------------------------

  /** The node of each registration, in the order of their semaphores. */
  ghost function Owners(events: seq<Event>, max: nat): seq<NodeId> {
    if events == [] then []
    else
      var front, e := events[..|events| - 1], events[|events| - 1];
      OwnersAfter(Owners(front, max), Run(front, max).shared, e)
  }

  function OwnersAfter(owners: seq<NodeId>, sh: Shared, e: Event): seq<NodeId> {
    if e.AddNode? && e.node !in sh.pools then owners + [e.node] else owners
  }

  predicate Owns(owners: seq<NodeId>, node: NodeId, sem: nat) {
    sem < |owners| && owners[sem] == node
  }

  ghost predicate OwnConnections(owners: seq<NodeId>, conns: seq<Connection>) {
    forall k :: 0 <= k < |conns| ==> Owns(owners, conns[k].node, conns[k].permit)
  }

  ghost predicate OwnPools(owners: seq<NodeId>, sh: Shared) {
    && |owners| == |sh.permits|
    && (forall n :: n in sh.pools ==> Owns(owners, n, sh.pools[n].semaphore))
    && (forall n :: n in sh.pools ==> OwnConnections(owners, sh.pools[n].connections))
  }

  ghost predicate OwnSlot(owners: seq<NodeId>, sl: Slot) {
    && OwnConnections(owners, Held(sl))
    && (sl.Popped? || sl.Recycling? || sl.Waiting? || sl.Permitted? ==> Owns(owners, sl.node, sl.sem))
  }

  lemma {:induction false} KeptOwn(owners: seq<NodeId>, conns: seq<Connection>, expired: set<nat>)
    requires OwnConnections(owners, conns)
    ensures OwnConnections(owners, Kept(conns, expired)) && OwnConnections(owners, Expired(conns, expired))
  {
    if conns != [] {
      KeptOwn(owners, conns[..|conns| - 1], expired);
    }
  }

  lemma OwnGrows(owners: seq<NodeId>, more: seq<NodeId>, sl: Slot)
    requires OwnSlot(owners, sl)
    ensures OwnSlot(owners + more, sl)
  {
  }

  lemma OwnBegin(owners: seq<NodeId>, sh: Shared, e: Event, max: nat)
    requires Begins(e) && OwnPools(owners, sh)
    ensures var (sh', sl') := Move(sh, Done, e, max);
            OwnPools(OwnersAfter(owners, sh, e), sh') && OwnSlot(OwnersAfter(owners, sh, e), sl')
  {
    if e.Get? && e.node in sh.pools {
      var conns := sh.pools[e.node].connections;
      assert forall k :: 0 <= k < |conns| ==> Owns(owners, conns[k].node, conns[k].permit);
    }
  }

  lemma OwnSetIdle(owners: seq<NodeId>, sh: Shared, node: NodeId, conns: seq<Connection>)
    requires node in sh.pools && OwnPools(owners, sh) && OwnConnections(owners, conns)
    ensures OwnPools(owners, SetIdle(sh, node, conns))
  {
    hide OwnConnections, Owns;
  }

  lemma OwnFewer(owners: seq<NodeId>, conns: seq<Connection>)
    requires OwnConnections(owners, conns)
    ensures OwnConnections(owners, [])
    ensures conns != [] ==> OwnConnections(owners, conns[1..])
  {
  }

  lemma OwnEvict(owners: seq<NodeId>, sh: Shared, sl: Slot)
    requires sl.Evicting? && OwnPools(owners, sh) && OwnSlot(owners, sl)
    ensures var (sh', sl') := EvictMove(sh, sl); OwnPools(owners, sh') && OwnSlot(owners, sl')
  {
    hide Kept, Expired, SatSub, SetIdle, OwnConnections, Owns;
    OwnFewer(owners, sl.conns);
    if sl.conns == [] && sl.todo != [] && sl.todo[0] in sh.pools {
      var conns := sh.pools[sl.todo[0]].connections;
      KeptOwn(owners, conns, sl.expired);
      OwnSetIdle(owners, sh, sl.todo[0], Kept(conns, sl.expired));
    }
  }

  lemma OwnClear(owners: seq<NodeId>, sh: Shared, sl: Slot)
    requires sl.Clearing? && OwnPools(owners, sh) && OwnSlot(owners, sl)
    ensures var (sh', sl') := ClearMove(sh, sl); OwnPools(owners, sh') && OwnSlot(owners, sl')
  {
    hide SetIdle, OwnConnections, Owns;
    OwnFewer(owners, sl.conns);
    if sl.conns == [] && sl.todo != [] && sl.todo[0] in sh.pools {
      OwnSetIdle(owners, sh, sl.todo[0], []);
    }
  }

  lemma OwnPutBack(owners: seq<NodeId>, sh: Shared, c: Connection)
    requires OwnPools(owners, sh) && Owns(owners, c.node, c.permit)
    ensures var (sh', sl') := PutBack(sh, c); OwnPools(owners, sh') && OwnSlot(owners, sl')
  {
  }

  lemma OwnNext(owners: seq<NodeId>, sh: Shared, sl: Slot, e: Event, max: nat)
    requires !Begins(e) && OwnPools(owners, sh) && OwnSlot(owners, sl)
    ensures var (sh', sl') := Move(sh, sl, e, max); OwnPools(owners, sh') && OwnSlot(owners, sl')
  {
    hide EvictMove, ClearMove, PutBack, SatSub;
    if e.Advance? && sl.Evicting? {
      OwnEvict(owners, sh, sl);
    } else if e.Advance? && sl.Clearing? {
      OwnClear(owners, sh, sl);
    } else if Held(sl) != [] {
      assert Owns(owners, Held(sl)[0].node, Held(sl)[0].permit);
      OwnPutBack(owners, sh, Held(sl)[0]);
    }
  }

  /** In every schedule every permit is of its own node: the semaphore of a pool, the one a call waits on, and
      the permit inside a connection, wherever it is, all belong to a registration of the node. */
  lemma {:induction false} PermitsAreOfOwnNode(events: seq<Event>, max: nat)
    ensures var s, owners := Run(events, max), Owners(events, max);
            OwnPools(owners, s.shared) && forall i :: 0 <= i < |s.slots| ==> OwnSlot(owners, s.slots[i])
  {
    hide Move, OwnPools, OwnSlot;
    if events == [] {
      NothingOwned();
    } else {
      var front, e := events[..|events| - 1], events[|events| - 1];
      PermitsAreOfOwnNode(front, max);
      var s, owners := Run(front, max), Owners(front, max);
      var owners' := OwnersAfter(owners, s.shared, e);
      forall i | 0 <= i < |s.slots| ensures OwnSlot(owners', s.slots[i]) {
        OwnGrows(owners, if owners' == owners then [] else [e.node], s.slots[i]);
        assert owners + [] == owners;
      }
      if Begins(e) {
        OwnBegin(owners, s.shared, e, max);
      } else if e.i < |s.slots| {
        OwnNext(owners, s.shared, s.slots[e.i], e, max);
      }
    }
  }

  lemma NothingOwned()
    ensures OwnPools([], Initial().shared)
  {
  }
}
