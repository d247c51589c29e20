/** The pool's calls as the code writes them: fields updated in place, searches and sweeps as
    loops. Each call is proved to end where the protocol ends when no other call interferes. */
module ConnectionPool {
  import opened Sums
  import opened PoolProtocol

  datatype Acquired = Ok(conn: Connection) | NotFound | TimedOut | ConnectFailed

  /** The answer of the world to a call that runs alone: is a popped connection fresh and alive, does
      a permit come in time, does the backend accept the connection? */
  datatype World = World(usable: bool, inTime: bool, connected: bool)

  function Answer(sh: Shared, sl: Slot, w: World): bool {
    match sl
    case Popped(_, _, _) => w.usable
    case Waiting(_, sem) => w.inTime && sem < |sh.permits| && sh.permits[sem] > 0
    case Permitted(_, _) => w.connected
    case _ => true
  }

  function Stage(sl: Slot): nat {
    match sl
    case Done => 0
    case CheckedOut(_) => 0
    case Dropping(_) => 1
    case Activated(_) => 1
    case Created(_) => 2
    case Permitted(_, _) => 3
    case Waiting(_, _) => 4
    case Recycling(_, _, _) => 5
    case Popped(_, _, _) => 6
    case Returned(_) => 2
    case Returning(_) => 3
    case ClosingTotal(_) => 2
    case Closing(_) => 3
    case Evicting(_, _, _, _) => 1
    case ZeroActive => 1
    case Clearing(_, _, _) => 2
  }

  function Todo(sl: Slot): nat {
    if sl.Evicting? || sl.Clearing? then |sl.todo| else 0
  }

  /** A call that runs to its end with nothing in between. */
  function Alone(sh: Shared, sl: Slot, w: World): (Shared, Slot)
    decreases Stage(sl), Todo(sl), |Held(sl)|
  {
    if sl.Done? || sl.CheckedOut? then (sh, sl)
    else
      var (sh', sl') := Next(sh, sl, Answer(sh, sl, w));
      Alone(sh', sl', w)
  }

  /** Permits given back one connection after the other. */
  function ReleaseAll(permits: seq<nat>, conns: seq<Connection>): seq<nat> {
    if conns == [] then permits
    else Release(ReleaseAll(permits, conns[..|conns| - 1]), conns[|conns| - 1].permit)
  }

  lemma {:induction false} ReleaseFirst(permits: seq<nat>, conns: seq<Connection>)
    requires conns != []
    ensures ReleaseAll(permits, conns) == ReleaseAll(Release(permits, conns[0].permit), conns[1..])
  {
    var n := |conns| - 1;
    if n == 0 {
      assert ReleaseAll(permits, conns[..0]) == permits;
    } else {
      ReleaseFirst(permits, conns[..n]);
      assert conns[..n][1..] == conns[1..][..n - 1];
    }
  }

  /** Dropping the connections in hand first, in one go, does not change where a sweep ends. */
  lemma {:induction false} DropAll(sh: Shared, sl: Slot, w: World)
    requires sl.Dropping? || sl.Evicting? || sl.Clearing?
    ensures Alone(sh, sl, w)
         == Alone(sh.(permits := ReleaseAll(sh.permits, sl.conns)), Emptied(sl), w)
    decreases |sl.conns|
  {
    if sl.conns != [] {
      var (sh', sl') := Next(sh, sl, true);
      DropAll(sh', sl', w);
      ReleaseFirst(sh.permits, sl.conns);
    }
  }

  lemma AloneStep(sh: Shared, sl: Slot, w: World)
    requires !sl.Done? && !sl.CheckedOut?
    ensures var (sh', sl') := Next(sh, sl, Answer(sh, sl, w)); Alone(sh, sl, w) == Alone(sh', sl', w)
  {
  }

  /** The connection no longer counts, and its permit is free. */
  function Uncounted(sh: Shared, c: Connection): Shared {
    sh.(total := SatSub(sh.total, 1), permits := Release(sh.permits, c.permit))
  }

  lemma AloneDone(sh: Shared, w: World)
    ensures Alone(sh, Done, w) == (sh, Done)
  {
  }

  lemma AloneDrop(sh: Shared, c: Connection, w: World)
    ensures Alone(sh, Dropping([c]), w) == (sh.(permits := Release(sh.permits, c.permit)), Done)
  {
    AloneStep(sh, Dropping([c]), w);
    AloneStep(sh.(permits := Release(sh.permits, c.permit)), Dropping([]), w);
  }

  lemma AloneReturn(sh: Shared, c: Connection, w: World)
    ensures var decd := sh.(active := SatSub(sh.active, 1));
            Alone(sh, Returning(c), w) ==
            if c.node in sh.pools then (PutBack(decd, c).0, Done)
            else (decd.(total := SatSub(sh.total, 1), permits := Release(sh.permits, c.permit)), Done)
  {
    var decd := sh.(active := SatSub(sh.active, 1));
    AloneStep(sh, Returning(c), w);
    AloneStep(decd, Returned(c), w);
    if c.node !in sh.pools {
      AloneDrop(decd.(total := SatSub(sh.total, 1)), c, w);
    }
  }

  lemma AloneClose(sh: Shared, c: Connection, w: World)
    ensures Alone(sh, Closing(c), w) ==
            (Uncounted(sh.(active := SatSub(sh.active, 1)), c), Done)
  {
    var decd := sh.(active := SatSub(sh.active, 1));
    AloneStep(sh, Closing(c), w);
    AloneStep(decd, ClosingTotal(c), w);
    AloneDrop(decd.(total := SatSub(sh.total, 1)), c, w);
  }

  lemma AlonePopped(sh: Shared, c: Connection, node: NodeId, sem: nat, w: World)
    ensures Alone(sh, Popped(c, node, sem), w) ==
            if w.usable then (sh.(active := sh.active + 1), CheckedOut(c.(state := InUse)))
            else Alone(Uncounted(sh, c), Waiting(node, sem), w)
  {
    AloneStep(sh, Popped(c, node, sem), w);
    if !w.usable {
      AloneStep(sh.(total := SatSub(sh.total, 1)), Recycling(c, node, sem), w);
    }
  }

  lemma AloneOpen(sh: Shared, node: NodeId, sem: nat, w: World)
    ensures var granted := w.inTime && sem < |sh.permits| && sh.permits[sem] > 0;
            var conn := Connection(sh.nextId, node, sem, InUse);
            Alone(sh, Waiting(node, sem), w) ==
            if !granted then (sh, Done)
            else
              var taken := sh.(permits := sh.permits[sem := sh.permits[sem] - 1]);
              if w.connected then
                (taken.(nextId := sh.nextId + 1, active := sh.active + 1, total := sh.total + 1), CheckedOut(conn))
              else (taken.(permits := Release(taken.permits, sem)), Done)
  {
    AloneStep(sh, Waiting(node, sem), w);
    if w.inTime && sem < |sh.permits| && sh.permits[sem] > 0 {
      var taken := sh.(permits := sh.permits[sem := sh.permits[sem] - 1]);
      AloneStep(taken, Permitted(node, sem), w);
      if w.connected {
        var conn := Connection(sh.nextId, node, sem, InUse);
        var made := taken.(nextId := sh.nextId + 1);
        AloneStep(made, Created(conn), w);
        AloneStep(made.(active := sh.active + 1), Activated(conn), w);
      }
    }
  }

  function Emptied(sl: Slot): Slot
    requires sl.Dropping? || sl.Evicting? || sl.Clearing?
  {
    match sl
    case Dropping(_) => Dropping([])
    case Evicting(todo, expired, _, n) => Evicting(todo, expired, [], n)
    case Clearing(todo, _, n) => Clearing(todo, [], n)
  }

  /** One pool after `retain`, with the permits of what it dropped given back. */
  function Swept(sh: Shared, node: NodeId, kept: seq<Connection>, dropped: seq<Connection>): Shared
    requires node in sh.pools
  {
    SetIdle(sh, node, kept).(permits := ReleaseAll(sh.permits, dropped))
  }

  lemma AloneEvict(sh: Shared, todo: seq<NodeId>, expired: set<nat>, n: nat, w: World)
    requires todo != [] && todo[0] in sh.pools
    ensures var conns := sh.pools[todo[0]].connections;
            var out := Expired(conns, expired);
            Alone(sh, Evicting(todo, expired, [], n), w)
            == Alone(Swept(sh, todo[0], Kept(conns, expired), out), Evicting(todo[1..], expired, [], n + |out|), w)
  {
    hide Alone, Kept, Expired, ReleaseAll;
    var conns := sh.pools[todo[0]].connections;
    var out := Expired(conns, expired);
    AloneStep(sh, Evicting(todo, expired, [], n), w);
    DropAll(SetIdle(sh, todo[0], Kept(conns, expired)), Evicting(todo[1..], expired, out, n + |out|), w);
  }

  lemma AloneEvicted(sh: Shared, expired: set<nat>, n: nat, w: World)
    ensures Alone(sh, Evicting([], expired, [], n), w) == (sh.(total := SatSub(sh.total, n)), Done)
  {
    AloneStep(sh, Evicting([], expired, [], n), w);
  }

  lemma AloneClear(sh: Shared, todo: seq<NodeId>, n: nat, w: World)
    requires todo != [] && todo[0] in sh.pools
    ensures var conns := sh.pools[todo[0]].connections;
            Alone(sh, Clearing(todo, [], n), w)
            == Alone(Swept(sh, todo[0], [], conns), Clearing(todo[1..], [], n + |conns|), w)
  {
    hide Alone, ReleaseAll;
    var conns := sh.pools[todo[0]].connections;
    AloneStep(sh, Clearing(todo, [], n), w);
    DropAll(SetIdle(sh, todo[0], []), Clearing(todo[1..], conns, n + |conns|), w);
  }

  lemma AloneCleared(sh: Shared, n: nat, w: World)
    ensures Alone(sh, Clearing([], [], n), w) == (sh.(total := 0, active := 0), Done)
  {
    AloneStep(sh, Clearing([], [], n), w);
    AloneStep(sh.(total := 0), ZeroActive, w);
  }

  // ---- what the calls do, said outright --------------------------------------------------------

  /** Whether a connection carries a permit of this semaphore. */
  ghost function OfPermit(sem: nat): Connection -> nat {
    (c: Connection) => if c.permit == sem then 1 else 0
  }

  /** Each semaphore has got back as many permits as it had in the dropped connections. */
  ghost predicate GivenBack(before: seq<nat>, after: seq<nat>, dropped: seq<Connection>) {
    && |after| == |before|
    && forall sem :: 0 <= sem < |before| ==> after[sem] == before[sem] + SeqSum(dropped, OfPermit(sem))
  }

  lemma {:induction false} ReleaseAllGivesBack(permits: seq<nat>, conns: seq<Connection>)
    ensures GivenBack(permits, ReleaseAll(permits, conns), conns)
  {
    if conns != [] {
      ReleaseAllGivesBack(permits, conns[..|conns| - 1]);
    }
  }

  lemma ReleaseGivesBack(permits: seq<nat>, c: Connection)
    ensures GivenBack(permits, Release(permits, c.permit), [c])
  {
    forall sem: nat ensures SeqSum([c], OfPermit(sem)) == OfPermit(sem)(c) {
      SeqSumSingle(c, OfPermit(sem));
    }
  }

  /** One less, but never below zero. */
  function Less(gauge: nat, n: nat): nat {
    if gauge >= n then gauge - n else 0
  }

  /** Opening a connection from `v`: no permit in time; a permit and no connection; or both. */
  ghost predicate Opened(v: Shared, node: NodeId, sem: nat, w: World, v': Shared, r: Acquired) {
    if !(w.inTime && sem < |v.permits| && v.permits[sem] > 0) then r == TimedOut && v' == v
    else if !w.connected then r == ConnectFailed && v' == v
    else
      && r == Ok(Connection(v.nextId, node, sem, InUse))
      && v' == Shared(v.pools, v.permits[sem := v.permits[sem] - 1], v.total + 1, v.active + 1, v.nextId + 1)
  }

  /** The idle connection at place `k` is the first, and it leaves its pool; nothing else does. */
  ghost predicate TakenFirst(v: Shared, node: NodeId, k: nat, pools': map<NodeId, NodePool>)
    requires node in v.pools && k < |v.pools[node].connections|
  {
    var conns := v.pools[node].connections;
    && conns[k].state.Idle? && (forall j :: 0 <= j < k ==> !conns[j].state.Idle?)
    && pools'.Keys == v.pools.Keys && (forall n :: n in v.pools && n != node ==> pools'[n] == v.pools[n])
    && pools'[node].semaphore == v.pools[node].semaphore
    && multiset(pools'[node].connections) == multiset(conns) - multiset{conns[k]}
  }

  /** `get_connection`, from `v`. */
  ghost predicate Got(v: Shared, node: NodeId, w: World, v': Shared, r: Acquired) {
    if node !in v.pools then r == NotFound && v' == v
    else
      var pool := v.pools[node];
      if forall j :: 0 <= j < |pool.connections| ==> !pool.connections[j].state.Idle? then
        Opened(v, node, pool.semaphore, w, v', r)
      else
        exists k: nat :: k < |pool.connections| && TakenFirst(v, node, k, v'.pools) && GotAt(v, node, k, w, v', r)
  }

  /** The connection taken is handed out if it can be used; otherwise it is uncounted and dropped, and a new
      one is opened. */
  ghost predicate GotAt(v: Shared, node: NodeId, k: nat, w: World, v': Shared, r: Acquired)
    requires node in v.pools && k < |v.pools[node].connections|
  {
    var c := v.pools[node].connections[k];
    if w.usable then
      && r == Ok(c.(state := InUse))
      && v' == Shared(v'.pools, v.permits, v.total, v.active + 1, v.nextId)
    else
      exists permits: seq<nat> ::
        && GivenBack(v.permits, permits, [c])
        && var dropped := Shared(v'.pools, permits, Less(v.total, 1), v.active, v.nextId);
           Opened(dropped, node, v.pools[node].semaphore, w, v', r)
  }

  lemma GotNone(v: Shared, node: NodeId, w: World, v': Shared, r: Acquired)
    requires node in v.pools && Opened(v, node, v.pools[node].semaphore, w, v', r)
    requires forall j :: 0 <= j < |v.pools[node].connections| ==> !v.pools[node].connections[j].state.Idle?
    ensures Got(v, node, w, v', r)
  {
  }

  lemma GotUsable(v: Shared, node: NodeId, k: nat, w: World, v': Shared)
    requires node in v.pools && k < |v.pools[node].connections| && w.usable
    requires TakenFirst(v, node, k, v'.pools)
    requires v' == Shared(v'.pools, v.permits, v.total, v.active + 1, v.nextId)
    ensures Got(v, node, w, v', Ok(v.pools[node].connections[k].(state := InUse)))
  {
    assert GotAt(v, node, k, w, v', Ok(v.pools[node].connections[k].(state := InUse)));
  }

  lemma GotReplaced(v: Shared, node: NodeId, k: nat, w: World, dropped: Shared, v': Shared, r: Acquired)
    requires node in v.pools && k < |v.pools[node].connections| && !w.usable
    requires TakenFirst(v, node, k, dropped.pools)
    requires GivenBack(v.permits, dropped.permits, [v.pools[node].connections[k]])
    requires dropped == Shared(dropped.pools, dropped.permits, Less(v.total, 1), v.active, v.nextId)
    requires Opened(dropped, node, v.pools[node].semaphore, w, v', r)
    ensures Got(v, node, w, v', r)
  {
    hide Opened, GivenBack;
    KeepsPools(dropped, node, v.pools[node].semaphore, w, v', r);
    assert GotAt(v, node, k, w, v', r);
  }

  lemma LessIsSatSub(gauge: nat, n: nat)
    ensures Less(gauge, n) == SatSub(gauge, n)
  {
  }

  lemma KeepsPools(v: Shared, node: NodeId, sem: nat, w: World, v': Shared, r: Acquired)
    requires Opened(v, node, sem, w, v', r)
    ensures v'.pools == v.pools
  {
  }

  lemma SwapRemoveTakes(conns: seq<Connection>, k: nat)
    requires k < |conns|
    ensures multiset(SwapRemove(conns, k)) == multiset(conns) - multiset{conns[k]}
  {
    var n := |conns| - 1;
    if k == n {
      assert conns == conns[..n] + [conns[n]];
      assert SwapRemove(conns, k) == conns[..n];
    } else {
      assert conns == conns[..k] + [conns[k]] + conns[k + 1..n] + [conns[n]];
      assert SwapRemove(conns, k) == conns[..k] + [conns[n]] + conns[k + 1..n];
    }
  }

  /** Two points of the same lone call: whatever the world answers, both end alike. */
  ghost predicate SameEnd(a: Shared, b: Slot, c: Shared, d: Slot) {
    forall w :: Alone(a, b, w) == Alone(c, d, w)
  }

  /** What has not expired is still there, and nothing else. */
  ghost predicate KeptOnly(before: seq<Connection>, after: seq<Connection>, expired: set<nat>) {
    forall c :: c in after <==> c in before && c.id !in expired
  }

  lemma KeptTwice(a: seq<Connection>, b: seq<Connection>, c: seq<Connection>, expired: set<nat>)
    requires (b == a || KeptOnly(a, b, expired)) && KeptOnly(b, c, expired)
    ensures KeptOnly(a, c, expired)
  {
  }

  /** The pools of these nodes have been swept, and the others left alone. */
  ghost predicate SweptAll(
    before: map<NodeId, NodePool>, after: map<NodeId, NodePool>, nodes: set<NodeId>, expired: set<nat>)
  {
    && after.Keys == before.Keys
    && forall n :: n in after ==>
         && after[n].semaphore == before[n].semaphore
         && if n in nodes then KeptOnly(before[n].connections, after[n].connections, expired) else after[n] == before[n]
  }

  lemma NoneSwept(pools: map<NodeId, NodePool>, expired: set<nat>)
    ensures SweptAll(pools, pools, {}, expired)
  {
  }

  lemma SweptStep(
    before: map<NodeId, NodePool>, now: map<NodeId, NodePool>, after: map<NodeId, NodePool>,
    nodes: set<NodeId>, node: NodeId, expired: set<nat>)
    requires SweptAll(before, now, nodes, expired) && node in now && after.Keys == now.Keys
    requires after[node].semaphore == now[node].semaphore
    requires KeptOnly(now[node].connections, after[node].connections, expired)
    requires forall n :: n in after && n != node ==> after[n] == now[n]
    ensures SweptAll(before, after, nodes + {node}, expired)
  {
    hide KeptOnly;
    KeptTwice(before[node].connections, now[node].connections, after[node].connections, expired);
  }

  method FindIdle(conns: seq<Connection>) returns (k: nat)
    ensures k == FirstIdle(conns)
  {
    k := 0;
    while k < |conns| && !conns[k].state.Idle?
      invariant k <= |conns|
      invariant FirstIdle(conns) == k + FirstIdle(conns[k..])
    {
      assert conns[k..][1..] == conns[k + 1..];
      k := k + 1;
    }
  }

  /** `Vec::retain` on an idle list: what stays, and what is dropped on the way. */
  method Retain(conns: seq<Connection>, expired: set<nat>) returns (kept: seq<Connection>, dropped: seq<Connection>)
    ensures kept == Kept(conns, expired) && dropped == Expired(conns, expired)
    ensures KeptOnly(conns, kept, expired)
  {
    kept, dropped := [], [];
    for j := 0 to |conns|
      invariant kept == Kept(conns[..j], expired) && dropped == Expired(conns[..j], expired)
      invariant forall c :: c in kept ==> c in conns && c.id !in expired
      invariant forall c :: c in conns[..j] && c.id !in expired ==> c in kept
    {
      assert conns[..j + 1][..j] == conns[..j];
      if conns[j].id in expired {
        dropped := dropped + [conns[j]];
      } else {
        kept := kept + [conns[j]];
      }
    }
    assert conns[..|conns|] == conns;
  }

  class ConnectionPool {
    const maxConnections: nat
    var pools: map<NodeId, NodePool>
    var permits: seq<nat>
    var total: nat
    var active: nat
    var nextId: nat

    ghost function View(): Shared
      reads this
    {
      Shared(pools, permits, total, active, nextId)
    }

    constructor (max: nat)
      ensures maxConnections == max && View() == Initial().shared
    {
      maxConnections := max;
      pools, permits, total, active, nextId := map[], [], 0, 0, 0;
    }

    method AddNode(node: NodeId)
      modifies this
      ensures View() == AddPool(old(View()), node, maxConnections)
      ensures node in old(pools) ==> View() == old(View())
      ensures node !in old(pools) ==>
                && pools == old(pools)[node := NodePool([], |old(permits)|)]
                && permits == old(permits) + [maxConnections]
                && total == old(total) && active == old(active) && nextId == old(nextId)
    {
      if node !in pools {
        pools := pools[node := NodePool([], |permits|)];
        permits := permits + [maxConnections];
      }
    }

    /** Dropping connections gives their permits back. */
    method DropConnections(conns: seq<Connection>)
      modifies this`permits
      ensures permits == ReleaseAll(old(permits), conns)
    {
      for j := 0 to |conns|
        invariant permits == ReleaseAll(old(permits), conns[..j])
      {
        assert conns[..j + 1][..j] == conns[..j];
        permits := Release(permits, conns[j].permit);
      }
      assert conns[..|conns|] == conns;
    }

    method RemoveNode(node: NodeId)
      modifies this
      ensures forall w :: Ran(BeginRemove(old(View()), node), w, Done)
      ensures node !in old(pools) ==> View() == old(View())
      ensures node in old(pools) ==>
                && node !in pools && pools == old(pools) - {node}
                && total == Less(old(total), |old(pools)[node].connections|)
                && GivenBack(old(permits), permits, old(pools)[node].connections)
                && active == old(active) && nextId == old(nextId)
    {
      if node in pools {
        ReleaseAllGivesBack(permits, pools[node].connections);
        var pool := pools[node];
        pools := pools - {node};
        total := SatSub(total, |pool.connections|);
        DropConnections(pool.connections);
        forall w ensures Ran(BeginRemove(old(View()), node), w, Done) {
          var (sh, sl) := BeginRemove(old(View()), node);
          DropAll(sh, sl, w);
        }
      }
    }

    /** The call that began as `start` ended here, with its slot as `end`. */
    ghost predicate Ran(start: (Shared, Slot), w: World, end: Slot)
      reads this
    {
      Alone(start.0, start.1, w) == (View(), end)
    }

    /** `get_connection`: reuse an idle connection, or take a permit and open a new one. */
    method GetConnection(node: NodeId, w: World) returns (r: Acquired)
      modifies this
      ensures Ran(BeginGet(old(View()), node), w, if r.Ok? then CheckedOut(r.conn) else Done)
      ensures r.NotFound? <==> node !in old(pools)
      ensures r.Ok? ==> r.conn.state.InUse?
      ensures Got(old(View()), node, w, View(), r)
    {
      hide Alone, Opened, GivenBack, TakenFirst, SetIdle, SwapRemove, FirstIdle, Uncounted, GotAt;
      if node !in pools {
        AloneDone(View(), w);
        return NotFound;
      }
      hide Got;
      var sem := pools[node].semaphore;
      var k := FindIdle(pools[node].connections);
      if k == |pools[node].connections| {
        r := Open(node, sem, w);
        GotNone(old(View()), node, w, View(), r);
        return;
      }
      var conn := TakeIdle(node, k);
      ghost var popped := View();
      AlonePopped(popped, conn, node, sem, w);
      if w.usable {
        active := active + 1;
        r := Ok(conn.(state := InUse));
        GotUsable(old(View()), node, k, w, View());
        return;
      }
      DropDead(conn);
      ghost var dropped := View();
      r := Open(node, sem, w);
      GotReplaced(old(View()), node, k, w, dropped, View(), r);
    }

    /** A connection that cannot be used is uncounted and dropped, with its permit. */
    method DropDead(conn: Connection)
      modifies this`total, this`permits
      ensures View() == Uncounted(old(View()), conn)
      ensures total == Less(old(total), 1) && GivenBack(old(permits), permits, [conn])
    {
      ReleaseGivesBack(permits, conn);
      LessIsSatSub(total, 1);
      total := SatSub(total, 1);
      permits := Release(permits, conn.permit);
    }

    /** The lock section of `get_connection`: the first idle connection leaves its pool, and the last one takes
        its place. */
    method TakeIdle(node: NodeId, k: nat) returns (conn: Connection)
      requires node in pools && k == FirstIdle(pools[node].connections) < |pools[node].connections|
      modifies this`pools
      ensures conn == old(pools)[node].connections[k]
      ensures View() == SetIdle(old(View()), node, SwapRemove(old(pools)[node].connections, k))
      ensures TakenFirst(old(View()), node, k, pools)
    {
      var pool := pools[node];
      conn := pool.connections[k];
      var moved := pool.connections[k := pool.connections[|pool.connections| - 1]];
      SwapRemoveTakes(pool.connections, k);
      pools := pools[node := pool.(connections := moved[..|moved| - 1])];
    }

    /** The create-new path of `get_connection`. */
    method Open(node: NodeId, sem: nat, w: World) returns (r: Acquired)
      modifies this
      ensures Ran((old(View()), Waiting(node, sem)), w, if r.Ok? then CheckedOut(r.conn) else Done)
      ensures !r.NotFound? && (r.Ok? ==> r.conn.state.InUse?)
      ensures Opened(old(View()), node, sem, w, View(), r)
    {
      hide Alone;
      AloneOpen(View(), node, sem, w);
      if !(w.inTime && sem < |permits| && permits[sem] > 0) {
        return TimedOut;
      }
      permits := permits[sem := permits[sem] - 1];
      if !w.connected {
        permits := Release(permits, sem);
        return ConnectFailed;
      }
      var conn := Connection(nextId, node, sem, InUse);
      nextId := nextId + 1;
      active := active + 1;
      total := total + 1;
      return Ok(conn);
    }

    method ReturnConnection(conn: Connection)
      modifies this
      ensures forall w :: Ran((old(View()), Returning(conn)), w, Done)
      ensures active == Less(old(active), 1) && nextId == old(nextId)
      ensures conn.node in old(pools) ==>
                && pools == old(pools)[conn.node := NodePool(
                     old(pools)[conn.node].connections + [conn.(state := Idle)], old(pools)[conn.node].semaphore)]
                && total == old(total) && permits == old(permits)
      ensures conn.node !in old(pools) ==>
                && pools == old(pools) && total == Less(old(total), 1)
                && GivenBack(old(permits), permits, [conn])
    {
      ReleaseGivesBack(permits, conn);
      forall w {
        AloneReturn(View(), conn, w);
      }
      active := SatSub(active, 1);
      if conn.node in pools {
        var pool := pools[conn.node];
        pools := pools[conn.node := pool.(connections := pool.connections + [conn.(state := Idle)])];
      } else {
        total := SatSub(total, 1);
        permits := Release(permits, conn.permit);
      }
    }

    method CloseConnection(conn: Connection)
      modifies this
      ensures forall w :: Ran((old(View()), Closing(conn)), w, Done)
      ensures pools == old(pools) && nextId == old(nextId)
      ensures active == Less(old(active), 1) && total == Less(old(total), 1)
      ensures GivenBack(old(permits), permits, [conn])
    {
      ReleaseGivesBack(permits, conn);
      forall w {
        AloneClose(View(), conn, w);
      }
      active := SatSub(active, 1);
      total := SatSub(total, 1);
      permits := Release(permits, conn.permit);
    }

    /** Replaces one idle list and drops the connections that left it. */
    method SweepPool(node: NodeId, kept: seq<Connection>, dropped: seq<Connection>)
      requires node in pools
      modifies this
      ensures View() == Swept(old(View()), node, kept, dropped)
    {
      pools := pools[node := pools[node].(connections := kept)];
      DropConnections(dropped);
    }

    /** `evict_idle` on one pool. */
    method EvictPool(node: NodeId, expired: set<nat>) returns (evicted: nat)
      requires node in pools
      modifies this
      ensures var conns := old(pools)[node].connections;
              && View() == Swept(old(View()), node, Kept(conns, expired), Expired(conns, expired))
              && evicted == |Expired(conns, expired)|
      ensures pools.Keys == old(pools).Keys && pools[node].semaphore == old(pools)[node].semaphore
      ensures KeptOnly(old(pools)[node].connections, pools[node].connections, expired)
      ensures forall n :: n in pools && n != node ==> pools[n] == old(pools)[n]
      ensures evicted + MapSum(pools, PoolSize) == MapSum(old(pools), PoolSize)
      ensures total == old(total) && active == old(active) && nextId == old(nextId)
    {
      hide Kept, Expired, ReleaseAll, MapSum, KeptOnly;
      KeptSums(View(), node, expired, ById(0));
      var kept, dropped := Retain(pools[node].connections, expired);
      SweepPool(node, kept, dropped);
      evicted := |dropped|;
    }

    /** `evict_idle`, visiting the pools in the order in which the map yields them. */
    method EvictIdle(order: seq<NodeId>, expired: set<nat>)
      requires multiset(order) == multiset(pools.Keys)
      modifies this
      ensures forall w :: Ran((old(View()), Evicting(order, expired, [], 0)), w, Done)
      ensures SweptAll(old(pools), pools, pools.Keys, expired)
      ensures active == old(active) && nextId == old(nextId)
      ensures MapSum(pools, PoolSize) <= MapSum(old(pools), PoolSize)
      ensures total == Less(old(total), MapSum(old(pools), PoolSize) - MapSum(pools, PoolSize))
    {
      hide Alone, Kept, Expired, ReleaseAll, MapSum, KeptOnly, SweptAll, Swept, SetIdle;
      var evicted: nat := 0;
      ghost var done: set<NodeId> := {};
      NoneSwept(pools, expired);
      for k := 0 to |order|
        invariant SameEnd(old(View()), Evicting(order, expired, [], 0),
                          View(), Evicting(order[k..], expired, [], evicted))
        invariant pools.Keys == old(pools).Keys
        invariant SweptAll(old(pools), pools, done, expired)
        invariant done <= pools.Keys && forall j :: 0 <= j < k ==> order[j] in done
        invariant total == old(total) && active == old(active) && nextId == old(nextId)
        invariant evicted + MapSum(pools, PoolSize) == MapSum(old(pools), PoolSize)
      {
        assert order[k] in multiset(order);
        assert order[k..][0] == order[k] && order[k..][1..] == order[k + 1..];
        forall w {
          AloneEvict(View(), order[k..], expired, evicted, w);
        }
        ghost var before := pools;
        var dropped := EvictPool(order[k], expired);
        SweptStep(old(pools), before, pools, done, order[k], expired);
        done := done + {order[k]};
        evicted := evicted + dropped;
      }
      assert order[|order|..] == [];
      forall w {
        AloneEvicted(View(), expired, evicted, w);
      }
      LessIsSatSub(total, evicted);
      total := SatSub(total, evicted);
      assert forall n :: n in pools ==> n in multiset(order);
      assert done == pools.Keys;
    }

    method CloseAll(order: seq<NodeId>)
      requires multiset(order) == multiset(pools.Keys)
      modifies this
      ensures forall w :: Ran((old(View()), Clearing(order, [], 0)), w, Done)
      ensures total == 0 && active == 0 && nextId == old(nextId) && pools.Keys == old(pools).Keys
      ensures forall n :: n in pools ==> pools[n] == NodePool([], old(pools)[n].semaphore)
    {
      hide Alone, ReleaseAll;
      ghost var cleared: nat := 0;
      for k := 0 to |order|
        invariant pools.Keys == old(pools.Keys)
        invariant SameEnd(old(View()), Clearing(order, [], 0), View(), Clearing(order[k..], [], cleared))
        invariant forall j :: 0 <= j < k && order[j] in pools ==> pools[order[j]].connections == []
        invariant forall n :: n in pools ==> pools[n].semaphore == old(pools)[n].semaphore
        invariant nextId == old(nextId)
      {
        assert order[k] in multiset(order);
        assert order[k..][0] == order[k] && order[k..][1..] == order[k + 1..];
        forall w {
          AloneClear(View(), order[k..], cleared, w);
        }
        cleared := cleared + |pools[order[k]].connections|;
        SweepPool(order[k], [], pools[order[k]].connections);
      }
      assert order[|order|..] == [];
      forall w {
        AloneCleared(View(), cleared, w);
      }
      total := 0;
      active := 0;
      assert forall n :: n in pools ==> n in multiset(order);
    }
  }

  /** What the other threads do to a gauge just before one attempt of the exchange, and whether the
      weak exchange fails without cause. */
  datatype Disturbance = Disturbance(value: nat, spurious: bool)

  class AtomicGauge {
    var value: nat

    method CompareExchangeWeak(expected: nat, new_: nat, spurious: bool) returns (done: bool, actual: nat)
      modifies this
      ensures done <==> old(value) == expected && !spurious
      ensures actual == old(value)
      ensures value == if done then new_ else old(value)
    {
      actual := value;
      done := actual == expected && !spurious;
      if done {
        value := new_;
      }
    }

    /** The compare-exchange loop: however often other threads get in between, the call performs one
        saturating subtraction, on the value the others left last. */
    method SaturatingSub(n: nat, others: seq<Disturbance>) returns (attempts: nat)
      modifies this
      ensures 1 <= attempts <= |others| + 2
      ensures value == SatSub(if attempts <= |others| then others[attempts - 1].value
                              else if others == [] then old(value) else others[|others| - 1].value, n)
    {
      var current := value;
      attempts := 0;
      var done := false;
      while !done
        invariant attempts <= |others| + 2
        invariant attempts == |others| + 2 ==> done
        invariant done ==> attempts >= 1
        invariant attempts == |others| + 1 && !done ==> current == value
        invariant var left := if attempts == 0 || others == [] then old(value)
                              else if attempts <= |others| then others[attempts - 1].value
                              else others[|others| - 1].value;
                  value == if done then SatSub(left, n) else left
        invariant attempts == 0 ==> current == value
        decreases !done, |others| + 2 - attempts
      {
        var spurious := false;
        if attempts < |others| {
          value, spurious := others[attempts].value, others[attempts].spurious;
        }
        var actual;
        done, actual := CompareExchangeWeak(current, SatSub(current, n), spurious);
        current := actual;
        attempts := attempts + 1;
      }
    }
  }
}
