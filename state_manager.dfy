/** backend/core/state_manager.py: the node registry (`STATE["nodes"]`) and the
    pool of free VNC ports (`STATE["port_manager"]`).

    The registry is a class whose methods update its fields in place, as the
    Python functions mutate the global `STATE`. Each method is specified by a
    function on the value `State`, and the properties the module promises
    (duplicate-free pool, running fields set together, port conservation,
    pruning) are lemmas about those functions. */
module StateManager {
  import opened Common
  import Config

  datatype Status = Stopped | Running

  /** One node record: the dict with keys `status`, `pid`, `vnc_port`,
      `guac_conn_id` and `overlay_path`. */
  datatype Node = Node(
    status: Status,
    pid: Option<Pid>,
    vncPort: Option<int>,
    guacConnId: Option<string>,
    overlayPath: string)

  /** The content of `STATE`. `order` is the insertion order of the `nodes`
      dict, which Python iterates in; `ports` is the `port_manager` list. */
  datatype State = State(order: seq<string>, nodes: map<string, Node>, ports: seq<int>)

  /** `is_pid_running`, against an abstract process table: `alive` holds the
      pids whose process has not exited, which is where `os.kill(pid, 0)`
      succeeds as long as exited children are reaped at once. */
  function PidRunning(alive: set<int>, pid: Option<Pid>): (r: bool)
    ensures pid.None? ==> !r
    ensures pid.Some? ==> (r <==> pid.value in alive)
  {
    pid.Some? && pid.value in alive
  }

  /** The running fields are all set exactly when the status is running. */
  predicate Consistent(n: Node) {
    && (n.status == Running <==> n.pid.Some?)
    && (n.status == Running <==> n.vncPort.Some?)
    && (n.status == Running <==> n.guacConnId.Some?)
  }

  /** What every reachable `STATE` satisfies: the order lists each node once,
      every node is consistent and the pool holds no port twice. */
  ghost predicate WellFormed(s: State) {
    && NoDup(s.order)
    && (forall id :: id in s.nodes <==> id in s.order)
    && (forall id :: id in s.nodes ==> Consistent(s.nodes[id]))
    && NoDup(s.ports)
  }

  // ---------------------------------------------------------------------------
  // The operations on the state, as functions

  /** `release_port`: the port goes to the end of the pool when it is truthy
      (present and not 0) and not already free; otherwise nothing changes. */
  function Released(ports: seq<int>, port: Option<int>): (r: seq<int>)
    ensures NoDup(ports) ==> NoDup(r)
    ensures forall p :: p in r <==> p in ports || (port == Some(p) && p != 0)
    ensures |ports| <= |r| <= |ports| + 1 && r[..|ports|] == ports
  {
    if port.Some? && port.value != 0 && port.value !in ports then ports + [port.value] else ports
  }

  /** Releasing twice is releasing once. */
  lemma ReleaseIdempotent(ports: seq<int>, port: Option<int>)
    ensures Released(Released(ports, port), port) == Released(ports, port)
  {
  }

  /** The record after `update_node_stop` overwrote its fields. */
  function Cleared(n: Node): (m: Node)
    ensures Consistent(m) && m.status == Stopped && m.overlayPath == n.overlayPath
    ensures m.pid.None? && m.vncPort.None? && m.guacConnId.None?
  {
    n.(status := Stopped, pid := None, vncPort := None, guacConnId := None)
  }

  /** A stopped consistent record is already cleared. */
  lemma ClearedStopped(n: Node)
    requires Consistent(n) && n.status == Stopped
    ensures Cleared(n) == n
  {
  }

  /** `create_node_entry`: a stopped record with no running fields. Assigning
      to an existing dict key keeps its place in the order. */
  function WithNewNode(s: State, id: string, overlayPath: string): (t: State)
    ensures WellFormed(s) ==> WellFormed(t)
    ensures t.ports == s.ports && t.nodes.Keys == s.nodes.Keys + {id}
    ensures t.nodes[id] == Node(Stopped, None, None, None, overlayPath)
    ensures forall other :: other in s.nodes && other != id ==> t.nodes[other] == s.nodes[other]
  {
    var order := if id in s.nodes then s.order else s.order + [id];
    State(order, s.nodes[id := Node(Stopped, None, None, None, overlayPath)], s.ports)
  }

  /** `update_node_run`: the three running fields are set together; an
      unknown id changes nothing. */
  function WithRunning(s: State, id: string, pid: Pid, port: int, connId: string): (t: State)
    ensures WellFormed(s) ==> WellFormed(t)
    ensures t.order == s.order && t.ports == s.ports && t.nodes.Keys == s.nodes.Keys
    ensures id !in s.nodes ==> t == s
    ensures id in s.nodes ==>
      && t.nodes[id].status == Running && t.nodes[id].overlayPath == s.nodes[id].overlayPath
      && t.nodes[id].pid == Some(pid) && t.nodes[id].vncPort == Some(port) && t.nodes[id].guacConnId == Some(connId)
    ensures forall other :: other in s.nodes && other != id ==> t.nodes[other] == s.nodes[other]
  {
    if id in s.nodes then
      var n := s.nodes[id].(status := Running, pid := Some(pid), vncPort := Some(port), guacConnId := Some(connId));
      s.(nodes := s.nodes[id := n])
    else s
  }

  /** `update_node_stop`: the node's port goes back to the pool and its
      running fields are cleared; an unknown id changes nothing. */
  function WithStopped(s: State, id: string): (t: State)
    ensures WellFormed(s) ==> WellFormed(t)
    ensures t.order == s.order && t.nodes.Keys == s.nodes.Keys
    ensures id !in s.nodes ==> t == s
    ensures id in s.nodes ==> t.nodes[id] == Cleared(s.nodes[id]) && t.ports == Released(s.ports, s.nodes[id].vncPort)
    ensures forall other :: other in s.nodes && other != id ==> t.nodes[other] == s.nodes[other]
  {
    if id in s.nodes then
      State(s.order, s.nodes[id := Cleared(s.nodes[id])], Released(s.ports, s.nodes[id].vncPort))
    else s
  }

  /** The order without `x`; the others keep their places. */
  function RemoveId(xs: seq<string>, x: string): (r: seq<string>)
    ensures forall y :: y in r <==> y in xs && y != x
    ensures NoDup(xs) ==> NoDup(r)
  {
    if xs == [] then []
    else
      assert NoDup(xs) ==> NoDup(xs[1..]) && xs[0] !in xs[1..];
      if xs[0] == x then RemoveId(xs[1..], x)
      else [xs[0]] + RemoveId(xs[1..], x)
  }

  /** `delete_node_entry`: only `id` goes; an absent id changes nothing. */
  function Without(s: State, id: string): (t: State)
    ensures WellFormed(s) ==> WellFormed(t)
    ensures t.ports == s.ports && t.nodes.Keys == s.nodes.Keys - {id}
    ensures forall other :: other in t.nodes ==> t.nodes[other] == s.nodes[other]
    ensures WellFormed(s) && id !in s.nodes ==> t == s
  {
    if id in s.nodes then State(RemoveId(s.order, id), s.nodes - {id}, s.ports) else s
  }

  /** A record that says running while its process is gone. */
  predicate IsStale(n: Node, alive: set<int>) {
    n.status == Running && !PidRunning(alive, n.pid)
  }

  /** One step of the prune loop. */
  function PruneOne(s: State, id: string, alive: set<int>): State {
    if id in s.nodes && IsStale(s.nodes[id], alive) then WithStopped(s, id) else s
  }

  /** The prune loop over the ids `ids`, in that order. */
  function PruneIds(s: State, ids: seq<string>, alive: set<int>): State
    decreases |ids|
  {
    if ids == [] then s else PruneOne(PruneIds(s, ids[..|ids| - 1], alive), ids[|ids| - 1], alive)
  }

  /** Pruning over one more id is one more prune step. */
  lemma PruneIdsStep(s: State, ids: seq<string>, i: int, alive: set<int>)
    requires 0 <= i < |ids|
    ensures PruneIds(s, ids[..i + 1], alive) == PruneOne(PruneIds(s, ids[..i], alive), ids[i], alive)
  {
    assert ids[..i + 1][..i] == ids[..i];
  }

  /** The prune loop over every node, in insertion order. */
  function Pruned(s: State, alive: set<int>): State {
    PruneIds(s, s.order, alive)
  }

  // ---------------------------------------------------------------------------
  // Pruning

  /** Node by node, pruning over `ids` clears exactly the stale records among
      `ids`, leaves every other record as it was, keeps the order and keeps
      the state well formed. */
  lemma {:induction false} PruneIdsNodes(s: State, ids: seq<string>, alive: set<int>)
    requires WellFormed(s) && NoDup(ids)
    ensures var t := PruneIds(s, ids, alive);
      && WellFormed(t) && t.order == s.order && t.nodes.Keys == s.nodes.Keys
      && forall id :: id in s.nodes ==>
           t.nodes[id] == if id in ids && IsStale(s.nodes[id], alive) then Cleared(s.nodes[id]) else s.nodes[id]
    decreases |ids|
  {
    if ids != [] {
      var front, last := ids[..|ids| - 1], ids[|ids| - 1];
      assert NoDup(front);
      assert last !in front;
      PruneIdsNodes(s, front, alive);
      forall id | id in ids
        ensures id in front || id == last
      {
        var k :| 0 <= k < |ids| && ids[k] == id;
        if k < |ids| - 1 { assert front[k] == id; }
      }
    }
  }

  /** After the prune loop no record is stale. */
  lemma NoStaleAfterPrune(s: State, alive: set<int>)
    requires WellFormed(s)
    ensures var t := Pruned(s, alive);
      forall id :: id in t.nodes ==> !IsStale(t.nodes[id], alive)
  {
    PruneIdsNodes(s, s.order, alive);
  }

  /** Pruning a state without stale records changes nothing. */
  lemma {:induction false} PruneIdsClean(s: State, ids: seq<string>, alive: set<int>)
    requires forall id :: id in s.nodes ==> !IsStale(s.nodes[id], alive)
    ensures PruneIds(s, ids, alive) == s
    decreases |ids|
  {
    if ids != [] {
      PruneIdsClean(s, ids[..|ids| - 1], alive);
    }
  }

  /** A second prune pass changes nothing. */
  lemma PruneIdempotent(s: State, alive: set<int>)
    requires WellFormed(s)
    ensures Pruned(Pruned(s, alive), alive) == Pruned(s, alive)
  {
    NoStaleAfterPrune(s, alive);
    PruneIdsClean(Pruned(s, alive), Pruned(s, alive).order, alive);
  }

  // ---------------------------------------------------------------------------
  // Port conservation

  /** The port a record holds, as a bag of at most one element. */
  function PortsOf(n: Node): (b: multiset<int>)
    ensures |b| <= 1
  {
    if n.vncPort.Some? then multiset{n.vncPort.value} else multiset{}
  }

  /** The ports held by the records of `order`. */
  function Held(order: seq<string>, nodes: map<string, Node>): multiset<int>
  {
    if order == [] then multiset{}
    else (if order[0] in nodes then PortsOf(nodes[order[0]]) else multiset{}) + Held(order[1..], nodes)
  }

  /** A pool the configuration can give: no port twice and no falsy port. */
  ghost predicate PoolShaped(pool: multiset<int>) {
    0 !in pool && forall p :: pool[p] <= 1
  }

  /** The configured pool, as a bag. */
  ghost const CONFIGURED_POOL: multiset<int> := multiset(Config.VNC_PORT_POOL)

  /** Ports are neither lost nor duplicated: the free ports and the ports the
      records hold make up `pool` exactly. */
  ghost predicate Conserved(s: State, pool: multiset<int>) {
    WellFormed(s) && multiset(s.ports) + Held(s.order, s.nodes) == pool
  }

  /** The state `STATE` starts from. */
  function Initial(): (s: State)
    ensures s.nodes == map[] && s.ports == Config.VNC_PORT_POOL
  {
    State([], map[], Config.VNC_PORT_POOL)
  }

  /** A duplicate-free sequence holds each value at most once. */
  lemma {:induction false} NoDupCount(xs: seq<int>, p: int)
    requires NoDup(xs)
    ensures multiset(xs)[p] <= 1
  {
    if xs != [] {
      assert xs == [xs[0]] + xs[1..];
      assert NoDup(xs[1..]);
      NoDupCount(xs[1..], p);
      if xs[0] == p {
        assert p !in xs[1..];
      }
    }
  }

  /** A duplicate-free list without 0 gives a pool of that shape. */
  lemma ListPoolShaped(xs: seq<int>)
    requires NoDup(xs) && 0 !in xs
    ensures PoolShaped(multiset(xs))
  {
    forall p
      ensures multiset(xs)[p] <= 1
    {
      NoDupCount(xs, p);
    }
  }

  /** The configured pool has that shape. */
  lemma ConfiguredPoolShaped()
    ensures PoolShaped(CONFIGURED_POOL)
  {
    Config.PoolShape();
    ListPoolShaped(Config.VNC_PORT_POOL);
  }

  /** The initial state conserves the configured pool. */
  lemma InitialConserved()
    ensures Conserved(Initial(), CONFIGURED_POOL)
  {
    Config.PoolShape();
    assert Held([], map[]) == multiset{};
  }

  /** Records outside `order` do not count. */
  lemma {:induction false} HeldFrame(order: seq<string>, nodes: map<string, Node>, id: string, n: Node)
    requires id !in order
    ensures Held(order, nodes[id := n]) == Held(order, nodes)
    ensures Held(order, nodes - {id}) == Held(order, nodes)
  {
    if order != [] {
      HeldFrame(order[1..], nodes, id, n);
    }
  }

  /** Multiset union is associative. */
  lemma AddAssoc(x: multiset<int>, y: multiset<int>, z: multiset<int>)
    ensures (x + y) + z == x + (y + z)
  {
  }

  /** The step of `HeldUpdate` past a head that is not the replaced id. */
  lemma HeldUpdateStep(order: seq<string>, nodes: map<string, Node>, id: string, n: Node)
    requires order != [] && order[0] != id && id in nodes
    requires Held(order[1..], nodes[id := n]) + PortsOf(nodes[id]) == Held(order[1..], nodes) + PortsOf(n)
    ensures Held(order, nodes[id := n]) + PortsOf(nodes[id]) == Held(order, nodes) + PortsOf(n)
  {
    var m := nodes[id := n];
    var head := if order[0] in nodes then PortsOf(nodes[order[0]]) else multiset{};
    assert (if order[0] in m then PortsOf(m[order[0]]) else multiset{}) == head;
    var a, b := Held(order[1..], m), Held(order[1..], nodes);
    assert Held(order, m) == head + a;
    assert Held(order, nodes) == head + b;
    calc {
      Held(order, m) + PortsOf(nodes[id]);
      (head + a) + PortsOf(nodes[id]);
      { AddAssoc(head, a, PortsOf(nodes[id])); }
      head + (a + PortsOf(nodes[id]));
      head + (b + PortsOf(n));
      { AddAssoc(head, b, PortsOf(n)); }
      (head + b) + PortsOf(n);
      Held(order, nodes) + PortsOf(n);
    }
  }

  /** Replacing one record exchanges its port for the new record's. */
  lemma {:induction false} HeldUpdate(order: seq<string>, nodes: map<string, Node>, id: string, n: Node)
    requires NoDup(order) && id in order && id in nodes
    ensures Held(order, nodes[id := n]) + PortsOf(nodes[id]) == Held(order, nodes) + PortsOf(n)
  {
    if order[0] == id {
      assert id !in order[1..];
      HeldFrame(order[1..], nodes, id, n);
    } else {
      assert NoDup(order[1..]) && id in order[1..];
      HeldUpdate(order[1..], nodes, id, n);
      HeldUpdateStep(order, nodes, id, n);
    }
  }

  /** A record in the order contributes its port to the held bag. */
  lemma HeldHas(order: seq<string>, nodes: map<string, Node>, id: string)
    requires NoDup(order) && id in order && id in nodes
    ensures PortsOf(nodes[id]) <= Held(order, nodes)
  {
    var n := Cleared(nodes[id]);
    HeldUpdate(order, nodes, id, n);
    assert PortsOf(n) == multiset{};
  }

  /** Removing an id the order does not hold changes nothing. */
  lemma {:induction false} RemoveAbsent(xs: seq<string>, x: string)
    requires x !in xs
    ensures RemoveId(xs, x) == xs
  {
    if xs != [] {
      RemoveAbsent(xs[1..], x);
    }
  }

  /** Removing an id that sits at position `i` of a duplicate-free order
      drops exactly that position: the other ids keep their relative order,
      as `del` keeps the order of a dict. */
  lemma {:induction false} RemoveIdAt(xs: seq<string>, x: string, i: int)
    requires NoDup(xs) && 0 <= i < |xs| && xs[i] == x
    ensures RemoveId(xs, x) == xs[..i] + xs[i + 1..]
    decreases |xs|
  {
    assert xs[0] !in xs[1..] && NoDup(xs[1..]);
    if i == 0 {
      RemoveAbsent(xs[1..], x);
    } else {
      var tail := xs[1..];
      RemoveIdAt(tail, x, i - 1);
      assert xs[..i] == [xs[0]] + tail[..i - 1];
      assert xs[i + 1..] == tail[i..];
    }
  }

  /** `delete_node_entry` keeps the insertion order of the remaining records. */
  lemma WithoutKeepsOrder(s: State, id: string, i: int)
    requires WellFormed(s) && 0 <= i < |s.order| && s.order[i] == id
    ensures Without(s, id).order == s.order[..i] + s.order[i + 1..]
  {
    RemoveIdAt(s.order, id, i);
  }

  /** Removing a record from the order and the map removes its port. */
  lemma {:induction false} HeldRemove(order: seq<string>, nodes: map<string, Node>, id: string)
    requires NoDup(order) && id in order && id in nodes
    ensures Held(RemoveId(order, id), nodes - {id}) + PortsOf(nodes[id]) == Held(order, nodes)
  {
    if order[0] == id {
      assert id !in order[1..];
      assert RemoveId(order, id) == RemoveId(order[1..], id);
      RemoveAbsent(order[1..], id);
      HeldFrame(order[1..], nodes, id, nodes[id]);
    } else {
      assert NoDup(order[1..]) && id in order[1..];
      HeldRemove(order[1..], nodes, id);
      assert RemoveId(order, id) == [order[0]] + RemoveId(order[1..], id);
      assert RemoveId(order, id)[1..] == RemoveId(order[1..], id);
    }
  }

  /** Appending a record to the order adds its port. */
  lemma {:induction false} HeldAppend(order: seq<string>, nodes: map<string, Node>, id: string)
    requires id in nodes
    ensures Held(order + [id], nodes) == Held(order, nodes) + PortsOf(nodes[id])
  {
    if order == [] {
      assert [id][1..] == [];
    } else {
      assert (order + [id])[1..] == order[1..] + [id];
      HeldAppend(order[1..], nodes, id);
    }
  }

  /** Under conservation every port is a pool port, so it is truthy and it is
      in exactly one place. */
  lemma PoolPort(s: State, pool: multiset<int>, p: int)
    requires PoolShaped(pool) && Conserved(s, pool)
    requires p in s.ports || p in Held(s.order, s.nodes)
    ensures p != 0
    ensures multiset(s.ports)[p] + Held(s.order, s.nodes)[p] == 1
  {
    assert pool[p] <= 1;
  }

  /** `update_node_stop` keeps ports conserved. */
  lemma StopConserves(s: State, pool: multiset<int>, id: string)
    requires PoolShaped(pool) && Conserved(s, pool)
    ensures Conserved(WithStopped(s, id), pool)
  {
    if id in s.nodes {
      var n := s.nodes[id];
      var t := WithStopped(s, id);
      HeldUpdate(s.order, s.nodes, id, Cleared(n));
      assert Held(t.order, t.nodes) + PortsOf(n) == Held(s.order, s.nodes);
      if n.vncPort.Some? {
        var p := n.vncPort.value;
        assert p in Held(s.order, s.nodes);
        PoolPort(s, pool, p);
        assert t.ports == s.ports + [p];
        assert multiset(t.ports) == multiset(s.ports) + PortsOf(n);
      } else {
        assert t.ports == s.ports;
      }
    }
  }

  /** Taking the head of a pool: the bag loses exactly that port. */
  lemma TakeHead(ports: seq<int>)
    requires ports != []
    ensures multiset(ports) == multiset{ports[0]} + multiset(ports[1..])
    ensures NoDup(ports) ==> NoDup(ports[1..]) && ports[0] !in ports[1..]
  {
    assert ports == [ports[0]] + ports[1..];
  }

  /** Setting the running fields of a record in `s` exchanges the port it held
      for `port` in the bag of held ports. */
  lemma RunningHeld(s: State, id: string, pid: Pid, port: int, connId: string)
    requires WellFormed(s) && id in s.nodes
    ensures var t := WithRunning(s, id, pid, port, connId);
      Held(t.order, t.nodes) + PortsOf(s.nodes[id]) == Held(s.order, s.nodes) + multiset{port}
  {
    var t := WithRunning(s, id, pid, port, connId);
    assert t.nodes == s.nodes[id := t.nodes[id]];
    HeldUpdate(s.order, s.nodes, id, t.nodes[id]);
  }

  /** A start that takes the head of the pool for a record holding no port
      keeps ports conserved. */
  lemma StartConserves(s: State, pool: multiset<int>, id: string, pid: Pid, connId: string)
    requires Conserved(s, pool) && id in s.nodes && s.nodes[id].vncPort.None? && s.ports != []
    ensures Conserved(WithRunning(s.(ports := s.ports[1..]), id, pid, s.ports[0], connId), pool)
  {
    var p := s.ports[0];
    var u := s.(ports := s.ports[1..]);
    var t := WithRunning(u, id, pid, p, connId);
    TakeHead(s.ports);
    assert WellFormed(u);
    RunningHeld(u, id, pid, p, connId);
    assert PortsOf(s.nodes[id]) == multiset{};
    calc {
      multiset(t.ports) + Held(t.order, t.nodes);
      multiset(s.ports[1..]) + (Held(s.order, s.nodes) + multiset{p});
      (multiset{p} + multiset(s.ports[1..])) + Held(s.order, s.nodes);
      pool;
    }
  }

  /** Restarting a record that still holds a port (a stale running record)
      loses that port: it is neither free nor held afterwards, so ports are
      no longer conserved. */
  lemma StaleRestartLeaksPort(s: State, pool: multiset<int>, id: string, pid: Pid, connId: string)
    requires PoolShaped(pool) && Conserved(s, pool)
    requires id in s.nodes && s.nodes[id].vncPort.Some? && s.ports != []
    ensures var t := WithRunning(s.(ports := s.ports[1..]), id, pid, s.ports[0], connId);
      && s.nodes[id].vncPort.value !in t.ports
      && s.nodes[id].vncPort.value !in Held(t.order, t.nodes)
      && !Conserved(t, pool)
  {
    var q := s.nodes[id].vncPort.value;
    var p := s.ports[0];
    var u := s.(ports := s.ports[1..]);
    var t := WithRunning(u, id, pid, p, connId);
    TakeHead(s.ports);
    assert WellFormed(u);
    RunningHeld(u, id, pid, p, connId);
    assert Held(t.order, t.nodes) + multiset{q} == Held(s.order, s.nodes) + multiset{p};
    HeldHas(s.order, s.nodes, id);
    assert q in Held(s.order, s.nodes);
    PoolPort(s, pool, q);
    assert q !in s.ports;
    assert q != p;
    assert (Held(t.order, t.nodes) + multiset{q})[q] == (Held(s.order, s.nodes) + multiset{p})[q];
    assert Held(t.order, t.nodes)[q] == 0;
    assert q !in t.ports;
    assert pool[q] == 1;
  }

  /** The rollback of a failed start returns the taken port, so ports stay
      conserved (the port moves from the head to the tail of the pool). */
  lemma RollbackConserves(s: State, pool: multiset<int>)
    requires PoolShaped(pool) && Conserved(s, pool) && s.ports != []
    ensures Conserved(s.(ports := Released(s.ports[1..], Some(s.ports[0]))), pool)
  {
    var p, rest := s.ports[0], s.ports[1..];
    PoolPort(s, pool, p);
    TakeHead(s.ports);
    var t := s.(ports := Released(rest, Some(p)));
    assert t.ports == rest + [p];
    assert WellFormed(t);
    calc {
      multiset(t.ports);
      multiset(rest) + multiset{p};
      multiset(s.ports);
    }
  }

  /** Adding a fresh record keeps ports conserved. */
  lemma CreateConserves(s: State, pool: multiset<int>, id: string, overlayPath: string)
    requires Conserved(s, pool) && id !in s.nodes
    ensures Conserved(WithNewNode(s, id, overlayPath), pool)
  {
    var t := WithNewNode(s, id, overlayPath);
    assert t.order == s.order + [id];
    HeldAppend(s.order, t.nodes, id);
    HeldFrame(s.order, s.nodes, id, t.nodes[id]);
    assert s.nodes[id := t.nodes[id]] == t.nodes;
  }

  /** Removing a record that holds no port keeps ports conserved. */
  lemma RemoveConserves(s: State, pool: multiset<int>, id: string)
    requires Conserved(s, pool) && (id in s.nodes ==> s.nodes[id].vncPort.None?)
    ensures Conserved(Without(s, id), pool)
  {
    if id in s.nodes {
      HeldRemove(s.order, s.nodes, id);
    }
  }

  /** The prune loop keeps ports conserved. */
  lemma {:induction false} PruneIdsConserves(s: State, pool: multiset<int>, ids: seq<string>, alive: set<int>)
    requires PoolShaped(pool) && Conserved(s, pool)
    ensures Conserved(PruneIds(s, ids, alive), pool)
    decreases |ids|
  {
    if ids != [] {
      var front := ids[..|ids| - 1];
      PruneIdsConserves(s, pool, front, alive);
      StopConserves(PruneIds(s, front, alive), pool, ids[|ids| - 1]);
    }
  }

  lemma PruneConserves(s: State, pool: multiset<int>, alive: set<int>)
    requires PoolShaped(pool) && Conserved(s, pool)
    ensures Conserved(Pruned(s, alive), pool)
  {
    PruneIdsConserves(s, pool, s.order, alive);
  }

  // ---------------------------------------------------------------------------
  // The registry object

  /** The global `STATE`, updated in place. */
  class Registry {
    var order: seq<string>
    var nodes: map<string, Node>
    var ports: seq<int>

    function Snapshot(): State
      reads this
    {
      State(order, nodes, ports)
    }

    ghost predicate Valid()
      reads this
    {
      WellFormed(Snapshot())
    }

    /** `STATE` at import time: no nodes and the whole configured pool. */
    constructor ()
      ensures Valid() && Snapshot() == Initial()
    {
      order, nodes, ports := [], map[], Config.VNC_PORT_POOL;
      Config.PoolShape();
    }

    /** `get_node`. */
    function GetNode(id: string): (r: Option<Node>)
      reads this
      requires Valid()
      ensures r.Some? <==> id in order
      ensures r.Some? ==> Consistent(r.value)
    {
      if id in nodes then Some(nodes[id]) else None
    }

    /** `get_free_port`: `None` stands for the "No free VNC ports available"
        exception, raised with the pool untouched. */
    method GetFreePort() returns (port: Option<int>)
      requires Valid()
      modifies this
      ensures Valid() && order == old(order) && nodes == old(nodes)
      ensures old(ports) == [] ==> port.None? && ports == old(ports)
      ensures old(ports) != [] ==> port == Some(old(ports)[0]) && ports == old(ports)[1..]
      ensures port.Some? ==> port.value !in ports
    {
      if ports == [] {
        return None;
      }
      port := Some(ports[0]);
      ports := ports[1..];
      assert ports[0..] == ports;
      assert old(ports)[0] !in ports;
    }

    /** `release_port`. */
    method ReleasePort(port: Option<int>)
      requires Valid()
      modifies this
      ensures Valid() && order == old(order) && nodes == old(nodes)
      ensures ports == Released(old(ports), port)
    {
      if port.Some? && port.value != 0 && port.value !in ports {
        ports := ports + [port.value];
      }
    }

    /** `create_node_entry`. */
    method CreateNodeEntry(id: string, overlayPath: string) returns (node: Node)
      requires Valid()
      modifies this
      ensures Valid() && Snapshot() == WithNewNode(old(Snapshot()), id, overlayPath)
      ensures node == nodes[id]
    {
      node := Node(Stopped, None, None, None, overlayPath);
      if id !in nodes {
        order := order + [id];
      }
      nodes := nodes[id := node];
    }

    /** `update_node_run`. */
    method UpdateNodeRun(id: string, pid: Pid, port: int, connId: string)
      requires Valid()
      modifies this
      ensures Valid() && Snapshot() == WithRunning(old(Snapshot()), id, pid, port, connId)
    {
      if id in nodes {
        var node := nodes[id];
        nodes := nodes[id := node.(status := Running, pid := Some(pid), vncPort := Some(port), guacConnId := Some(connId))];
      }
    }

    /** `update_node_stop`. */
    method UpdateNodeStop(id: string)
      requires Valid()
      modifies this
      ensures Valid() && Snapshot() == WithStopped(old(Snapshot()), id)
    {
      if id in nodes {
        var node := nodes[id];
        ReleasePort(node.vncPort);
        nodes := nodes[id := node.(status := Stopped, pid := None, vncPort := None, guacConnId := None)];
      }
    }

    /** `delete_node_entry`. */
    method DeleteNodeEntry(id: string)
      requires Valid()
      modifies this
      ensures Valid() && Snapshot() == Without(old(Snapshot()), id)
    {
      if id in nodes {
        order := RemoveId(order, id);
        nodes := nodes - {id};
      }
    }

    /** The prune loop of `load_state`: every running record whose pid is not
        alive gives its port back and is cleared to stopped. */
    method PruneStale(alive: set<int>)
      requires Valid()
      modifies this
      ensures Valid() && Snapshot() == Pruned(old(Snapshot()), alive)
    {
      var ids := order;
      var i := 0;
      while i < |ids|
        invariant 0 <= i <= |ids|
        invariant Valid() && order == ids
        invariant Snapshot() == PruneIds(old(Snapshot()), ids[..i], alive)
      {
        PruneEntry(ids[i], alive);
        PruneIdsStep(old(Snapshot()), ids, i, alive);
        i := i + 1;
      }
      assert ids[..i] == old(Snapshot()).order;
    }

    /** One turn of the prune loop: a running record whose process is gone
        gives its port back and is cleared. */
    method PruneEntry(id: string, alive: set<int>)
      requires Valid() && id in nodes
      modifies this
      ensures Valid() && Snapshot() == PruneOne(old(Snapshot()), id, alive)
    {
      var node := nodes[id];
      if node.status == Running && !PidRunning(alive, node.pid) {
        ReleasePort(node.vncPort);
        nodes := nodes[id := Cleared(node)];
        assert Snapshot() == WithStopped(old(Snapshot()), id);
      }
    }
  }
}
