/** backend/api/routes.py: the HTTP handlers that drive a node through its
    life (create, run, stop, wipe, delete, list) against the registry, the
    host's disk and process table, and the Guacamole broker.

    Each handler is a method that runs to completion. What an outside system
    does during the request (the token fetch, the broker's answers, `Popen`,
    the tools that write images, the process's reaction to SIGTERM) is a
    parameter; an `HTTPException` is a `Fail` with its status code. */
module Routes {
  import opened Common
  import Config
  import Base64
  import Utf8
  import SM = StateManager
  import VM = VmManager
  import G = Guacamole

  // ---------------------------------------------------------------------------
  // The client URL of a connection

  const CLIENT_URL_PREFIX := "http://localhost:3001/guacamole/#/client/"

  /** The identifier the Guacamole web client expects: connection id, type
      `c` and data source, separated by NUL characters. */
  function ClientIdentifier(connId: string): string {
    connId + "\0c\0" + Config.GUAC_DATA_SOURCE
  }

  /** `_get_guac_url`: no URL for a missing or empty connection id, otherwise
      the client prefix and the base 64 of the UTF-8 of the identifier. */
  function GuacUrl(connId: Option<string>): (url: Option<string>)
    ensures url.None? <==> !Truthy(connId)
    ensures url.Some? ==>
      |CLIENT_URL_PREFIX| < |url.value| && url.value[..|CLIENT_URL_PREFIX|] == CLIENT_URL_PREFIX
  {
    if !Truthy(connId) then None
    else Some(CLIENT_URL_PREFIX + Base64.Encode(Utf8.Encode(ClientIdentifier(connId.value))))
  }

  /** The text before the first NUL and the text after it; the whole text and
      "" when there is no NUL. */
  function SplitAtNul(s: string): (r: (string, string))
    ensures '\0' !in r.0
    ensures '\0' in s ==> s == r.0 + "\0" + r.1
    ensures '\0' !in s ==> r == (s, "")
    decreases |s|
  {
    if s == [] then ("", "")
    else if s[0] == '\0' then ("", s[1..])
    else
      var tail := SplitAtNul(s[1..]);
      assert s == [s[0]] + s[1..];
      ([s[0]] + tail.0, tail.1)
  }

  /** The split happens at the first NUL. */
  lemma {:induction false} SplitAtNulOf(a: string, rest: string)
    requires '\0' !in a
    ensures SplitAtNul(a + "\0" + rest) == (a, rest)
    decreases |a|
  {
    var s := a + "\0" + rest;
    if a != [] {
      assert s[0] == a[0];
      assert s[1..] == a[1..] + "\0" + rest;
      SplitAtNulOf(a[1..], rest);
      assert [a[0]] + a[1..] == a;
    }
  }

  /** The connection id an identifier names: the text before the first NUL,
      when the rest is type `c` and the configured data source. */
  function ReadIdentifier(text: string): (r: Option<string>)
    ensures r.Some? ==> r.value != "" && '\0' !in r.value
  {
    var (id, rest) := SplitAtNul(text);
    if '\0' in text && id != "" && rest == "c\0" + Config.GUAC_DATA_SOURCE then Some(id) else None
  }

  /** The identifier of a connection id names that id exactly when the id
      has no NUL; an id with a NUL is not read back at all. */
  lemma ReadClientIdentifier(connId: string)
    requires connId != ""
    ensures ReadIdentifier(ClientIdentifier(connId)) == if '\0' in connId then None else Some(connId)
  {
    var text := ClientIdentifier(connId);
    var tail := "c\0" + Config.GUAC_DATA_SOURCE;
    if '\0' in connId {
      var (x, y) := SplitAtNul(connId);
      assert text == x + "\0" + (y + "\0" + tail);
      SplitAtNulOf(x, y + "\0" + tail);
      assert |y + "\0" + tail| > |tail|;
    } else {
      assert text == connId + "\0" + tail;
      SplitAtNulOf(connId, tail);
    }
  }

  /** What the web client reads out of a client URL: the connection id, or
      `None` when the URL is not one `GuacUrl` could have produced. */
  function ConnIdOf(url: string): (r: Option<string>)
    ensures r.Some? ==> r.value != "" && '\0' !in r.value
  {
    var n := |CLIENT_URL_PREFIX|;
    if |url| < n || url[..n] != CLIENT_URL_PREFIX then None
    else
      match Base64.Decode(url[n..])
      case None => None
      case Some(bytes) =>
        match Utf8.Decode(bytes)
        case None => None
        case Some(text) => ReadIdentifier(text)
  }

  /** The URL of a connection id gives that id back exactly when the id has
      no NUL. */
  lemma GuacUrlConnId(connId: string)
    requires connId != ""
    ensures ConnIdOf(GuacUrl(Some(connId)).value) == if '\0' in connId then None else Some(connId)
  {
    var text := ClientIdentifier(connId);
    var url := GuacUrl(Some(connId)).value;
    assert url[|CLIENT_URL_PREFIX|..] == Base64.Encode(Utf8.Encode(text));
    Base64.DecodeEncode(Utf8.Encode(text));
    Utf8.DecodeEncode(text);
    ReadClientIdentifier(connId);
  }

  // ---------------------------------------------------------------------------
  // Responses

  /** The `models.Node` response body. */
  datatype NodeView = NodeView(
    id: string,
    status: string,
    vncPort: Option<int>,
    guacConnId: Option<string>,
    guacUrl: Option<string>)

  function StatusText(s: SM.Status): string {
    if s == SM.Running then "running" else "stopped"
  }

  /** `_format_node_response`. */
  function FormatNode(id: string, n: SM.Node): NodeView {
    NodeView(id, StatusText(n.status), n.vncPort, n.guacConnId, GuacUrl(n.guacConnId))
  }

  /** A view shows the record as it is: its id, its status, its port and
      connection id, and a URL exactly when the connection id is truthy, a URL
      that names that connection. */
  lemma FormatNodeView(id: string, n: SM.Node)
    ensures var v := FormatNode(id, n);
      && v.id == id && v.vncPort == n.vncPort && v.guacConnId == n.guacConnId
      && (v.status == "running" <==> n.status == SM.Running)
      && (v.guacUrl.Some? <==> Truthy(n.guacConnId))
      && (v.guacUrl.Some? && '\0' !in n.guacConnId.value ==> ConnIdOf(v.guacUrl.value) == n.guacConnId)
  {
    if Truthy(n.guacConnId) {
      GuacUrlConnId(n.guacConnId.value);
    }
  }

  /** A handler's answer: a body, or the status code of the `HTTPException`
      it raised. */
  datatype Reply<T> = Ok(value: T) | Fail(code: int)

  // ---------------------------------------------------------------------------
  // What the outside systems do during a request

  /** The token reply, the identifier the broker assigns to the connection
      (`None` when the request raises), the pid `Popen` hands out (`None` when
      it raises) and whether the broker accepts the rollback deletion. */
  datatype StartOutcomes = StartOutcomes(
    token: G.TokenReply,
    connection: Option<string>,
    spawned: Option<Pid>,
    rollbackAccepted: bool)

  /** How the process reacts to `stop_vm`, the token reply, and whether the
      broker accepts the deletion of the connection. */
  datatype StopOutcomes = StopOutcomes(
    exitsOnTerm: bool,
    termRaises: bool,
    killRaises: bool,
    token: G.TokenReply,
    deleteAccepted: bool)

  /** `f"node-{node_id[:8]}"`. */
  function ConnectionName(id: string): (name: string)
    ensures |name| == 5 + (if |id| < 8 then |id| else 8) && name[..5] == "node-"
    ensures name[5..] <= id
  {
    "node-" + (if |id| <= 8 then id else id[..8])
  }

  /** Every step of `run_node` succeeds. */
  predicate Started(o: StartOutcomes) {
    G.Usable(o.token) && o.connection.Some? && o.spawned.Some?
  }

  /** The broker's connections after a failed start: a connection created
      before the launch failed stays unless its id is truthy and the broker
      accepts the rollback deletion. */
  function BrokerAfterFailedStart(conns: map<string, G.Connection>, o: StartOutcomes, name: string, port: int):
    (after: map<string, G.Connection>)
    ensures after.Keys <= conns.Keys + (if o.connection.Some? then {o.connection.value} else {})
    ensures forall c :: c in conns && (o.connection.None? || c != o.connection.value) ==> c in after && after[c] == conns[c]
    ensures G.Usable(o.token) && o.connection.Some? ==>
      (o.connection.value in after <==> !(o.connection.value != "" && o.rollbackAccepted))
    ensures !G.Usable(o.token) || o.connection.None? ==> after == conns
  {
    if !G.Usable(o.token) || o.connection.None? then conns
    else
      var c := o.connection.value;
      var created := conns[c := G.Connection(name, port)];
      if c != "" && o.rollbackAccepted then created - {c} else created
  }

  /** A running record whose process is alive: `run_node` refuses it. */
  predicate LiveRunning(n: SM.Node, alive: set<int>) {
    n.status == SM.Running && SM.PidRunning(alive, n.pid)
  }

  /** `stop_node` on this record raises before clearing it: the record is
      running with a truthy connection id, and the `KeyError` of a malformed
      token reply escapes. */
  predicate StopRaises(n: SM.Node, o: StopOutcomes) {
    n.status == SM.Running && Truthy(n.guacConnId) && o.token.Malformed?
  }

  // ---------------------------------------------------------------------------
  // The handlers

  /** One turn of the loop of `list_nodes`: a record whose process is gone is
      stopped, and the view is taken of the record as it then stands. */
  method ListEntry(reg: SM.Registry, procs: VM.Processes, id: string) returns (view: NodeView)
    requires reg.Valid() && id in reg.nodes
    modifies reg
    ensures reg.Valid() && reg.Snapshot() == SM.PruneOne(old(reg.Snapshot()), id, procs.alive)
    ensures view == FormatNode(id, reg.nodes[id])
    ensures reg.order == old(reg.order)
    ensures forall other :: other in old(reg.nodes) && other != id ==> other in reg.nodes && reg.nodes[other] == old(reg.nodes[other])
  {
    var data := reg.nodes[id];
    if data.status == SM.Running && !SM.PidRunning(procs.alive, data.pid) {
      reg.UpdateNodeStop(id);
      // `data` is the record `update_node_stop` cleared, so setting its
      // status to "stopped" again changes nothing.
      data := reg.nodes[id];
    }
    view := FormatNode(id, data);
  }

  /** The loop of `list_nodes`: the records are visited in insertion order,
      each stale one is stopped, and each is formatted as it then stands. */
  method ListLoop(reg: SM.Registry, procs: VM.Processes) returns (views: seq<NodeView>)
    requires reg.Valid()
    modifies reg
    ensures reg.Valid() && reg.Snapshot() == SM.Pruned(old(reg.Snapshot()), procs.alive)
    ensures |views| == |reg.order|
    ensures forall k :: 0 <= k < |views| ==> views[k] == FormatNode(reg.order[k], reg.nodes[reg.order[k]])
  {
    ghost var s := reg.Snapshot();
    var ids := reg.order;
    views := [];
    var i := 0;
    while i < |ids|
      invariant 0 <= i <= |ids|
      invariant reg.Valid() && reg.order == ids
      invariant reg.Snapshot() == SM.PruneIds(s, ids[..i], procs.alive)
      invariant |views| == i
      invariant forall k :: 0 <= k < i ==> views[k] == FormatNode(ids[k], reg.nodes[ids[k]])
    {
      var id := ids[i];
      ghost var prev := reg.nodes;
      var view := ListEntry(reg, procs, id);
      ghost var before := views;
      views := views + [view];
      forall k | 0 <= k < i
        ensures views[k] == FormatNode(ids[k], reg.nodes[ids[k]])
      {
        assert ids[k] != id && ids[k] in prev;
        assert views[k] == before[k];
      }
      SM.PruneIdsStep(s, ids, i, procs.alive);
      i := i + 1;
    }
    assert ids[..i] == s.order;
  }

  /** `GET /nodes`: every record whose process is gone is stopped as it is
      listed, the views follow the insertion order of the records, no stale
      record is left and the ports stay conserved. */
  method ListNodes(reg: SM.Registry, procs: VM.Processes) returns (views: seq<NodeView>)
    requires reg.Valid()
    modifies reg
    ensures reg.Valid() && reg.Snapshot() == SM.Pruned(old(reg.Snapshot()), procs.alive)
    ensures |views| == |reg.order|
    ensures forall k :: 0 <= k < |views| ==> views[k] == FormatNode(reg.order[k], reg.nodes[reg.order[k]])
    ensures forall id :: id in reg.nodes ==> !SM.IsStale(reg.nodes[id], procs.alive)
    ensures SM.Conserved(old(reg.Snapshot()), SM.CONFIGURED_POOL) ==> SM.Conserved(reg.Snapshot(), SM.CONFIGURED_POOL)
  {
    views := ListLoop(reg, procs);
    SM.NoStaleAfterPrune(old(reg.Snapshot()), procs.alive);
    if SM.Conserved(old(reg.Snapshot()), SM.CONFIGURED_POOL) {
      SM.ConfiguredPoolShaped();
      SM.PruneConserves(old(reg.Snapshot()), SM.CONFIGURED_POOL, procs.alive);
    }
  }

  /** `POST /nodes`: a new stopped record once both images exist; when the
      seed cannot be written the overlay is removed again and nothing is
      recorded. `id` is the fresh `uuid4`. */
  method CreateNode(reg: SM.Registry, disk: VM.Disk, id: string, overlayCreated: bool, seedCreated: bool)
    returns (r: Reply<NodeView>)
    requires reg.Valid()
    modifies reg, disk
    ensures reg.Valid() && disk.locked == old(disk.locked)
    ensures !overlayCreated ==> r == Fail(500) && reg.Snapshot() == old(reg.Snapshot()) && disk.files == old(disk.files)
    ensures overlayCreated && !seedCreated ==>
      && r == Fail(500) && reg.Snapshot() == old(reg.Snapshot())
      && disk.files == if VM.OverlayPath(id) in disk.locked then old(disk.files) + {VM.OverlayPath(id)}
                       else old(disk.files) - {VM.OverlayPath(id)}
    ensures overlayCreated && seedCreated ==>
      && reg.Snapshot() == SM.WithNewNode(old(reg.Snapshot()), id, VM.OverlayPath(id))
      && r == Ok(FormatNode(id, SM.Node(SM.Stopped, None, None, None, VM.OverlayPath(id))))
      && disk.files == old(disk.files) + {VM.OverlayPath(id), VM.SeedPath(id)}
    ensures SM.Conserved(old(reg.Snapshot()), SM.CONFIGURED_POOL) && id !in old(reg.nodes) ==>
      SM.Conserved(reg.Snapshot(), SM.CONFIGURED_POOL)
  {
    ghost var s := reg.Snapshot();
    var overlay := disk.CreateVmOverlay(id, overlayCreated);
    if overlay.None? {
      return Fail(500);
    }
    var seed := disk.CreateCloudInitSeed(id, seedCreated);
    if seed.None? {
      // `os.remove` raising `OSError` also ends the request with a 500
      var removed := disk.Remove(overlay.value);
      return Fail(500);
    }
    var node := reg.CreateNodeEntry(id, overlay.value);
    if SM.Conserved(s, SM.CONFIGURED_POOL) && id !in s.nodes {
      SM.CreateConserves(s, SM.CONFIGURED_POOL, id, overlay.value);
    }
    return Ok(FormatNode(id, node));
  }

  /** The body of `run_node` once a port `p` is taken from the pool: a token,
      a broker connection named after the node and a QEMU process, in that
      order; the record is set running only when all three exist. On any
      failure the port goes back to the pool and a created connection is
      deleted if possible. */
  method LaunchOnPort(reg: SM.Registry, disk: VM.Disk, procs: VM.Processes, broker: G.Broker,
                      id: string, overlayPath: string, p: int, o: StartOutcomes)
    returns (r: Reply<NodeView>)
    requires reg.Valid() && id in reg.nodes && p !in reg.ports
    modifies reg, procs, broker
    ensures reg.Valid() && procs.signals == old(procs.signals)
    ensures Started(o) ==>
      && reg.Snapshot() == SM.WithRunning(old(reg.Snapshot()), id, o.spawned.value, p, o.connection.value)
      && r == Ok(FormatNode(id, reg.nodes[id]))
      && broker.connections == old(broker.connections)[o.connection.value := G.Connection(ConnectionName(id), p)]
      && procs.launched == old(procs.launched) + [VM.QemuArgv(overlayPath, VM.SeedPath(id), VM.SeedPath(id) in disk.files, p)]
      && procs.alive == old(procs.alive) + {o.spawned.value}
    ensures !Started(o) ==>
      && r == Fail(500)
      && reg.order == old(reg.order) && reg.nodes == old(reg.nodes) && reg.ports == SM.Released(old(reg.ports), Some(p))
      && broker.connections == BrokerAfterFailedStart(old(broker.connections), o, ConnectionName(id), p)
      && procs.launched == old(procs.launched) && procs.alive == old(procs.alive)
  {
    if !G.Usable(o.token) {
      if p != 0 {
        reg.ReleasePort(Some(p));
      }
      return Fail(500);
    }
    var connId := broker.CreateConnection(ConnectionName(id), p, o.connection);
    if connId.None? {
      if p != 0 {
        reg.ReleasePort(Some(p));
      }
      return Fail(500);
    }
    var c := connId.value;
    var pid := procs.StartVm(id, overlayPath, p, disk, o.spawned);
    if pid.None? {
      if p != 0 {
        reg.ReleasePort(Some(p));
      }
      if c != "" {
        // a refusal is only reported
        var deleted := broker.DeleteConnection(c, o.rollbackAccepted);
      }
      return Fail(500);
    }
    reg.UpdateNodeRun(id, pid.value, p, c);
    var updated := reg.GetNode(id);
    return Ok(FormatNode(id, updated.value));
  }

  /** `POST /nodes/{id}/run`: a missing record is a 404, a record whose
      process is alive a 400, an empty pool a 500; otherwise the first free
      port is taken and the node launched on it. A record marked running
      whose process is gone is started again without releasing the port it
      holds. */
  method RunNode(reg: SM.Registry, disk: VM.Disk, procs: VM.Processes, broker: G.Broker, id: string, o: StartOutcomes)
    returns (r: Reply<NodeView>)
    requires reg.Valid()
    modifies reg, procs, broker
    ensures reg.Valid() && procs.signals == old(procs.signals)
    ensures id !in old(reg.nodes) ==> r == Fail(404) && unchanged(reg, procs, broker)
    ensures id in old(reg.nodes) && LiveRunning(old(reg.nodes[id]), old(procs.alive)) ==>
      r == Fail(400) && unchanged(reg, procs, broker)
    ensures id in old(reg.nodes) && !LiveRunning(old(reg.nodes[id]), old(procs.alive)) && old(reg.ports) == [] ==>
      r == Fail(500) && reg.Snapshot() == old(reg.Snapshot()) && unchanged(procs, broker)
    ensures id in old(reg.nodes) && !LiveRunning(old(reg.nodes[id]), old(procs.alive)) && old(reg.ports) != [] ==>
      var s := old(reg.Snapshot());
      var p := s.ports[0];
      if Started(o) then
        && reg.Snapshot() == SM.WithRunning(s.(ports := s.ports[1..]), id, o.spawned.value, p, o.connection.value)
        && r == Ok(FormatNode(id, reg.nodes[id]))
        && broker.connections == old(broker.connections)[o.connection.value := G.Connection(ConnectionName(id), p)]
        && procs.launched == old(procs.launched)
             + [VM.QemuArgv(s.nodes[id].overlayPath, VM.SeedPath(id), VM.SeedPath(id) in disk.files, p)]
        && procs.alive == old(procs.alive) + {o.spawned.value}
      else
        && r == Fail(500)
        && reg.order == s.order && reg.nodes == s.nodes && reg.ports == SM.Released(s.ports[1..], Some(p))
        && broker.connections == BrokerAfterFailedStart(old(broker.connections), o, ConnectionName(id), p)
        && procs.launched == old(procs.launched) && procs.alive == old(procs.alive)
    ensures SM.Conserved(old(reg.Snapshot()), SM.CONFIGURED_POOL) && (id in old(reg.nodes) ==> old(reg.nodes[id]).vncPort.None?) ==>
      SM.Conserved(reg.Snapshot(), SM.CONFIGURED_POOL)
    ensures SM.Conserved(old(reg.Snapshot()), SM.CONFIGURED_POOL) && id in old(reg.nodes) && old(reg.nodes[id]).vncPort.Some?
            && r.Ok? ==>
      && old(reg.nodes[id]).vncPort.value !in reg.ports
      && !SM.Conserved(reg.Snapshot(), SM.CONFIGURED_POOL)
  {
    SM.ConfiguredPoolShaped();
    var node := reg.GetNode(id);
    if node.None? {
      return Fail(404);
    }
    var n := node.value;
    if n.status == SM.Running && SM.PidRunning(procs.alive, n.pid) {
      return Fail(400);
    }
    ghost var s := reg.Snapshot();
    var port := reg.GetFreePort();
    if port.None? {
      assert reg.Snapshot() == s;
      return Fail(500);
    }
    var p := port.value;
    r := LaunchOnPort(reg, disk, procs, broker, id, n.overlayPath, p, o);
    if SM.Conserved(s, SM.CONFIGURED_POOL) {
      if !Started(o) {
        SM.RollbackConserves(s, SM.CONFIGURED_POOL);
      } else if n.vncPort.None? {
        SM.StartConserves(s, SM.CONFIGURED_POOL, id, o.spawned.value, o.connection.value);
      } else {
        SM.StaleRestartLeaksPort(s, SM.CONFIGURED_POOL, id, o.spawned.value, o.connection.value);
      }
    }
  }

  /** The connection step of `stop_node`: a truthy connection id is deleted
      when a usable token is issued and the broker accepts; a refusal or a
      missing token is only reported. `raised` is the `KeyError` of a
      malformed token reply. */
  method DropConnection(broker: G.Broker, connId: Option<string>, o: StopOutcomes) returns (raised: bool)
    modifies broker
    ensures raised <==> Truthy(connId) && o.token.Malformed?
    ensures Truthy(connId) && G.Usable(o.token) && o.deleteAccepted ==>
      broker.connections == old(broker.connections) - {connId.value}
    ensures !(Truthy(connId) && G.Usable(o.token) && o.deleteAccepted) ==>
      broker.connections == old(broker.connections)
  {
    raised := false;
    if Truthy(connId) {
      if o.token.Malformed? {
        return true;
      }
      if G.Usable(o.token) {
        // a refusal is only reported
        var deleted := broker.DeleteConnection(connId.value, o.deleteAccepted);
      }
    }
  }

  /** The part of `stop_node` for a running record `n`: its process is
      stopped, its connection deleted at best effort, and the record is then
      cleared, whatever `stop_vm` or the broker answered. Only a malformed
      token reply ends the request before the record is cleared. */
  method StopRunning(reg: SM.Registry, procs: VM.Processes, broker: G.Broker, id: string, n: SM.Node, o: StopOutcomes)
    returns (r: Reply<NodeView>)
    requires reg.Valid() && id in reg.nodes && reg.nodes[id] == n
    modifies reg, procs, broker
    ensures reg.Valid() && procs.launched == old(procs.launched)
    ensures var stop := VM.StopOutcome(old(procs.alive), old(procs.signals), n.pid, o.exitsOnTerm, o.termRaises, o.killRaises);
      procs.alive == stop.1 && procs.signals == stop.2
    ensures Truthy(n.guacConnId) && G.Usable(o.token) && o.deleteAccepted ==>
      broker.connections == old(broker.connections) - {n.guacConnId.value}
    ensures !(Truthy(n.guacConnId) && G.Usable(o.token) && o.deleteAccepted) ==>
      broker.connections == old(broker.connections)
    ensures StopRaises(n, o) ==> r == Fail(500) && reg.Snapshot() == old(reg.Snapshot())
    ensures !StopRaises(n, o) ==>
      reg.Snapshot() == SM.WithStopped(old(reg.Snapshot()), id) && r == Ok(FormatNode(id, SM.Cleared(n)))
    ensures SM.Conserved(old(reg.Snapshot()), SM.CONFIGURED_POOL) ==> SM.Conserved(reg.Snapshot(), SM.CONFIGURED_POOL)
  {
    // the result of `stop_vm` is not looked at
    var stopped := procs.StopVm(n.pid, o.exitsOnTerm, o.termRaises, o.killRaises);
    var raised := DropConnection(broker, n.guacConnId, o);
    if raised {
      return Fail(500);
    }
    ghost var before := reg.Snapshot();
    reg.UpdateNodeStop(id);
    if SM.Conserved(before, SM.CONFIGURED_POOL) {
      SM.ConfiguredPoolShaped();
      SM.StopConserves(before, SM.CONFIGURED_POOL, id);
    }
    var updated := reg.GetNode(id);
    return Ok(FormatNode(id, updated.value));
  }

  /** `POST /nodes/{id}/stop`: a missing record is a 404, a stopped record is
      returned as it is, and a running one is stopped. */
  method StopNode(reg: SM.Registry, procs: VM.Processes, broker: G.Broker, id: string, o: StopOutcomes)
    returns (r: Reply<NodeView>)
    requires reg.Valid()
    modifies reg, procs, broker
    ensures reg.Valid() && procs.launched == old(procs.launched)
    ensures id !in old(reg.nodes) ==> r == Fail(404) && unchanged(reg, procs, broker)
    ensures id in old(reg.nodes) && old(reg.nodes[id]).status == SM.Stopped ==>
      r == Ok(FormatNode(id, old(reg.nodes[id]))) && unchanged(reg, procs, broker)
    ensures id in old(reg.nodes) && old(reg.nodes[id]).status == SM.Running ==>
      var n := old(reg.nodes[id]);
      var stop := VM.StopOutcome(old(procs.alive), old(procs.signals), n.pid, o.exitsOnTerm, o.termRaises, o.killRaises);
      && procs.alive == stop.1 && procs.signals == stop.2
      && broker.connections ==
           (if Truthy(n.guacConnId) && G.Usable(o.token) && o.deleteAccepted
            then old(broker.connections) - {n.guacConnId.value} else old(broker.connections))
      && (StopRaises(n, o) ==> r == Fail(500) && reg.Snapshot() == old(reg.Snapshot()))
      && (!StopRaises(n, o) ==>
            reg.Snapshot() == SM.WithStopped(old(reg.Snapshot()), id) && r == Ok(FormatNode(id, SM.Cleared(n))))
    ensures SM.Conserved(old(reg.Snapshot()), SM.CONFIGURED_POOL) ==> SM.Conserved(reg.Snapshot(), SM.CONFIGURED_POOL)
  {
    var node := reg.GetNode(id);
    if node.None? {
      return Fail(404);
    }
    var n := node.value;
    if n.status == SM.Stopped {
      return Ok(FormatNode(id, n));
    }
    r := StopRunning(reg, procs, broker, id, n, o);
  }

  /** The registry once `n`, the record of `id`, no longer runs: cleared
      when it was running, as it was otherwise. */
  function StoppedFirst(s: SM.State, id: string, n: SM.Node): (t: SM.State)
    ensures SM.WellFormed(s) ==> SM.WellFormed(t)
    ensures id in s.nodes && s.nodes[id] == n && SM.Consistent(n) ==>
      id in t.nodes && t.nodes[id] == SM.Cleared(n) && t.order == s.order
  {
    if n.status == SM.Running then SM.WithStopped(s, id) else s
  }

  /** The first step of `wipe_node` and `delete_node`: a running record is
      stopped through `stop_node`, which finds it running and goes straight
      to stopping it; `raised` is the exception it may end with. */
  method StopFirst(reg: SM.Registry, procs: VM.Processes, broker: G.Broker, id: string, n: SM.Node, o: StopOutcomes)
    returns (raised: bool)
    requires reg.Valid() && id in reg.nodes && reg.nodes[id] == n
    modifies reg, procs, broker
    ensures reg.Valid() && procs.launched == old(procs.launched)
    ensures raised <==> StopRaises(n, o)
    ensures raised ==> reg.Snapshot() == old(reg.Snapshot())
    ensures !raised ==>
      && reg.Snapshot() == StoppedFirst(old(reg.Snapshot()), id, n)
      && id in reg.nodes && reg.nodes[id] == SM.Cleared(n)
    ensures n.status == SM.Stopped ==> unchanged(procs, broker)
    ensures n.status == SM.Running ==>
      var stop := VM.StopOutcome(old(procs.alive), old(procs.signals), n.pid, o.exitsOnTerm, o.termRaises, o.killRaises);
      && procs.alive == stop.1 && procs.signals == stop.2
      && broker.connections ==
           (if Truthy(n.guacConnId) && G.Usable(o.token) && o.deleteAccepted
            then old(broker.connections) - {n.guacConnId.value} else old(broker.connections))
    ensures SM.Conserved(old(reg.Snapshot()), SM.CONFIGURED_POOL) ==> SM.Conserved(reg.Snapshot(), SM.CONFIGURED_POOL)
  {
    raised := false;
    if n.status == SM.Running {
      var stopped := StopRunning(reg, procs, broker, id, n, o);
      raised := stopped.Fail?;
    }
  }

  /** `POST /nodes/{id}/wipe`: a running node is stopped first, then its
      images are removed and re-created; the answer is the stopped record. */
  method WipeNode(reg: SM.Registry, disk: VM.Disk, procs: VM.Processes, broker: G.Broker, id: string,
                  stop: StopOutcomes, overlayCreated: bool, seedCreated: bool)
    returns (r: Reply<NodeView>)
    requires reg.Valid()
    modifies reg, disk, procs, broker
    ensures reg.Valid() && disk.locked == old(disk.locked) && procs.launched == old(procs.launched)
    ensures id !in old(reg.nodes) ==> r == Fail(404) && unchanged(reg, disk, procs, broker)
    ensures id in old(reg.nodes) && old(reg.nodes[id]).status == SM.Running ==>
      var n := old(reg.nodes[id]);
      var halt := VM.StopOutcome(old(procs.alive), old(procs.signals), n.pid, stop.exitsOnTerm, stop.termRaises, stop.killRaises);
      && procs.alive == halt.1 && procs.signals == halt.2
      && broker.connections ==
           (if Truthy(n.guacConnId) && G.Usable(stop.token) && stop.deleteAccepted
            then old(broker.connections) - {n.guacConnId.value} else old(broker.connections))
    ensures id in old(reg.nodes) && StopRaises(old(reg.nodes[id]), stop) ==>
      r == Fail(500) && reg.Snapshot() == old(reg.Snapshot()) && unchanged(disk)
    ensures id in old(reg.nodes) && !StopRaises(old(reg.nodes[id]), stop) ==>
      var n := old(reg.nodes[id]);
      && reg.Snapshot() == StoppedFirst(old(reg.Snapshot()), id, n)
      && id in reg.nodes && reg.nodes[id].status == SM.Stopped
      && (r.Ok?, disk.files) == VM.Wiped(old(disk.files), disk.locked, id, n.overlayPath, overlayCreated, seedCreated)
      && (r.Ok? ==> r.value == FormatNode(id, reg.nodes[id]))
      && (r.Fail? ==> r.code == 500)
      && (n.status == SM.Stopped ==> unchanged(procs, broker))
    ensures SM.Conserved(old(reg.Snapshot()), SM.CONFIGURED_POOL) ==> SM.Conserved(reg.Snapshot(), SM.CONFIGURED_POOL)
  {
    var node := reg.GetNode(id);
    if node.None? {
      return Fail(404);
    }
    var raised := StopFirst(reg, procs, broker, id, node.value, stop);
    if raised {
      return Fail(500);
    }
    node := reg.GetNode(id);
    var n := node.value;
    var ok := disk.WipeVmFiles(id, n.overlayPath, overlayCreated, seedCreated);
    if !ok {
      return Fail(500);
    }
    return Ok(FormatNode(id, n));
  }

  /** `DELETE /nodes/{id}`: a running node is stopped first, its images are
      removed at best effort, and the record is removed even when that
      fails. */
  method DeleteNode(reg: SM.Registry, disk: VM.Disk, procs: VM.Processes, broker: G.Broker, id: string,
                    stop: StopOutcomes)
    returns (r: Reply<()>)
    requires reg.Valid()
    modifies reg, disk, procs, broker
    ensures reg.Valid() && disk.locked == old(disk.locked) && procs.launched == old(procs.launched)
    ensures id !in old(reg.nodes) ==> r == Fail(404) && unchanged(reg, disk, procs, broker)
    ensures id in old(reg.nodes) && old(reg.nodes[id]).status == SM.Running ==>
      var n := old(reg.nodes[id]);
      var halt := VM.StopOutcome(old(procs.alive), old(procs.signals), n.pid, stop.exitsOnTerm, stop.termRaises, stop.killRaises);
      && procs.alive == halt.1 && procs.signals == halt.2
      && broker.connections ==
           (if Truthy(n.guacConnId) && G.Usable(stop.token) && stop.deleteAccepted
            then old(broker.connections) - {n.guacConnId.value} else old(broker.connections))
    ensures id in old(reg.nodes) && StopRaises(old(reg.nodes[id]), stop) ==>
      r == Fail(500) && reg.Snapshot() == old(reg.Snapshot()) && unchanged(disk)
    ensures id in old(reg.nodes) && !StopRaises(old(reg.nodes[id]), stop) ==>
      var n := old(reg.nodes[id]);
      && r == Ok(())
      && reg.Snapshot() == SM.Without(StoppedFirst(old(reg.Snapshot()), id, n), id)
      && id !in reg.nodes
      && disk.files == VM.Deleted(old(disk.files), disk.locked, id, n.overlayPath).1
      && (n.status == SM.Stopped ==> unchanged(procs, broker))
    ensures SM.Conserved(old(reg.Snapshot()), SM.CONFIGURED_POOL) ==> SM.Conserved(reg.Snapshot(), SM.CONFIGURED_POOL)
  {
    var node := reg.GetNode(id);
    if node.None? {
      return Fail(404);
    }
    var n := node.value;
    var raised := StopFirst(reg, procs, broker, id, n, stop);
    if raised {
      return Fail(500);
    }
    RemoveRecord(reg, disk, id, n.overlayPath);
    return Ok(());
  }

  /** The end of `delete_node`: the images are removed at best effort and
      the record is removed even when that fails. */
  method RemoveRecord(reg: SM.Registry, disk: VM.Disk, id: string, overlay: string)
    requires reg.Valid()
    modifies reg, disk
    ensures reg.Valid() && reg.Snapshot() == SM.Without(old(reg.Snapshot()), id) && id !in reg.nodes
    ensures disk.locked == old(disk.locked) && disk.files == VM.Deleted(old(disk.files), disk.locked, id, overlay).1
    ensures SM.Conserved(old(reg.Snapshot()), SM.CONFIGURED_POOL) && (id in old(reg.nodes) ==> old(reg.nodes[id]).status == SM.Stopped) ==>
      SM.Conserved(reg.Snapshot(), SM.CONFIGURED_POOL)
  {
    // a failure is only reported
    var removed := disk.DeleteVmFiles(id, overlay);
    reg.DeleteNodeEntry(id);
    if SM.Conserved(old(reg.Snapshot()), SM.CONFIGURED_POOL) && (id in old(reg.nodes) ==> old(reg.nodes[id]).status == SM.Stopped) {
      SM.RemoveConserves(old(reg.Snapshot()), SM.CONFIGURED_POOL, id);
    }
  }
}
