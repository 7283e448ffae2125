# Network lab backend: node registry, VM host and HTTP handlers

This project models the backend of a small virtual network lab. Each *node* is a
QEMU virtual machine booted from a qcow2 overlay on a shared base image plus a
cloud-init seed. Each running node is reachable through a VNC port from a fixed
pool and through a connection in an Apache Guacamole broker.

- **`StateManager`** (`state_manager.dfy`). The registry is a class `Registry`
  whose fields are the node records, their insertion order, and the list of
  free VNC ports. Its methods update those fields in place, as the Python
  module mutates its global `STATE`. Each method is specified by a function on
  the value `State`. The properties are lemmas about those functions:
  - port release is idempotent;
  - the running fields are set or cleared together;
  - pruning leaves no stale record and is idempotent;
  - ports are conserved.

  Port conservation means the free ports plus the ports the records hold make
  up the configured pool exactly. It is shown for every operation. The one
  exception is that a stale restart leaks a port (`StaleRestartLeaksPort`).
- **`VmManager`** (`vm_manager.dfy`) covers:
  - the image paths;
  - the QEMU command line, with the seed drive only when the seed exists;
  - the signal sequence of `stop_vm`;
  - the success policies of `wipe_vm_files` and `delete_vm_files`.

  The host is abstract. `Disk` is the set of existing files, together with the
  files whose removal raises. `Processes` is the set of live pids, with logs of
  the signals sent and the command lines launched.
- **`Guacamole`** (`guacamole.dfy`): the broker's table of connections.
- **`Routes`** (`routes.dfy`): the six HTTP handlers, written as methods.
  - Each outside system's answer during a request is a parameter: the token
    reply, the broker's replies, `Popen`, `qemu-img`, `cloud-localds`, and how
    the process reacts to signals.
  - An `HTTPException` is a `Fail(code)`.
  - The client URL of `_get_guac_url` is proved to be decodable back to its
    connection id: base 64 after section 4 of RFC 4648, over UTF-8, with NUL
    separators.
- **`Common`**, **`Config`**, **`Base64`**, **`Utf8`**: shared vocabulary,
  configuration constants, and the two encodings with their decoders.

Some handlers are split into helper methods, each with its own contract, along
the source's own steps:
- `ListEntry` is one turn of the listing loop;
- `LaunchOnPort` is the `try` body of `run_node`;
- `StopRunning` is the running branch of `stop_node`;
- `StopFirst` and `RemoveRecord` are the steps of `wipe_node` and `delete_node`.

## Model

| member | source | states |
|---|---|---|
| Common.Join | backend/core/config.py:7 | `os.path.join` for two components: an absolute second part replaces the first, otherwise a separator is added where missing; the result always ends with the second part |
| Config.Range | backend/core/config.py:16 | `list(range(lo, hi))` has `hi - lo` elements (none when empty) and element `k` is `lo + k` |
| Config.PoolShape | backend/core/config.py:16 | the pool holds 21 ports, 5900 + k at index k, duplicate-free and without the falsy port 0 |
| StateManager.Registry.constructor | backend/core/state_manager.py:6-9 | `STATE` starts well formed with no nodes and the whole configured pool free |
| StateManager.InitialConserved | backend/core/state_manager.py:6-9 | the initial state conserves the configured pool |
| StateManager.ConfiguredPoolShaped | backend/core/config.py:16 | the configured pool, as a bag, holds no port twice and not 0 |
| StateManager.PidRunning | backend/core/state_manager.py:11-20 | `None` is never running; a pid is running exactly when it is in the table of processes that have not exited |
| StateManager.Registry.GetNode | backend/core/state_manager.py:72-73 | a record is returned exactly when the id is registered, and in a well-formed state its running fields are all set exactly when it is running |
| StateManager.Registry.GetFreePort | backend/core/state_manager.py:55-61 | an empty pool raises (`None`) and leaves the pool alone; otherwise the head port is returned, removed from the pool and no longer free; records untouched |
| StateManager.Released | backend/core/state_manager.py:63-67 | a port joins the pool exactly when it is truthy and not already free, at the end; nothing else is added or removed and no duplicate arises |
| StateManager.Registry.ReleasePort | backend/core/state_manager.py:63-67 | the pool becomes `Released(old pool, port)` and the records are unchanged |
| StateManager.ReleaseIdempotent | backend/core/state_manager.py:63-67 | releasing the same port twice is releasing it once |
| StateManager.Cleared | backend/core/state_manager.py:103-106 | a cleared record is stopped, without pid, port or connection id, and keeps its overlay path |
| StateManager.ClearedStopped | backend/core/state_manager.py:103-106 | clearing a consistent stopped record changes nothing |
| StateManager.WithNewNode | backend/core/state_manager.py:75-86 | `create_node_entry` adds a stopped record with no running fields under `id`, keeps the pool and every other record, and keeps the state well formed |
| StateManager.Registry.CreateNodeEntry | backend/core/state_manager.py:75-86 | the registry becomes `WithNewNode` of the old one and the returned record is the stored one |
| StateManager.WithRunning | backend/core/state_manager.py:88-96 | `update_node_run` sets status, pid, port and connection id of a registered record together and changes nothing for an unknown id; other records, order and pool stay; well-formedness is kept |
| StateManager.Registry.UpdateNodeRun | backend/core/state_manager.py:88-96 | the registry becomes `WithRunning` of the old one |
| StateManager.WithStopped | backend/core/state_manager.py:98-107 | `update_node_stop` releases the record's port and clears the record; an unknown id changes nothing; other records and the order stay; well-formedness is kept |
| StateManager.Registry.UpdateNodeStop | backend/core/state_manager.py:98-107 | the registry becomes `WithStopped` of the old one |
| StateManager.RemoveId | backend/core/state_manager.py:112 | the order loses exactly `id` and stays duplicate-free |
| StateManager.Without | backend/core/state_manager.py:109-113 | `delete_node_entry` removes only `id`, keeps the pool and the other records, and an absent id changes nothing |
| StateManager.RemoveIdAt | backend/core/state_manager.py:112 | removing the id at position `i` of a duplicate-free order drops exactly that position, so the others keep their relative order |
| StateManager.RemoveAbsent | backend/core/state_manager.py:111-113 | removing an id the order does not hold leaves the order as it is |
| StateManager.WithoutKeepsOrder | backend/core/state_manager.py:109-113 | after `delete_node_entry` the remaining records keep their insertion order, which `list_nodes` reports in |
| StateManager.Registry.DeleteNodeEntry | backend/core/state_manager.py:109-113 | the registry becomes `Without` of the old one |
| StateManager.Registry.PruneEntry | backend/core/state_manager.py:43-50 | one turn of the prune loop: a running record whose pid `is_pid_running` denies gives its port back and is cleared, any other record stays |
| StateManager.Registry.PruneStale | backend/core/state_manager.py:40-50 | the loop of `load_state` leaves the registry as `Pruned` of the old one: every record visited in insertion order |
| StateManager.PruneIdsNodes | backend/core/state_manager.py:40-50 | pruning clears exactly the stale records among the visited ids and leaves every other record, the order and well-formedness as they were |
| StateManager.NoStaleAfterPrune | backend/core/state_manager.py:40-50 | after pruning no record is running with a dead or missing pid |
| StateManager.PruneIdsClean | backend/core/state_manager.py:40-50 | pruning a registry without stale records changes nothing |
| StateManager.PruneIdempotent | backend/core/state_manager.py:40-50 | a second prune pass changes nothing |
| StateManager.PruneIdsConserves | backend/core/state_manager.py:41-50 | each prune step, and so any prefix of the loop, conserves ports |
| StateManager.PruneConserves | backend/core/state_manager.py:40-50 | the prune loop conserves ports |
| StateManager.StopConserves | backend/core/state_manager.py:98-107 | `update_node_stop` conserves ports: the record's port goes back to the pool exactly once |
| StateManager.StartConserves | backend/api/routes.py:82-95 | taking the head port for a record that holds none and setting it running conserves ports |
| StateManager.StaleRestartLeaksPort | backend/api/routes.py:75-95 | restarting a record that still holds a port, which the guard at line 75 lets through when its process is gone, loses that port: it is neither free nor held afterwards, and conservation fails |
| StateManager.RollbackConserves | backend/api/routes.py:100-102 | returning the taken head port to the end of the pool after a failed start conserves ports |
| StateManager.CreateConserves | backend/core/state_manager.py:75-86 | adding a record under a fresh id conserves ports |
| StateManager.RemoveConserves | backend/core/state_manager.py:109-113 | removing a record that holds no port (or an absent id) conserves ports |
| VmManager.PathShapes | backend/core/vm_manager.py:70 | the overlay is `/app/overlays/node_{id}.qcow2` and the seed `/app/overlays/seed_{id}.img`, as lines 31, 86, 130 and 153 also build it |
| VmManager.PathsInjective | backend/core/vm_manager.py:151-158 | two nodes share an overlay path, or a seed path, only when they are the same node, so removing one node's images never touches another's |
| VmManager.PathsDistinct | backend/core/vm_manager.py:151-158 | no overlay path is a seed path, and neither is the saved state file |
| VmManager.ParseIntToString | backend/core/vm_manager.py:103 | the decimal text of the VNC display reads back as that integer, negative ones included |
| VmManager.PoolDisplays | backend/core/vm_manager.py:84 | every pool port maps to a display from 0 to 20 |
| VmManager.CloudInitDrive | backend/core/vm_manager.py:86-91 | `cloud_init_drive` holds two arguments when the seed exists and none otherwise |
| VmManager.QemuArgv | backend/core/vm_manager.py:93-104 | the command line has 18 arguments with the seed and 16 without, starts with the emulator, has `-drive` at index 12 and ends with `-vnc` and its argument |
| VmManager.QemuArgvDrives | backend/core/vm_manager.py:86-104 | the overlay drive follows the first `-drive`, and the seed drive appears (after a second `-drive`) exactly when the seed file exists |
| VmManager.QemuArgvDisplay | backend/core/vm_manager.py:84-103 | the `-vnc` argument names display `port - 5900` |
| VmManager.RemoveIfExists | backend/core/vm_manager.py:132-133 | removing a path fails exactly when it exists and its removal raises; otherwise it is gone and nothing else changes |
| VmManager.Disk.Remove | backend/core/vm_manager.py:133 | `os.remove` fails exactly for a missing or locked path and otherwise removes only that path |
| VmManager.Disk.CreateVmOverlay | backend/core/vm_manager.py:68-79 | on success the overlay path is returned and the file exists; on failure `None` and no file changes |
| VmManager.Disk.CreateCloudInitSeed | backend/core/vm_manager.py:29-65 | on success the seed path is returned and the file exists; on failure `None` and no file changes |
| VmManager.WipePolicy | backend/core/vm_manager.py:128-149 | wiping succeeds exactly when both removals and the overlay re-creation succeed, whatever the seed re-creation does; success leaves the overlay, and the seed exactly when it was re-created; no other file changes |
| VmManager.Disk.WipeVmFiles | backend/core/vm_manager.py:128-149 | the result and the files left are `Wiped` of the old files |
| VmManager.DeletePolicy | backend/core/vm_manager.py:151-162 | deleting succeeds exactly when no removal raises; success leaves neither image, failure leaves at least one; only the two images can go |
| VmManager.Disk.DeleteVmFiles | backend/core/vm_manager.py:151-162 | the result and the files left are `Deleted` of the old files |
| VmManager.StopPolicy | backend/core/vm_manager.py:114-125 | a missing or dead pid gets no signal and succeeds; otherwise only that pid is signalled, SIGTERM first, SIGKILL exactly when it outlived the grace period; failure exactly when `os.kill` raised; success leaves the process exited |
| VmManager.Processes.StopVm | backend/core/vm_manager.py:114-125 | the result, process table and signal log are `StopOutcome` of the old ones; nothing is launched |
| VmManager.Processes.StartVm | backend/core/vm_manager.py:82-111 | a successful `Popen` launches exactly the QEMU command line for this node, with the seed drive when the seed exists, and its pid is returned and alive; a failed one returns `None` and changes nothing |
| Guacamole.Broker.CreateConnection | backend/core/guacamole_client.py:29-52 | a successful request adds the named connection on the port under the identifier the broker returns; a failed one changes nothing |
| Guacamole.Broker.DeleteConnection | backend/core/guacamole_client.py:54-60 | an accepted request removes the identifier; the call raises exactly when it is refused or the identifier is unknown |
| Utf8.EncodeChar | backend/api/routes.py:20 | a character takes one to four bytes, one byte (its own code) exactly when it is ASCII, and only bytes of 0x80 and up otherwise |
| Utf8.Encode | backend/api/routes.py:20 | the encoding is at least as long as the text |
| Utf8.DecodeEncode | backend/api/routes.py:20 | decoding the UTF-8 of any text gives back that text |
| Base64.Encode | backend/api/routes.py:22 | the encoding has four characters for each started group of three bytes |
| Base64.EncodeAlphabet | backend/api/routes.py:22 | every character of an encoding is `=` or in the alphabet, so the ASCII decode cannot fail |
| Base64.DecodeEncode | backend/api/routes.py:22 | decoding the base 64 of any byte string gives back that byte string |
| Routes.GuacUrl | backend/api/routes.py:12-26 | no URL exactly when the connection id is missing or empty; otherwise the URL starts with the client prefix and has more after it |
| Routes.ReadClientIdentifier | backend/api/routes.py:17-20 | the identifier `id NUL c NUL postgresql` reads back as `id` exactly when `id` contains no NUL |
| Routes.GuacUrlConnId | backend/api/routes.py:12-26 | the URL of a non-empty connection id without NUL decodes (prefix, base 64, UTF-8, NUL fields) back to that id; with a NUL it names no connection |
| Routes.FormatNodeView | backend/api/routes.py:28-36 | a view shows the record's id, status, port and connection id, and a URL exactly when the connection id is truthy, one that names that connection |
| Routes.ConnectionName | backend/api/routes.py:87 | the connection name is `node-` followed by the first eight characters of the id (all of a shorter id) |
| Routes.BrokerAfterFailedStart | backend/api/routes.py:103-107 | after a failed start every old connection other than the created one is still there unchanged, nothing else is added, and the connection created for this start is gone exactly when its id is truthy and the broker accepts the deletion; without a usable token or a created connection the broker is unchanged |
| Routes.ListEntry | backend/api/routes.py:44-50 | one turn of the listing loop stops a stale record as one prune step, and the view is of the record as it then stands; other records stay |
| Routes.ListLoop | backend/api/routes.py:44-50 | the registry becomes `Pruned` of the old one, and there is one view per record, in insertion order, of the record as it now stands |
| Routes.ListNodes | backend/api/routes.py:38-51 | `GET /nodes` prunes as `load_state` does, answers one view per record in insertion order, leaves no stale record and conserves ports |
| Routes.CreateNode | backend/api/routes.py:53-67 | an overlay failure is a 500 that changes nothing; a seed failure is a 500 that removes the overlay again (unless its removal raises) and records nothing; success records a new stopped node, creates both images, and conserves ports for a fresh id |
| Routes.LaunchOnPort | backend/api/routes.py:81-109 | with port `p` taken: when token, connection and process all exist, the record runs on `p` with that pid and connection, the connection and command line are recorded, and the view is returned; otherwise a 500 with `p` back in the pool, records unchanged, nothing launched, and a created connection rolled back when its id is truthy and the broker accepts |
| Routes.RunNode | backend/api/routes.py:69-109 | 404 for an unknown id and 400 for a live running record, both changing nothing; 500 for an empty pool; otherwise the head port is taken and the launch is as in `LaunchOnPort`; ports are conserved unless a stale record holding a port is restarted, which leaks that port |
| Routes.DropConnection | backend/api/routes.py:123-132 | a truthy connection id is deleted when a usable token is issued and the broker accepts; otherwise the broker is unchanged; it raises exactly for a truthy id and a malformed token reply |
| Routes.StopRunning | backend/api/routes.py:121-137 | the process gets the `stop_vm` sequence, the connection is deleted at best effort, and unless the token reply raises, the record is stopped through `update_node_stop` and returned cleared, whatever `stop_vm` answered; ports are conserved |
| Routes.StopNode | backend/api/routes.py:111-137 | 404 for an unknown id; a stopped record is returned with nothing changed; a running one is stopped as in `StopRunning`; ports are conserved |
| Routes.StoppedFirst | backend/api/routes.py:146-148 | after the stop step the record is cleared and the order kept, whether it was running or already stopped |
| Routes.StopFirst | backend/api/routes.py:146-148 | a running record is stopped through `stop_node`: its process gets the `stop_vm` sequence and its connection is deleted at best effort, and the record is cleared unless the token reply raises; a stopped record leaves everything unchanged; ports are conserved |
| Routes.WipeNode | backend/api/routes.py:139-153 | 404 for an unknown id; a running node is stopped first (process signalled as by `stop_vm`, connection deleted at best effort, record cleared), and a malformed token reply ends the request with a 500 before any file is touched; the images are wiped as in `Wiped`; success answers the stopped record and failure is a 500; ports are conserved |
| Routes.RemoveRecord | backend/api/routes.py:165-168 | the images are removed as in `Deleted` and the record is removed whatever that gave; ports are conserved when the record held no port |
| Routes.DeleteNode | backend/api/routes.py:155-170 | 404 for an unknown id; a running node is stopped first (process signalled as by `stop_vm`, connection deleted at best effort, record cleared), and a malformed token reply ends the request with a 500 that keeps the record and the images; otherwise its images are removed at best effort and its record is removed even when that fails; ports are conserved |

## Left out

- Persistence is not modelled. `save_state`, and the JSON file that `load_state` reads back, are left out because they are file I/O. Only the prune loop of `load_state` is modelled, on the registry as it stands. The reset of a missing `port_manager` at backend/core/state_manager.py:35-36 is left out too, since it only applies to a loaded file.
- The `print` calls and `time.sleep(1)` in `stop_vm` have no effect on the modelled state.
- VmManager.Disk.CreateCloudInitSeed: the temporary directory is not modelled. An `OSError` from `tempfile.mkdtemp()` (backend/core/vm_manager.py:32, outside the `try`) or from `shutil.rmtree` in the `finally` (lines 63-65) escapes instead of giving `None`. The model's seed outcome is only written or not written.
- Routes.CreateNode: when such an escaping `OSError` ends `create_cloud_init_seed`, the 500 of `create_node` leaves the new overlay on disk. The contract covers only the `None` path, which removes the overlay.
- VmManager.WipePolicy: when such an escaping `OSError` ends the seed re-creation, the `except` at backend/core/vm_manager.py:147 makes `wipe_vm_files` return `False` after the overlay was re-created. The model states that the seed outcome never affects the result, which holds only without that error.
- Utf8.Encode: Dafny characters are Unicode scalar values, so Python strings with lone surrogates, for which `.encode('utf-8')` at backend/api/routes.py:20 raises, are not modelled.
- Routes.StopNode, Routes.WipeNode and Routes.DeleteNode: when the token reply has no `authToken` (`StopRaises`), the `KeyError` ends the request before `update_node_stop` runs. So a running node with a connection id is then neither stopped in the registry nor wiped or deleted, although its process has been signalled. `delete_node` therefore does not always remove the record.
- The cloud-init YAML, the `qemu-img` and `cloud-localds` arguments, and the base image are left out: only their outcome (file written or not) is a parameter. `create_vm_overlay` treats an `OSError` from `qemu-img` like any other failure.
- Concurrency between requests, and the `await` points of the handlers, are left out: each handler runs to completion.
- Node ids are parameters, not `uuid4` values.
- Records are values, not shared dicts. Aliasing between a handler's local `node` and the stored record is therefore not modelled. `list_nodes` writing `"stopped"` into a record that `update_node_stop` already cleared changes nothing, and the model says so.
- The Guacamole HTTP exchange is left out, in particular the retry in `get_guac_token`, the `%2F` escaping in `delete_guac_connection` and the request bodies. A token reply is `Issued`, `Unavailable` or `Malformed`, the last being a first answer without `authToken`.
- A connection reply without an `identifier` key is not modelled. In the source that creates a connection that is never rolled back; here a connection either comes with its identifier or is not created.
- VmManager.Processes.StopVm and VmManager.StopPolicy: zombie children are not modelled. `Popen` at backend/core/vm_manager.py:107-108 never waits on QEMU, so an exited child stays a zombie until something reaps it, and `os.kill(pid, 0)` still succeeds for it. The model reads `alive` as "not yet exited" and drops a pid as soon as its process exits. So where the program would still see a signalled process as running, the model sees it as stopped: for instance, a record left running after a raising `stop_node`, which `GET /nodes` would then not prune. Likewise, the model never sends SIGKILL to a child that exited on SIGTERM, although line 119 would still find it running.
- Process start-up is reduced to the command line and the pid `Popen` hands out. Pids are positive, so a launched pid is always truthy.
- Routes.CreateNode: conservation is stated only for an id not yet in the registry, because a `uuid4` collision is not modelled.
- Routes.RemoveRecord: conservation is stated only when the record is absent or stopped, because `delete_node` calls it only after the stop step.
- Routes.WipeNode and Routes.DeleteNode call the running branch of `stop_node` directly, as `stop_node` itself reaches it for a record that is registered and running.
- Base64.Encode: its own contract states only the length. What the characters are is stated by `EncodeAlphabet`, and that they encode the bytes by `DecodeEncode`.
- Utf8.Encode: its own contract states only a length bound. That the bytes encode the text is stated by `Utf8.DecodeEncode`.
