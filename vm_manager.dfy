/** backend/core/vm_manager.py: where a node's disk images live, the QEMU
    command line that boots it, and the check-then-act sequences that stop its
    process and remove or re-create its files.

    The host is abstract. `Disk` is the set of files that exist, with the
    paths whose removal raises `OSError`; `Processes` is the process table
    `os.kill(pid, 0)` consults, with a log of the signals sent and the command
    lines launched. What an outside tool does (`qemu-img`, `cloud-localds`,
    `Popen`, the process's reaction to SIGTERM) arrives as a parameter. */
module VmManager {
  import opened Common
  import Config
  import StateManager

  // ---------------------------------------------------------------------------
  // Paths

  /** The overlay image of a node: `OVERLAY_DIR/node_{id}.qcow2`. */
  function OverlayPath(id: string): string {
    Join(Config.OVERLAY_DIR, "node_" + id + ".qcow2")
  }

  /** The cloud-init seed of a node: `OVERLAY_DIR/seed_{id}.img`, the same
      expression at each of its four uses. */
  function SeedPath(id: string): string {
    Join(Config.OVERLAY_DIR, "seed_" + id + ".img")
  }

  /** Both images lie directly in the overlay directory. */
  lemma PathShapes(id: string)
    ensures OverlayPath(id) == "/app/overlays/node_" + id + ".qcow2"
    ensures SeedPath(id) == "/app/overlays/seed_" + id + ".img"
  {
  }

  /** The middle of `pre + a + suf` is `a`. */
  lemma Middle(pre: string, a: string, suf: string)
    ensures (pre + a + suf)[|pre|..|pre| + |a|] == a
  {
  }

  /** Different nodes never share an overlay, nor a seed. */
  lemma PathsInjective(a: string, b: string)
    ensures OverlayPath(a) == OverlayPath(b) ==> a == b
    ensures SeedPath(a) == SeedPath(b) ==> a == b
  {
    PathShapes(a);
    PathShapes(b);
    Middle("/app/overlays/node_", a, ".qcow2");
    Middle("/app/overlays/node_", b, ".qcow2");
    Middle("/app/overlays/seed_", a, ".img");
    Middle("/app/overlays/seed_", b, ".img");
  }

  /** No overlay is a seed, and neither is the state file: removing a node's
      images never removes another node's images or the saved registry. */
  lemma PathsDistinct(a: string, b: string)
    ensures OverlayPath(a) != SeedPath(b)
    ensures OverlayPath(a) != Config.DB_FILE && SeedPath(a) != Config.DB_FILE
  {
    PathShapes(a);
    PathShapes(b);
    assert OverlayPath(a)[14] == 'n';
    assert SeedPath(b)[14] == 's' && SeedPath(a)[14] == 's';
    assert Config.DB_FILE[14] == 'l';
  }

  // ---------------------------------------------------------------------------
  // Decimal text

  function DigitChar(d: int): (c: char)
    requires 0 <= d < 10
    ensures '0' <= c <= '9' && c as int - '0' as int == d
  {
    ('0' as int + d) as char
  }

  /** `str(n)` for a natural number. */
  function NatToString(n: nat): (s: string)
    ensures |s| >= 1 && forall i :: 0 <= i < |s| ==> '0' <= s[i] <= '9'
    decreases n
  {
    if n < 10 then [DigitChar(n)] else NatToString(n / 10) + [DigitChar(n % 10)]
  }

  /** `str(i)` for any integer. */
  function IntToString(i: int): (s: string)
    ensures |s| >= 1 && (s[0] == '-' <==> i < 0)
  {
    if i < 0 then "-" + NatToString(-i) else NatToString(i)
  }

  /** Reads a string of decimal digits; `None` for anything else. */
  function ParseNat(s: string): (r: Option<nat>)
    decreases |s|
  {
    if s == [] || !('0' <= s[|s| - 1] <= '9') then None
    else
      var d := s[|s| - 1] as int - '0' as int;
      if |s| == 1 then Some(d)
      else match ParseNat(s[..|s| - 1])
        case None => None
        case Some(n) => Some(n * 10 + d)
  }

  /** Reads an optionally negative decimal integer. */
  function ParseInt(s: string): (r: Option<int>)
  {
    var negative := |s| > 0 && s[0] == '-';
    var digits := ParseNat(if negative then s[1..] else s);
    if digits.None? then None
    else Some(if negative then 0 - digits.value else digits.value)
  }

  /** The digits of `n` read back as `n`. */
  lemma {:induction false} ParseNatToString(n: nat)
    ensures ParseNat(NatToString(n)) == Some(n)
    decreases n
  {
    if n >= 10 {
      var s := NatToString(n);
      ParseNatToString(n / 10);
      assert s[..|s| - 1] == NatToString(n / 10);
    }
  }

  /** A minus sign before the digits of `n` reads back as `-n`. */
  lemma ParseNegative(n: nat)
    ensures ParseInt("-" + NatToString(n)) == Some(0 - n)
  {
    var digits := NatToString(n);
    var s := "-" + digits;
    ParseNatToString(n);
    assert s[1..] == digits;
  }

  /** The digits of `n` alone read back as `n`. */
  lemma ParseNonNegative(n: nat)
    ensures ParseInt(NatToString(n)) == Some(n)
  {
    ParseNatToString(n);
  }

  /** `str` on integers is undone by `ParseInt`. */
  lemma ParseIntToString(i: int)
    ensures ParseInt(IntToString(i)) == Some(i)
  {
    if i < 0 {
      ParseNegative(-i);
    } else {
      ParseNonNegative(i);
    }
  }

  // ---------------------------------------------------------------------------
  // The QEMU command line of `start_vm`

  /** The VNC display for a port: `vnc_port - 5900`. */
  function VncDisplay(port: int): int {
    port - 5900
  }

  /** Every pool port is one of the displays `:0` through `:20`. */
  lemma PoolDisplays()
    ensures forall k :: 0 <= k < |Config.VNC_PORT_POOL| ==> 0 <= VncDisplay(Config.VNC_PORT_POOL[k]) <= 20
  {
    Config.PoolShape();
  }

  /** The overlay drive, always attached. */
  function OverlayDrive(overlay: string): string {
    "file=" + overlay + ",if=virtio,format=qcow2"
  }

  /** The cloud-init drive, attached only when the seed exists. */
  function SeedDrive(seed: string): string {
    "file=" + seed + ",format=raw,if=virtio"
  }

  /** The argument of `-vnc`. */
  function VncArg(port: int): string {
    "0.0.0.0:" + IntToString(VncDisplay(port))
  }

  /** The arguments of `qemu_cmd` before the overlay drive. */
  const QEMU_BASE_ARGS: seq<string> :=
    ["qemu-system-x86_64", "-cpu", "host", "-machine", "type=q35,accel=kvm", "-m", "2048", "-nographic",
     "-netdev", "user,id=net0", "-device", "virtio-net-pci,netdev=net0"]

  /** `cloud_init_drive`: the seed drive when the seed exists, else nothing. */
  function CloudInitDrive(seed: string, seedExists: bool): (args: seq<string>)
    ensures |args| == if seedExists then 2 else 0
  {
    if seedExists then ["-drive", SeedDrive(seed)] else []
  }

  /** `qemu_cmd`. */
  function QemuArgv(overlay: string, seed: string, seedExists: bool, port: int): (argv: seq<string>)
    ensures |argv| == if seedExists then 18 else 16
    ensures argv[0] == "qemu-system-x86_64" && argv[12] == "-drive"
    ensures argv[|argv| - 2] == "-vnc"
  {
    QEMU_BASE_ARGS + ["-drive", OverlayDrive(overlay)] + CloudInitDrive(seed, seedExists) + ["-vnc", VncArg(port)]
  }

  /** The display number an argument of `-vnc` names. */
  function ParseVncArg(a: string): (r: Option<int>)
  {
    if |a| >= 8 && a[..8] == "0.0.0.0:" then ParseInt(a[8..]) else None
  }

  /** No fixed argument of `qemu_cmd` names a file. */
  lemma BaseArgsNoFile(x: string)
    requires |x| > 0 && x[0] == 'f'
    ensures x !in QEMU_BASE_ARGS
  {
    forall i | 0 <= i < |QEMU_BASE_ARGS|
      ensures QEMU_BASE_ARGS[i] != x
    {
      assert QEMU_BASE_ARGS[i][0] != 'f';
    }
  }

  /** The overlay drive follows `-drive` in every command line, and the seed
      drive is in it, right after a second `-drive`, exactly when the seed
      exists. */
  lemma QemuArgvDrives(overlay: string, seed: string, seedExists: bool, port: int)
    ensures var argv := QemuArgv(overlay, seed, seedExists, port);
      && argv[13] == OverlayDrive(overlay)
      && (SeedDrive(seed) in argv <==> seedExists)
      && (seedExists ==> argv[14..16] == ["-drive", SeedDrive(seed)])
  {
    var argv := QemuArgv(overlay, seed, seedExists, port);
    var sd := SeedDrive(seed);
    var od := OverlayDrive(overlay);
    var v := VncArg(port);
    if seedExists {
      assert argv[15] == sd;
    } else {
      assert argv == QEMU_BASE_ARGS + ["-drive", od, "-vnc", v];
      assert sd[|sd| - 1] == 'o' && od[|od| - 1] == '2';
      assert v[0] == '0';
      BaseArgsNoFile(sd);
    }
  }

  /** The last argument names display `port - 5900`. */
  lemma QemuArgvDisplay(overlay: string, seed: string, seedExists: bool, port: int)
    ensures var argv := QemuArgv(overlay, seed, seedExists, port);
      ParseVncArg(argv[|argv| - 1]) == Some(VncDisplay(port))
  {
    var argv := QemuArgv(overlay, seed, seedExists, port);
    var v := VncArg(port);
    assert argv[|argv| - 1] == v;
    assert v[..8] == "0.0.0.0:";
    assert v[8..] == IntToString(VncDisplay(port));
    ParseIntToString(VncDisplay(port));
  }

  // ---------------------------------------------------------------------------
  // Removing and re-creating images

  /** One `if os.path.exists(p): os.remove(p)` step: `None` when the removal
      raises `OSError`, otherwise the files left. */
  function RemoveIfExists(files: set<string>, locked: set<string>, p: string): (r: Option<set<string>>)
    ensures r.None? <==> p in files && p in locked
    ensures r.Some? ==> r.value == files - {p}
  {
    if p !in files then Some(files) else if p in locked then None else Some(files - {p})
  }

  /** `wipe_vm_files`: its result and the files it leaves. Removal of the
      overlay, removal of the seed and `qemu-img create` may fail; a failed
      seed re-creation only prints a warning. */
  function Wiped(files: set<string>, locked: set<string>, id: string, overlay: string,
                 overlayCreated: bool, seedCreated: bool): (bool, set<string>)
  {
    match RemoveIfExists(files, locked, overlay)
    case None => (false, files)
    case Some(f1) =>
      match RemoveIfExists(f1, locked, SeedPath(id))
      case None => (false, f1)
      case Some(f2) =>
        if !overlayCreated then (false, f2)
        else (true, f2 + {overlay} + (if seedCreated then {SeedPath(id)} else {}))
  }

  /** The policy of `wipe_vm_files`: it succeeds exactly when both removals
      and the overlay re-creation succeed, whatever happens to the seed; a
      success leaves a fresh overlay, and a seed exactly when it was
      re-created; no other file is touched. */
  lemma WipePolicy(files: set<string>, locked: set<string>, id: string, overlay: string,
                   overlayCreated: bool, seedCreated: bool)
    ensures var (ok, after) := Wiped(files, locked, id, overlay, overlayCreated, seedCreated);
      var seed := SeedPath(id);
      && (ok <==> overlayCreated && !(overlay in files && overlay in locked)
                  && !(seed in files - {overlay} && seed in locked))
      && ok == Wiped(files, locked, id, overlay, overlayCreated, !seedCreated).0
      && (ok ==> overlay in after && (seed in after <==> seedCreated || seed == overlay))
      && after - {overlay, seed} == files - {overlay, seed}
  {
  }

  /** `delete_vm_files`: its result and the files it leaves. */
  function Deleted(files: set<string>, locked: set<string>, id: string, overlay: string): (bool, set<string>)
  {
    match RemoveIfExists(files, locked, overlay)
    case None => (false, files)
    case Some(f1) =>
      match RemoveIfExists(f1, locked, SeedPath(id))
      case None => (false, f1)
      case Some(f2) => (true, f2)
  }

  /** The policy of `delete_vm_files`: each image is removed only if it
      exists; the result is false exactly when a removal raises, and then an
      image is left behind; nothing else is touched. */
  lemma DeletePolicy(files: set<string>, locked: set<string>, id: string, overlay: string)
    ensures var (ok, after) := Deleted(files, locked, id, overlay);
      var seed := SeedPath(id);
      && (ok <==> !(overlay in files && overlay in locked) && !(seed in files - {overlay} && seed in locked))
      && (ok ==> overlay !in after && seed !in after)
      && (!ok ==> overlay in after || seed in after)
      && after <= files
      && files - after <= {overlay, seed}
  {
  }

  /** The files of the host. */
  class Disk {
    var files: set<string>
    /** Existing paths whose `os.remove` raises `OSError`. */
    var locked: set<string>

    constructor (files0: set<string>, locked0: set<string>)
      ensures files == files0 && locked == locked0
    {
      files, locked := files0, locked0;
    }

    /** `os.remove`: raises `OSError` (`ok` false) for a missing or locked
        path. */
    method Remove(path: string) returns (ok: bool)
      modifies this
      ensures locked == old(locked)
      ensures ok <==> path in old(files) && path !in locked
      ensures files == if ok then old(files) - {path} else old(files)
    {
      ok := path in files && path !in locked;
      if ok {
        files := files - {path};
      }
    }

    /** `create_vm_overlay`: `qemu-img create` either writes the overlay
        (`succeeds`) or fails with `CalledProcessError`. */
    method CreateVmOverlay(id: string, succeeds: bool) returns (path: Option<string>)
      modifies this
      ensures locked == old(locked)
      ensures succeeds ==> path == Some(OverlayPath(id)) && files == old(files) + {OverlayPath(id)}
      ensures !succeeds ==> path.None? && files == old(files)
    {
      var p := OverlayPath(id);
      if succeeds {
        files := files + {p};
        return Some(p);
      }
      return None;
    }

    /** `create_cloud_init_seed`: `cloud-localds` either writes the seed
        (`succeeds`) or fails, which is reported as `None`. */
    method CreateCloudInitSeed(id: string, succeeds: bool) returns (path: Option<string>)
      modifies this
      ensures locked == old(locked)
      ensures succeeds ==> path == Some(SeedPath(id)) && files == old(files) + {SeedPath(id)}
      ensures !succeeds ==> path.None? && files == old(files)
    {
      var p := SeedPath(id);
      if succeeds {
        files := files + {p};
        return Some(p);
      }
      return None;
    }

    /** `wipe_vm_files`. */
    method WipeVmFiles(id: string, overlay: string, overlayCreated: bool, seedCreated: bool) returns (ok: bool)
      modifies this
      ensures locked == old(locked)
      ensures (ok, files) == Wiped(old(files), locked, id, overlay, overlayCreated, seedCreated)
    {
      var seed := SeedPath(id);
      if overlay in files {
        var removed := Remove(overlay);
        if !removed {
          return false;
        }
      }
      ghost var f1 := files;
      assert RemoveIfExists(old(files), locked, overlay) == Some(f1);
      if seed in files {
        var removed := Remove(seed);
        if !removed {
          return false;
        }
      }
      ghost var f2 := files;
      assert RemoveIfExists(f1, locked, seed) == Some(f2);
      if !overlayCreated {
        return false;
      }
      files := files + {overlay};
      var created := CreateCloudInitSeed(id, seedCreated);
      assert files == f2 + {overlay} + (if seedCreated then {seed} else {});
      return true;
    }

    /** `delete_vm_files`. */
    method DeleteVmFiles(id: string, overlay: string) returns (ok: bool)
      modifies this
      ensures locked == old(locked)
      ensures (ok, files) == Deleted(old(files), locked, id, overlay)
    {
      var seed := SeedPath(id);
      if overlay in files {
        var removed := Remove(overlay);
        if !removed {
          return false;
        }
      }
      if seed in files {
        var removed := Remove(seed);
        if !removed {
          return false;
        }
      }
      return true;
    }
  }

  datatype Signal = SIGTERM | SIGKILL

  /** `stop_vm`: its result, and the process table and signal log it leaves.
      A live process gets SIGTERM, a grace period, then SIGKILL if it is
      still alive. `exitsOnTerm` says whether it is gone after the grace
      period; `termRaises` and `killRaises` whether `os.kill` raises `OSError`
      for that signal, which makes the result false. */
  function StopOutcome(alive: set<int>, signals: seq<(Pid, Signal)>, pid: Option<Pid>,
                       exitsOnTerm: bool, termRaises: bool, killRaises: bool): (bool, set<int>, seq<(Pid, Signal)>)
  {
    if !StateManager.PidRunning(alive, pid) then (true, alive, signals)
    else
      var p := pid.value;
      if termRaises then (false, alive, signals)
      else if exitsOnTerm then (true, alive - {p}, signals + [(p, SIGTERM)])
      else if killRaises then (false, alive, signals + [(p, SIGTERM)])
      else (true, alive - {p}, signals + [(p, SIGTERM), (p, SIGKILL)])
  }

  /** The signal policy of `stop_vm`: no signal reaches a missing or dead
      process; otherwise only that process is signalled, SIGTERM first, and
      SIGKILL only when it outlived the grace period; the result is false
      exactly when `os.kill` raised, and true leaves no live process. */
  lemma StopPolicy(alive: set<int>, signals: seq<(Pid, Signal)>, pid: Option<Pid>,
                   exitsOnTerm: bool, termRaises: bool, killRaises: bool)
    ensures var (ok, after, sent) := StopOutcome(alive, signals, pid, exitsOnTerm, termRaises, killRaises);
      && (!StateManager.PidRunning(alive, pid) ==> ok && after == alive && sent == signals)
      && signals <= sent && |sent| <= |signals| + 2
      && (forall i :: |signals| <= i < |sent| ==> pid.Some? && sent[i].0 == pid.value)
      && (|sent| > |signals| ==> sent[|signals|].1 == SIGTERM)
      && (|sent| == |signals| + 2 <==> StateManager.PidRunning(alive, pid) && !termRaises && !exitsOnTerm && !killRaises)
      && (ok <==> !StateManager.PidRunning(alive, pid) || (!termRaises && (exitsOnTerm || !killRaises)))
      && (ok ==> !StateManager.PidRunning(after, pid))
      && (!ok ==> after == alive)
  {
  }

  /** The process table of the host. */
  class Processes {
    /** The pids whose process has not exited; an exited child is taken to
        leave the table at once, without lingering as a zombie. */
    var alive: set<int>
    /** Every signal delivered, in order. */
    var signals: seq<(Pid, Signal)>
    /** Every command line launched, in order. */
    var launched: seq<seq<string>>

    constructor (alive0: set<int>)
      ensures alive == alive0 && signals == [] && launched == []
    {
      alive, signals, launched := alive0, [], [];
    }

    /** `start_vm`: builds the command line, with the seed drive when the seed
        exists on `disk`, and launches it; `spawned` is the pid `Popen` hands
        out, `None` when it raises. */
    method StartVm(id: string, overlay: string, port: int, disk: Disk, spawned: Option<Pid>) returns (pid: Option<Pid>)
      modifies this
      ensures pid == spawned && signals == old(signals)
      ensures spawned.Some? ==>
        && launched == old(launched) + [QemuArgv(overlay, SeedPath(id), SeedPath(id) in disk.files, port)]
        && alive == old(alive) + {spawned.value}
      ensures spawned.None? ==> launched == old(launched) && alive == old(alive)
    {
      var seed := SeedPath(id);
      var argv := QemuArgv(overlay, seed, seed in disk.files, port);
      if spawned.Some? {
        launched := launched + [argv];
        alive := alive + {spawned.value};
      }
      pid := spawned;
    }

    /** `stop_vm`. */
    method StopVm(pid: Option<Pid>, exitsOnTerm: bool, termRaises: bool, killRaises: bool) returns (ok: bool)
      modifies this
      ensures launched == old(launched)
      ensures (ok, alive, signals) == StopOutcome(old(alive), old(signals), pid, exitsOnTerm, termRaises, killRaises)
    {
      if pid.Some? && pid.value in alive {
        var p := pid.value;
        if termRaises {
          return false;
        }
        signals := signals + [(p, SIGTERM)];
        if exitsOnTerm {
          alive := alive - {p};
        }
        // the grace period, `time.sleep(1)`, passes here
        if p in alive {
          if killRaises {
            return false;
          }
          signals := signals + [(p, SIGKILL)];
          alive := alive - {p};
          assert signals == old(signals) + [(p, SIGTERM), (p, SIGKILL)];
        }
        return true;
      }
      return true;
    }
  }
}
