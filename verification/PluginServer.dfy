/** The device plugin object: Start, Stop and restart over its fields, the stream handler that updates the shared device
    list in place, and the health check that turns file-system events into verdicts. */
module PluginServer {
  import opened Lifecycle
  import opened Protocol
  import opened Publishing
  import opened Text

  /** pluginapi.Device: the list holds references to these, and a stream updates them in place. */
  class Device {
    const id: string
    var healthy: bool

    constructor (id: string, healthy: bool)
      ensures this.id == id && this.healthy == healthy
    {
      this.id, this.healthy := id, healthy;
    }
  }

  /** What the select of ListAndWatch receives. */
  datatype Received = Health(v: Verdict) | StopSignal | TermSignal

  datatype Op = Create | Remove | Rename | OtherOp

  /** What the select of healthCheck receives. */
  datatype Input = StopRequest | FsEvent(name: Path, op: Op)

  datatype CheckEnd = SetupFailed | StillReading | StoppedByChannel | RestartEnded(result: RestartResult)

  /** The environment of the set-up phase: the IOMMUFD probe, the watcher, and which paths it accepts. */
  datatype SetupEnv = SetupEnv(
    probe: Result<bool, string>, watcherOk: bool, socketDirOk: bool, statOk: bool, adds: Path -> bool)

  // ---------------------------------------------------------------- verdicts

  /** The verdict of an event at a watched path; other operations say nothing. */
  function VerdictOf(paths: map<Path, string>, e: Input): Option<Verdict> {
    if e.FsEvent? && e.name in paths && e.op.Create? then Some(Verdict(paths[e.name], true))
    else if e.FsEvent? && e.name in paths && (e.op.Remove? || e.op.Rename?) then Some(Verdict(paths[e.name], false))
    else None
  }

  /** What ends the event loop: the stop channel, or the removal of the socket at a path that is not watched. */
  predicate EndsLoop(paths: map<Path, string>, socket: Path, e: Input) {
    e.StopRequest? || (e.name !in paths && e.name == socket && e.op.Remove?)
  }

  function VerdictLog(paths: map<Path, string>, inputs: seq<Input>): seq<Verdict> {
    if inputs == [] then [] else
      var v := VerdictOf(paths, inputs[|inputs| - 1]);
      VerdictLog(paths, inputs[..|inputs| - 1]) + if v.Some? then [v.value] else []
  }

  /** Every verdict is about an advertised device. */
  lemma {:induction false} VerdictsKnown(dir: Path, fd: bool, devs: seq<Dev>, inputs: seq<Input>)
    ensures forall n | 0 <= n < |VerdictLog(PathDeviceMap(dir, fd, devs), inputs)| ::
              Known(devs, VerdictLog(PathDeviceMap(dir, fd, devs), inputs)[n].id)
  {
    if inputs != [] {
      var paths, last := PathDeviceMap(dir, fd, devs), inputs[|inputs| - 1];
      VerdictsKnown(dir, fd, devs, inputs[..|inputs| - 1]);
      if last.FsEvent? && last.name in paths {
        WatchedPaths(dir, fd, devs, last.name);
      }
    }
  }

  /** The verdicts among what a handler receives. */
  function HealthOf(received: seq<Received>): seq<Verdict> {
    if received == [] then [] else
      var last := received[|received| - 1];
      HealthOf(received[..|received| - 1]) + if last.Health? then [last.v] else []
  }

  /** The lists a stream sends: the first at once, then one after each verdict. */
  function Sends(devs: seq<Dev>, vs: seq<Verdict>): (r: seq<seq<Dev>>)
    ensures |r| == |vs| + 1
  {
    if vs == [] then [devs] else Sends(devs, vs[..|vs| - 1]) + [Fold(devs, vs)]
  }

  /** The k-th list sent is the fold of the first k verdicts. */
  lemma {:induction false} SendsAt(devs: seq<Dev>, vs: seq<Verdict>, k: nat)
    requires k <= |vs|
    ensures Sends(devs, vs)[k] == Fold(devs, vs[..k])
  {
    if k < |vs| {
      SendsAt(devs, vs[..|vs| - 1], k);
      assert vs[..|vs| - 1][..k] == vs[..k];
    } else {
      assert vs[..k] == vs;
    }
  }

  lemma HealthSnoc(received: seq<Received>, n: nat)
    requires n < |received| && received[n].Health?
    ensures HealthOf(received[..n + 1]) == HealthOf(received[..n]) + [received[n].v]
  {
    assert received[..n + 1][..n] == received[..n];
  }

  lemma SendsSnoc(devs: seq<Dev>, vs: seq<Verdict>, v: Verdict)
    ensures Fold(devs, vs + [v]) == Apply(Fold(devs, vs), v)
    ensures Sends(devs, vs + [v]) == Sends(devs, vs) + [Fold(devs, vs + [v])]
  {
    assert (vs + [v])[..|vs|] == vs;
  }

  lemma {:induction false} AllHealth(received: seq<Received>, vs: seq<Verdict>)
    requires |received| == |vs| && forall n | 0 <= n < |vs| :: received[n] == Received.Health(vs[n])
    ensures HealthOf(received) == vs
  {
    if vs != [] {
      AllHealth(received[..|vs| - 1], vs[..|vs| - 1]);
    }
  }

  /** A handler that has read the verdicts `vs`, and nothing else, has sent one list more than that; the k-th shows
      every device at its place, with what the first k verdicts last said of it. */
  lemma ListShows(received: seq<Received>, vs: seq<Verdict>, devs: seq<Dev>, k: nat, i: nat)
    requires |received| == |vs| && forall n | 0 <= n < |vs| :: received[n] == Received.Health(vs[n])
    requires k <= |vs| && i < |devs|
    ensures |Sends(devs, HealthOf(received))| == |vs| + 1
    ensures var list := Sends(devs, HealthOf(received))[k];
            |list| == |devs| && list[i] == Dev(devs[i].id, LastVerdict(vs[..k], devs[i].id, devs[i].healthy))
  {
    AllHealth(received, vs);
    SendsAt(devs, vs, k);
    FoldAt(devs, vs[..k], i);
  }

  /** Where a handler stands after reading verdicts only: the list now, and the lists sent. */
  ghost predicate ServedSoFar(received: seq<Received>, read: nat, before: seq<Dev>, now: seq<Dev>,
                              sent: seq<seq<Dev>>) {
    && read <= |received| && (forall i | 0 <= i < read :: received[i].Health?)
    && sent == Sends(before, HealthOf(received[..read]))
    && now == Fold(before, HealthOf(received[..read]))
  }

  lemma ServeStep(received: seq<Received>, read: nat, before: seq<Dev>, now: seq<Dev>, sent: seq<seq<Dev>>)
    requires ServedSoFar(received, read, before, now, sent) && read < |received| && received[read].Health?
    ensures ServedSoFar(received, read + 1, before, Apply(now, received[read].v), sent + [Apply(now, received[read].v)])
  {
    HealthSnoc(received, read);
    SendsSnoc(before, HealthOf(received[..read]), received[read].v);
  }

  // ---------------------------------------------------------------- the plugin

  class GenericDevicePlugin {
    var devs: seq<Device>
    const socketPath: Path
    const deviceDir: Path
    var server: Server
    var stopIsPrivate: bool
    var term: bool
    ghost var dropped: nat
    ghost var posts: nat
    ghost var spawned: nat

    ghost function View(): Plugin
      reads this
    {
      Plugin(server, dropped, term, stopIsPrivate, posts)
    }

    static function SnapshotOf(devs: seq<Device>): (r: seq<Dev>)
      reads devs
      ensures |r| == |devs| && forall i | 0 <= i < |devs| :: r[i] == Dev(devs[i].id, devs[i].healthy)
    {
      if devs == [] then [] else SnapshotOf(devs[..|devs| - 1]) + [Dev(devs[|devs| - 1].id, devs[|devs| - 1].healthy)]
    }

    function Snapshot(): (r: seq<Dev>)
      reads this, devs
      ensures |r| == |devs| && forall i | 0 <= i < |devs| :: r[i] == Dev(devs[i].id, devs[i].healthy)
    {
      SnapshotOf(devs)
    }

    constructor (devices: seq<Device>, socketPath: Path, deviceDir: Path)
      ensures devs == devices && this.socketPath == socketPath && this.deviceDir == deviceDir
      ensures View() == Initial([]).plugin && spawned == 0
    {
      devs, this.socketPath, this.deviceDir := devices, socketPath, deviceDir;
      server, stopIsPrivate, term, dropped, posts, spawned := Nil, false, false, 0, 0, 0;
    }

    /** A started health check is counted; a Start that fails after listening leaves the server up. */
    method Start(private: bool, cleanupOk: bool, listenOk: bool, registerOk: bool) returns (ok: bool)
      modifies this`server, this`stopIsPrivate, this`spawned
      ensures (View(), ok) == StartWhole(old(View()), private, StartEnv(cleanupOk && listenOk, registerOk))
      ensures spawned == old(spawned) + if ok then 1 else 0
    {
      if !server.Nil? {
        return false;
      }
      stopIsPrivate := private;
      if !cleanupOk {
        return false;
      }
      if !listenOk {
        return false;
      }
      server := Fresh;
      server := Serving;
      if !registerOk {
        return false;
      }
      spawned := spawned + 1;
      return true;
    }

    /** With the slot of `term` full the call blocks, which is reported and changes nothing. */
    method Stop(cleanupOk: bool) returns (blocked: bool, ok: bool)
      modifies this`server, this`term, this`posts
      ensures blocked <==> StopWhole(old(View())).None?
      ensures View() == if blocked then old(View()) else StopWhole(old(View())).value
      ensures !blocked ==> (ok <==> old(server).Nil? || cleanupOk)
    {
      if server.Nil? {
        return false, true;
      }
      if term {
        return true, false;
      }
      term, posts := true, posts + 1;
      server := Halted;
      server := Nil;
      return false, cleanupOk;
    }

    method Restart(cleanupOk: bool, listenOk: bool, registerOk: bool) returns (result: RestartResult)
      modifies this`server, this`term, this`posts, this`stopIsPrivate, this`spawned
      ensures (View(), result) == RestartWhole(old(View()), StartEnv(cleanupOk && listenOk, registerOk))
      ensures spawned == old(spawned) + if result == Restarted then 1 else 0
    {
      if server.Nil? {
        return NoServer;
      }
      var blocked, _ := Stop(cleanupOk);
      if blocked {
        return StopBlocked;
      }
      var ok := Start(true, cleanupOk, listenOk, registerOk);
      return if ok then Restarted else StartFailed;
    }

    /** One verdict, written into every device object with that id. */
    method ApplyVerdict(v: Verdict)
      modifies devs
      ensures Snapshot() == Apply(old(Snapshot()), v)
    {
      for n := 0 to |devs|
        invariant forall i | 0 <= i < n && devs[i].id == v.id :: devs[i].healthy == v.healthy
        invariant forall i | 0 <= i < |devs| ::
                    devs[i].healthy == old(devs[i].healthy) || (devs[i].id == v.id && devs[i].healthy == v.healthy)
      {
        if v.id == devs[n].id {
          devs[n].healthy := v.healthy;
        }
      }
      forall i | 0 <= i < |devs| ensures Snapshot()[i] == Apply(old(Snapshot()), v)[i] {
        ApplyAt(old(Snapshot()), v, i);
      }
    }

    /** One verdict case: the list is updated and then sent. */
    method Serve(v: Verdict) returns (list: seq<Dev>)
      modifies devs
      ensures list == Snapshot() == Apply(old(Snapshot()), v)
    {
      ApplyVerdict(v);
      list := Snapshot();
    }

    /** The verdict cases of the handler's loop. */
    method ServeVerdicts(received: seq<Received>) returns (sent: seq<seq<Dev>>, read: nat)
      modifies devs
      ensures read <= |received| && forall i | 0 <= i < read :: received[i].Health?
      ensures read < |received| ==> !received[read].Health?
      ensures sent == Sends(old(Snapshot()), HealthOf(received[..read]))
      ensures Snapshot() == Fold(old(Snapshot()), HealthOf(received[..read]))
    {
      var now := Snapshot();
      ghost var before := now;
      sent, read := [now], 0;
      while read < |received| && received[read].Health?
        invariant ServedSoFar(received, read, before, now, sent)
        invariant now == Snapshot()
      {
        ServeStep(received, read, before, now, sent);
        now := Serve(received[read].v);
        sent := sent + [now];
        read := read + 1;
      }
    }

    /** The handler, over what its select receives: it sends the list at once, and again after each verdict. It reads
        until a stop or term signal; a term signal empties the slot. */
    method ListAndWatch(received: seq<Received>) returns (sent: seq<seq<Dev>>, read: nat)
      modifies devs, this`term
      ensures read <= |received| && forall i | 0 <= i < read :: received[i].Health?
      ensures read < |received| ==> !received[read].Health?
      ensures sent == Sends(old(Snapshot()), HealthOf(received[..read]))
      ensures Snapshot() == Fold(old(Snapshot()), HealthOf(received[..read]))
      ensures term == if read < |received| && received[read].TermSignal? then false else old(term)
    {
      sent, read := ServeVerdicts(received);
      if read < |received| && received[read].TermSignal? {
        term := false;
      }
    }

    /** Which devices are watched: the map is complete exactly when every path is accepted. */
    method WatchDevices(fd: bool, adds: Path -> bool) returns (ok: bool, paths: map<Path, string>)
      ensures ok <==> forall i | 0 <= i < |devs| :: adds(WatchPath(deviceDir, fd, devs[i].id))
      ensures ok ==> paths == PathDeviceMap(deviceDir, fd, Snapshot())
    {
      paths := map[];
      for n := 0 to |devs|
        invariant forall i | 0 <= i < n :: adds(WatchPath(deviceDir, fd, devs[i].id))
        invariant paths == PathDeviceMap(deviceDir, fd, Snapshot()[..n])
      {
        var devicePath := WatchPath(deviceDir, fd, devs[n].id);
        paths := paths[devicePath := devs[n].id];
        assert Snapshot()[..n + 1][..n] == Snapshot()[..n];
        if !adds(devicePath) {
          return false, paths;
        }
      }
      assert Snapshot()[..|devs|] == Snapshot();
      return true, paths;
    }

    /** The event loop: the verdict of every event up to the first input that ends the loop, in order. */
    method ForwardEvents(paths: map<Path, string>, inputs: seq<Input>) returns (sent: seq<Verdict>, read: nat)
      ensures read <= |inputs| && sent == VerdictLog(paths, inputs[..read])
      ensures forall i | 0 <= i < read ::
                inputs[i].FsEvent? && !(inputs[i].name == socketPath && inputs[i].op == Remove && socketPath !in paths)
      ensures read < |inputs| ==>
                || inputs[read].StopRequest?
                || (inputs[read].name == socketPath && inputs[read].op == Remove && socketPath !in paths)
    {
      sent, read := [], 0;
      while read < |inputs|
        invariant read <= |inputs| && sent == VerdictLog(paths, inputs[..read])
        invariant forall i | 0 <= i < read :: !EndsLoop(paths, socketPath, inputs[i])
      {
        assert inputs[..read + 1][..read] == inputs[..read];
        var input := inputs[read];
        if input.StopRequest? {
          return;
        }
        if input.name in paths {
          if input.op.Create? {
            sent := sent + [Verdict(paths[input.name], true)];
          } else if input.op.Remove? || input.op.Rename? {
            sent := sent + [Verdict(paths[input.name], false)];
          }
        } else if input.name == socketPath && input.op.Remove? {
          return;
        }
        read := read + 1;
      }
    }

    /** The health check, over what its select receives: it forwards the verdict of every event up to the first input
        that ends the loop, in order, and runs restart at most once, as its last act. */
    method HealthCheck(env: SetupEnv, inputs: seq<Input>, cleanupOk: bool, listenOk: bool, registerOk: bool)
      returns (end: CheckEnd, sent: seq<Verdict>, read: nat)
      modifies this`server, this`term, this`posts, this`stopIsPrivate, this`spawned
      ensures end == SetupFailed <==>
              env.probe.Err? || !env.watcherOk || !env.socketDirOk || !env.statOk
              || !(forall i | 0 <= i < |devs| :: env.adds(WatchPath(deviceDir, env.probe.value, devs[i].id)))
      ensures end == SetupFailed ==> sent == [] && View() == old(View()) && spawned == old(spawned)
      ensures end != SetupFailed ==>
                var paths := PathDeviceMap(deviceDir, env.probe.value, old(Snapshot()));
                && read <= |inputs| && sent == VerdictLog(paths, inputs[..read])
                && (forall i | 0 <= i < read :: !EndsLoop(paths, socketPath, inputs[i]))
                && (end == StillReading <==> read == |inputs|)
                && (read < |inputs| ==> EndsLoop(paths, socketPath, inputs[read])
                                        && (end == StoppedByChannel <==> inputs[read].StopRequest?))
      ensures end.RestartEnded? ==>
                && (View(), end.result) == RestartWhole(old(View()), StartEnv(cleanupOk && listenOk, registerOk))
                && spawned == old(spawned) + if end.result == Restarted then 1 else 0
      ensures !end.RestartEnded? ==> View() == old(View()) && spawned == old(spawned)
    {
      sent, read := [], 0;
      if env.probe.Err? || !env.watcherOk || !env.socketDirOk || !env.statOk {
        return SetupFailed, [], 0;
      }
      var ok, paths := WatchDevices(env.probe.value, env.adds);
      if !ok {
        return SetupFailed, [], 0;
      }
      sent, read := ForwardEvents(paths, inputs);
      if read == |inputs| {
        return StillReading, sent, read;
      }
      if inputs[read].StopRequest? {
        return StoppedByChannel, sent, read;
      }
      var result := Restart(cleanupOk, listenOk, registerOk);
      return RestartEnded(result), sent, read;
    }
  }
}
