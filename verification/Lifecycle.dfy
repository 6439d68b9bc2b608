/** Start, Stop and restart as whole calls: what each does to a plugin when no other goroutine interleaves, and how a
    run of the protocol in which one goroutine performs a whole call corresponds to it. */
module Lifecycle {
  import opened Protocol
  import opened ProtocolInvariants
  import opened ProtocolStops
  import opened Text

  /** Whether the socket can be prepared and listened on, and whether the kubelet accepts the registration. */
  datatype StartEnv = StartEnv(listens: bool, registers: bool)

  /** A Stop with a server posts on `term` and takes the server down; with the slot full it blocks. */
  function StopWhole(p: Plugin): Option<Plugin> {
    if p.server.Nil? then Some(p)
    else if p.token then None
    else Some(Plugin(Nil, p.dropped, true, p.private, p.posts + 1))
  }

  /** A Start refuses to replace a server; its failure to register leaves the new server up. */
  function StartWhole(p: Plugin, private: bool, env: StartEnv): (Plugin, bool) {
    if !p.server.Nil? then (p, false)
    else (p.(private := private, server := if env.listens then Serving else Nil), env.listens && env.registers)
  }

  datatype RestartResult = NoServer | StopBlocked | Restarted | StartFailed

  function RestartWhole(p: Plugin, env: StartEnv): (Plugin, RestartResult) {
    if p.server.Nil? then (p, NoServer)
    else match StopWhole(p)
      case None => (p, StopBlocked)
      case Some(stopped) =>
        var (p', ok) := StartWhole(stopped, true, env);
        (p', if ok then Restarted else StartFailed)
  }

  // ---------------------------------------------------------------- whole calls as runs

  /** Every step is taken by the controller. */
  ghost predicate OnlyController(labels: seq<Label>) {
    forall i | 0 <= i < |labels| :: labels[i].ControllerStep?
  }

  /** Every step is taken by health loop j. */
  ghost predicate OnlyLoop(labels: seq<Label>, j: nat) {
    forall i | 0 <= i < |labels| :: (labels[i].LoopStep? || labels[i].SocketRemoved?) && labels[i].j == j
  }

  /** The controller, from the creation of the server on. */
  lemma ControllerServes(before: Run, registers: bool) returns (r: Run)
    requires IsRun(before) && OnlyController(before.labels) && !Last(before).panicked
    requires Last(before).controller == Starting(StartCreate) && Last(before).plugin.server.Nil?
    ensures IsRun(r) && Continues(before, r) && OnlyController(r.labels)
    ensures var s := Last(before);
            Last(r) == s.(plugin := s.plugin.(server := Serving),
              loops := if registers then s.loops + [Setup] else s.loops,
                          controller := if registers then Waiting else Aborted)
  {
    r := Extend(before, ControllerStep(true));
    r := Extend(r, ControllerStep(true));
    r := Extend(r, ControllerStep(registers));
  }

  /** The controller performing its Start without interference. */
  lemma ControllerStarts(s: State, env: StartEnv) returns (r: Run)
    requires !s.panicked && s.controller == Starting(StartGuard)
    ensures RunFrom(s, r) && OnlyController(r.labels)
    ensures var (p, ok) := StartWhole(s.plugin, false, env);
            Last(r) == s.(plugin := p, loops := if ok then s.loops + [Setup] else s.loops,
                          controller := if ok then Waiting else Aborted)
  {
    r := Extend(Here(s), ControllerStep(true));
    if s.plugin.server.Nil? {
      r := Extend(r, ControllerStep(env.listens));
      if env.listens {
        r := ControllerServes(r, env.registers);
      }
    }
  }

  /** The controller performing Stop without interference. */
  lemma ControllerStops(s: State) returns (r: Run)
    requires !s.panicked && s.closed && s.controller == Waiting && StopWhole(s.plugin).Some?
    ensures RunFrom(s, r) && OnlyController(r.labels)
    ensures Last(r) == s.(plugin := StopWhole(s.plugin).value, controller := Finished)
  {
    r := Extend(Here(s), ControllerStep(true));
    r := Extend(r, ControllerStep(true));
    if !s.plugin.server.Nil? {
      r := Extend(r, ControllerStep(true));
      r := Extend(r, ControllerStep(true));
      r := Extend(r, ControllerStep(true));
    }
  }

  predicate BetweenCalls(l: Loop) {
    !l.InStop? && !l.InStart?
  }

  /** If the controller's Stop runs without interference while no restart is under way, the server is down for good:
      no continuation, however its steps interleave, brings it back. */
  lemma AtomicStopIsFinal(devs: seq<Dev>, before: Run, rest: Run)
    requires RunFrom(Initial(devs), before)
    requires var s := Last(before);
             && !s.panicked && s.closed && s.controller == Waiting && StopWhole(s.plugin).Some?
             && (forall j | 0 <= j < |s.loops| :: BetweenCalls(s.loops[j]))
             && RunFrom(s.(plugin := StopWhole(s.plugin).value, controller := Finished), rest)
    ensures NeverUp(rest)
  {
    SoundKept(devs, before, |before.states| - 1);
    forall n | 0 <= n < |rest.states| ensures !rest.states[n].plugin.Up() {
      SettledStays(rest, n);
    }
  }

  lemma LoopEntersRestart(s: State, j: nat) returns (r: Run)
    requires !s.panicked && j < |s.loops| && s.loops[j].Select?
    ensures RunFrom(s, r) && OnlyLoop(r.labels, j)
    ensures Last(r) == s.(loops := s.loops[j := if s.plugin.server.Nil? then Ended else InStop(StopGuard)])
  {
    r := Extend(Here(s), SocketRemoved(j));
    r := Extend(r, LoopStep(j, true));
    assert Last(r).loops == s.loops[j := if s.plugin.server.Nil? then Ended else InStop(StopGuard)];
  }

  lemma LoopTakesDown(before: Run, j: nat) returns (r: Run)
    requires IsRun(before) && OnlyLoop(before.labels, j)
    requires var s := Last(before);
             !s.panicked && j < |s.loops| && s.loops[j] == InStop(StopServer) && !s.plugin.server.Nil?
    ensures IsRun(r) && Continues(before, r) && OnlyLoop(r.labels, j)
    ensures var s := Last(before);
            Last(r) == s.(plugin := s.plugin.(server := Nil), loops := s.loops[j := InStart(StartGuard)])
  {
    r := Extend(before, LoopStep(j, true));
    assert Last(r).loops == Last(before).loops[j := InStop(StopClear)];
    r := Extend(r, LoopStep(j, true));
    assert Last(r).loops == Last(before).loops[j := InStart(StartGuard)];
  }

  lemma LoopStops(before: Run, j: nat) returns (r: Run)
    requires IsRun(before) && OnlyLoop(before.labels, j)
    requires var s := Last(before);
             !s.panicked && j < |s.loops| && s.loops[j] == InStop(StopGuard) && StopWhole(s.plugin).Some?
    ensures IsRun(r) && Continues(before, r) && OnlyLoop(r.labels, j)
    ensures var s := Last(before);
            Last(r) == s.(plugin := StopWhole(s.plugin).value, loops := s.loops[j := InStart(StartGuard)])
  {
    var s := Last(before);
    r := Extend(before, LoopStep(j, true));
    if !s.plugin.server.Nil? {
      assert Last(r) == s.(loops := s.loops[j := InStop(StopPost)]);
      r := Extend(r, LoopStep(j, true));
      assert Last(r).loops == s.loops[j := InStop(StopServer)];
      r := LoopTakesDown(r, j);
    }
  }

  /** From the creation of the server on. */
  lemma LoopServes(before: Run, j: nat, registers: bool) returns (r: Run)
    requires IsRun(before) && OnlyLoop(before.labels, j)
    requires var s := Last(before);
             !s.panicked && j < |s.loops| && s.loops[j] == InStart(StartCreate) && s.plugin.server.Nil?
    ensures IsRun(r) && Continues(before, r) && OnlyLoop(r.labels, j)
    ensures var s := Last(before);
            Last(r) == s.(plugin := s.plugin.(server := Serving),
                          loops := (if registers then s.loops + [Setup] else s.loops)[j := Ended])
  {
    var s := Last(before);
    r := Extend(before, LoopStep(j, true));
    assert Last(r) == s.(plugin := s.plugin.(server := Fresh), loops := s.loops[j := InStart(StartServe)]);
    r := Extend(r, LoopStep(j, true));
    assert Last(r) == s.(plugin := s.plugin.(server := Serving), loops := s.loops[j := InStart(StartRegister)]);
    r := Extend(r, LoopStep(j, registers));
    assert Last(r).loops == (if registers then s.loops + [Setup] else s.loops)[j := Ended];
  }

  lemma LoopStarts(before: Run, j: nat, env: StartEnv) returns (r: Run)
    requires IsRun(before) && OnlyLoop(before.labels, j)
    requires var s := Last(before); !s.panicked && j < |s.loops| && s.loops[j] == InStart(StartGuard)
    ensures IsRun(r) && Continues(before, r) && OnlyLoop(r.labels, j)
    ensures var s := Last(before);
            var (p, ok) := StartWhole(s.plugin, true, env);
            Last(r) == s.(plugin := p, loops := (if ok then s.loops + [Setup] else s.loops)[j := Ended])
  {
    var s := Last(before);
    r := Extend(before, LoopStep(j, true));
    if s.plugin.server.Nil? {
      assert Last(r) == s.(loops := s.loops[j := InStart(StartListen)]);
      r := Extend(r, LoopStep(j, env.listens));
      if env.listens {
        assert Last(r) == s.(plugin := s.plugin.(private := true), loops := s.loops[j := InStart(StartCreate)]);
        r := LoopServes(r, j, env.registers);
      }
    }
    assert Last(r).loops == (if StartWhole(s.plugin, true, env).1 then s.loops + [Setup] else s.loops)[j := Ended];
  }

  /** A health loop performing restart without interference, from the removal of the socket to its own end. */
  lemma LoopRestarts(s: State, j: nat, env: StartEnv) returns (r: Run)
    requires !s.panicked && j < |s.loops| && s.loops[j].Select? && RestartWhole(s.plugin, env).1 != StopBlocked
    ensures RunFrom(s, r) && OnlyLoop(r.labels, j)
    ensures var (p, result) := RestartWhole(s.plugin, env);
            Last(r) == s.(plugin := p,
                          loops := (if result == Restarted then s.loops + [Setup] else s.loops)[j := Ended])
  {
    r := LoopEntersRestart(s, j);
    if !s.plugin.server.Nil? {
      r := LoopStops(r, j);
      r := LoopStarts(r, j, env);
      assert Last(r).loops ==
               (if RestartWhole(s.plugin, env).1 == Restarted then s.loops + [Setup] else s.loops)[j := Ended];
    }
  }
}
