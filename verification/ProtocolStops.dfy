/** Taking the plugin down: what a failed registration leaves behind, when a stopped plugin stays down, and when the
    calls of Start and Stop run into a server field that another goroutine has cleared. */
module ProtocolStops {
  import opened Protocol
  import opened ProtocolInvariants
  import opened ProtocolStreams

  ghost predicate AlwaysUp(r: Run) {
    forall n | 0 <= n < |r.states| :: r.states[n].plugin.Up()
  }

  ghost predicate NeverUp(r: Run) {
    forall n | 0 <= n < |r.states| :: !r.states[n].plugin.Up()
  }

  // ---------------------------------------------------------------- a failed registration

  /** When the controller's own Start fails to register, from that step on, over the whole run, its server serves, no
      health loop exists, and the controller is out of the game. */
  lemma {:induction false} FailedRegisterOrphans(devs: seq<Dev>, r: Run, n: nat, m: nat)
    requires RunFrom(Initial(devs), r) && n < m < |r.states|
    requires r.states[n].controller == Starting(StartRegister) && r.labels[n] == ControllerStep(false)
    ensures var s := r.states[m]; s.plugin.server.Serving? && s.loops == [] && s.controller == Aborted
  {
    if m == n + 1 {
      SoundKept(devs, r, n);
    } else {
      FailedRegisterOrphans(devs, r, n, m - 1);
      var s, l := r.states[m - 1], r.labels[m - 1];
      if !l.ControllerStep? && !l.LoopStep? && !l.TermEnds? {
        PluginFrame(s, l);
      }
    }
  }

  /** A restart that fails to register ends its loop, and no loop is live then or in any continuation. */
  lemma FailedRestartLeavesNoLoop(s: State, j: nat, r: Run, n: nat)
    requires Enabled(s, LoopStep(j, false)) && s.loops[j] == InStart(StartRegister) && Roles(s) <= 1
    requires RunFrom(Step(s, LoopStep(j, false)), r) && n < |r.states|
    ensures !r.states[n].controller.Starting? && forall i | 0 <= i < |r.states[n].loops| :: r.states[n].loops[i].Ended?
  {
    SumUpdate(Live(), s.loops, j, Ended);
    SumAtLeast(s.loops, j);
    RolesAlongRun(r, n);
    forall i | 0 <= i < |r.states[n].loops| ensures r.states[n].loops[i].Ended? {
      NoRolesAllEnded(r.states[n].loops, i);
    }
  }

  /** A loop is between creating a server and its registration. */
  predicate BringingUp(s: State, j: nat) {
    j < |s.loops| && (s.loops[j] == InStart(StartServe) || s.loops[j] == InStart(StartRegister))
  }

  /** Step i is the controller stopping the server the field names. */
  predicate StopsServer(r: Run, i: nat) {
    i < |r.labels| && i < |r.states| && r.labels[i].ControllerStep? && r.states[i].controller == Stopping(StopServer)
  }

  ghost predicate StoppedBetween(r: Run, m: nat, n: nat) {
    exists i | m <= i < n :: StopsServer(r, i)
  }

  lemma StoppedNext(r: Run, m: nat, n: nat)
    requires m <= n
    ensures StoppedBetween(r, m, n + 1) <==> StoppedBetween(r, m, n) || StopsServer(r, n)
  {}

  /** What has become of the server a restart has created, by whether the controller has stopped it since. */
  ghost predicate NewServer(s: State, j: nat, stopped: bool) {
    && BringingUp(s, j)
    && (stopped ==> !s.plugin.Up() && s.plugin.server != Fresh)
    && (!stopped && s.loops[j] == InStart(StartServe) ==> s.plugin.server != Halted)
    && (!stopped && s.loops[j] == InStart(StartRegister) ==> s.plugin.Up())
  }

  lemma NewServerCreated(s: State, j: nat, ok: bool)
    requires Sound(s) && Enabled(s, LoopStep(j, ok)) && s.loops[j] == InStart(StartCreate)
    ensures NewServer(Step(s, LoopStep(j, ok)), j, false)
  {}

  lemma NewServerStep(s: State, l: Label, j: nat, stopped: bool)
    requires Sound(s) && Enabled(s, l) && NewServer(s, j, stopped) && BringingUp(Step(s, l), j)
    ensures NewServer(Step(s, l), j, stopped || (l.ControllerStep? && s.controller == Stopping(StopServer)))
  {
    LiveLoopActs(s, j);
    if !l.ControllerStep? && !l.LoopStep? && !l.TermEnds? {
      PluginFrame(s, l);
    }
    match l
    case ControllerStep(ok) =>
    case LoopStep(i, ok) => assert i == j;
    case _ =>
  }

  /** In this run health loop j, restarting, creates its server at step m and has not registered it before step n. */
  ghost predicate BroughtUp(devs: seq<Dev>, r: Run, j: nat, m: nat, n: nat) {
    && RunFrom(Initial(devs), r) && m < n < |r.states|
    && j < |r.states[m].loops| && r.states[m].loops[j] == InStart(StartCreate)
    && r.labels[m].LoopStep? && r.labels[m].j == j
    && forall i | m < i <= n :: BringingUp(r.states[i], j)
  }

  lemma NewServerNext(devs: seq<Dev>, r: Run, j: nat, n: nat, stopped: bool)
    requires RunFrom(Initial(devs), r) && n < |r.labels|
    requires NewServer(r.states[n], j, stopped) && BringingUp(r.states[n + 1], j)
    ensures NewServer(r.states[n + 1], j, stopped || StopsServer(r, n))
  {
    SoundKept(devs, r, n);
    NewServerStep(r.states[n], r.labels[n], j, stopped);
  }

  lemma {:induction false} NewServerAlongRun(devs: seq<Dev>, r: Run, j: nat, m: nat, n: nat)
    requires BroughtUp(devs, r, j, m, n)
    ensures NewServer(r.states[n], j, StoppedBetween(r, m + 1, n))
  {
    if n == m + 1 {
      SoundKept(devs, r, m);
      NewServerCreated(r.states[m], j, r.labels[m].ok);
    } else {
      NewServerAlongRun(devs, r, j, m, n - 1);
      StoppedNext(r, m + 1, n - 1);
      NewServerNext(devs, r, j, n - 1, StoppedBetween(r, m + 1, n - 1));
    }
  }

  /** When a restart, having created its server at step m, fails to register at step n, a server is left up exactly
      when the controller has not stopped the new one in between. */
  lemma FailedRestartServerUp(devs: seq<Dev>, r: Run, j: nat, m: nat, n: nat)
    requires BroughtUp(devs, r, j, m, n) && n < |r.labels|
    requires r.states[n].loops[j] == InStart(StartRegister) && r.labels[n] == LoopStep(j, false)
    ensures r.states[n + 1].plugin.Up() <==> !StoppedBetween(r, m + 1, n)
  {
    NewServerAlongRun(devs, r, j, m, n);
  }

  // ---------------------------------------------------------------- a server nobody takes down

  /** A server is up that the controller cannot stop any more. */
  predicate OutOfReach(s: State) {
    s.plugin.dropped > 0
    || (s.plugin.server.Serving?
         && (s.controller.Finished? || s.controller.Aborted? || s.controller == Stopping(StopClear)))
  }

  predicate NoLiveLoop(s: State) {
    forall j | 0 <= j < |s.loops| :: s.loops[j].Ended?
  }

  lemma {:induction false} OutOfReachStays(r: Run, n: nat)
    requires IsRun(r) && n < |r.states| && OutOfReach(r.states[0]) && NoLiveLoop(r.states[0])
    requires !r.states[0].controller.Starting?
    ensures OutOfReach(r.states[n]) && NoLiveLoop(r.states[n]) && !r.states[n].controller.Starting?
  {
    if n > 0 {
      OutOfReachStays(r, n - 1);
      var s, l := r.states[n - 1], r.labels[n - 1];
      if !l.ControllerStep? && !l.LoopStep? && !l.TermEnds? {
        PluginFrame(s, l);
      }
    }
  }

  lemma ControllerBegins(s: State) returns (r: Run)
    requires !s.panicked && s.controller.Waiting?
    ensures RunFrom(s, r) && Last(r) == s.(closed := true, controller := Stopping(StopGuard))
  {
    r := Here(s);
    if !s.closed {
      r := Extend(r, CloseStop);
    }
    r := Extend(r, ControllerStep(true));
  }

  /** The controller can still take the server down. */
  lemma ControllerTakesDown(s: State) returns (r: Run)
    requires !s.panicked && s.plugin.server.Serving? && s.plugin.dropped == 0
    requires s.controller.Waiting? || (s.controller.Stopping? && s.controller.stop != StopClear)
    ensures RunFrom(s, r) && !Last(r).plugin.Up()
  {
    r := Here(s);
    if s.controller.Waiting? {
      r := ControllerBegins(s);
    }
    assert Last(r).plugin == s.plugin;
    if Last(r).controller == Stopping(StopGuard) {
      r := Extend(r, ControllerStep(true));
    }
    if Last(r).controller == Stopping(StopPost) {
      r := EmptySlot(r);
      r := Extend(r, ControllerStep(true));
    }
    assert Last(r).controller == Stopping(StopServer) && Last(r).plugin.server.Serving? && Last(r).plugin.dropped == 0;
    r := Extend(r, ControllerStep(true));
  }

  /** Once no health loop is left, a server stays up in every continuation exactly when the controller cannot stop it
      any more: its own Start had failed, it is done, it is about to clear the field, or the field has lost it. */
  lemma OrphanServesIff(s: State)
    requires !s.panicked && !s.controller.Starting? && NoLiveLoop(s)
    ensures OutOfReach(s) <==> forall r | RunFrom(s, r) :: AlwaysUp(r)
  {
    if OutOfReach(s) {
      forall r | RunFrom(s, r) ensures AlwaysUp(r) {
        forall n | 0 <= n < |r.states| ensures r.states[n].plugin.Up() {
          OutOfReachStays(r, n);
        }
      }
    } else if s.plugin.Up() {
      var r := ControllerTakesDown(s);
      assert !AlwaysUp(r);
    } else {
      assert RunFrom(s, Here(s)) && !AlwaysUp(Here(s));
    }
  }

  // ---------------------------------------------------------------- staying down

  /** A restart that will find the field nil at the nil test of Start, or has found it so and not yet set it. */
  predicate MayRevive(l: Loop) {
    l == InStop(StopGuard) || l == InStop(StopClear) || (l.InStart? && BeforeCreate(l.start))
  }

  /** The controller is done, nothing is up, the field is nil, and no restart will set it again. */
  predicate SettledDown(s: State) {
    && s.controller.Finished? && s.plugin.server.Nil? && s.plugin.dropped == 0
    && forall j | 0 <= j < |s.loops| :: !MayRevive(s.loops[j])
  }

  lemma SettledStep(s: State, l: Label)
    requires SettledDown(s) && Enabled(s, l)
    ensures SettledDown(Step(s, l))
  {
    if !l.ControllerStep? && !l.LoopStep? && !l.TermEnds? {
      PluginFrame(s, l);
    }
    match l
    case LoopStep(j, ok) => assert !MayRevive(s.loops[j]);
    case _ =>
  }

  lemma {:induction false} SettledStays(r: Run, n: nat)
    requires IsRun(r) && n < |r.states| && SettledDown(r.states[0])
    ensures SettledDown(r.states[n])
  {
    if n > 0 {
      SettledStays(r, n - 1);
      SettledStep(r.states[n - 1], r.labels[n - 1]);
    }
  }

  /** Nothing but loop j and the plugin has changed; the slot and the lost servers are as before. */
  predicate OnlyBrought(s: State, t: State, j: nat, l: Loop, server: Server) {
    && j < |s.loops| && t.loops == s.loops[j := l] && t.controller == s.controller && t.closed == s.closed
    && t.streams == s.streams && !t.panicked && t.plugin == s.plugin.(server := server, private := t.plugin.private)
  }

  /** A restart that finds the field nil goes on to create a server. */
  lemma StartCreates(before: Run, j: nat) returns (r: Run)
    requires IsRun(before) && !Last(before).panicked && Last(before).plugin.server.Nil? && j < |Last(before).loops|
    requires Last(before).loops[j].InStart? && BeforeCreate(Last(before).loops[j].start)
    ensures IsRun(r) && Continues(before, r)
    ensures OnlyBrought(Last(before), Last(r), j, InStart(StartServe), Fresh)
  {
    var s, go := Last(before), LoopStep(j, true);
    r := before;
    if s.loops[j] == InStart(StartGuard) {
      r := Extend(r, go);
    }
    assert Last(r) == s.(loops := s.loops[j := Last(r).loops[j]]);
    if Last(r).loops[j] == InStart(StartListen) {
      r := Extend(r, go);
    }
    r := Extend(r, go);
  }

  /** And to serve. */
  lemma StartServes(before: Run, j: nat) returns (r: Run)
    requires IsRun(before) && !Last(before).panicked && j < |Last(before).loops| && Last(before).loops[j].InStart?
    requires var s := Last(before);
             if BeforeCreate(s.loops[j].start) then s.plugin.server.Nil?
             else s.loops[j].start == StartServe && s.plugin.server.Fresh?
    ensures IsRun(r) && Continues(before, r)
    ensures OnlyBrought(Last(before), Last(r), j, InStart(StartRegister), Serving)
  {
    r := before;
    if BeforeCreate(Last(r).loops[j].start) {
      r := StartCreates(r, j);
    }
    r := Extend(r, LoopStep(j, true));
  }

  /** A loop that can bring a server up, given what the field holds. */
  predicate Revives(server: Server, l: Loop) {
    match server
    case Nil => MayRevive(l)
    case Fresh => l == InStart(StartServe)
    case Halted => l == InStop(StopClear)
    case Serving => false
  }

  lemma ReviveRun(s: State, j: nat) returns (r: Run)
    requires !s.panicked && j < |s.loops| && Revives(s.plugin.server, s.loops[j])
    ensures RunFrom(s, r) && Last(r).plugin.Up() && Last(r).controller == s.controller && !Last(r).panicked
  {
    r := Here(s);
    if s.loops[j].InStop? {
      r := Extend(r, LoopStep(j, true));
    }
    r := StartServes(r, j);
  }

  /** Over all runs, once the controller's Stop has finished: nothing serves then or in any continuation exactly when
      no server is up, the field is nil, and no restart is on its way to setting it. */
  lemma StaysDownIff(devs: seq<Dev>, before: Run)
    requires RunFrom(Initial(devs), before) && Last(before).controller.Finished? && !Last(before).panicked
    ensures SettledDown(Last(before)) <==> forall r | RunFrom(Last(before), r) :: NeverUp(r)
  {
    var s := Last(before);
    SoundKept(devs, before, |before.states| - 1);
    if SettledDown(s) {
      forall r | RunFrom(s, r) ensures NeverUp(r) {
        forall n | 0 <= n < |r.states| ensures !r.states[n].plugin.Up() {
          SettledStays(r, n);
        }
      }
    } else if s.plugin.Up() {
      assert RunFrom(s, Here(s)) && !NeverUp(Here(s));
    } else {
      var j :| 0 <= j < |s.loops| && Revives(s.plugin.server, s.loops[j]);
      var r := ReviveRun(s, j);
      assert !NeverUp(r);
    }
  }

  // ---------------------------------------------------------------- a field cleared under somebody's feet

  predicate PastGuard(call: StopCall) {
    call != StopGuard
  }

  predicate InsideStop(s: State) {
    s.controller.Stopping? && PastGuard(s.controller.stop)
  }

  /** A loop between the nil test of restart's Stop and serving on its new server. */
  predicate Replacing(l: Loop) {
    (l.InStop? && PastGuard(l.stop)) || (l.InStart? && l.start != StartRegister)
  }

  /** The controller is inside Stop while a restart is replacing the server. */
  ghost predicate Overlap(s: State) {
    InsideStop(s) && exists j | 0 <= j < |s.loops| :: Replacing(s.loops[j])
  }

  /** The next access to the server through the field needs it set. */
  predicate NeedsStopped(call: StopCall) {
    call == StopPost || call == StopServer
  }

  predicate LoopNeeds(l: Loop) {
    (l.InStop? && NeedsStopped(l.stop)) || l == InStart(StartServe)
  }

  ghost predicate SomeoneNeeds(s: State) {
    || (s.controller.Stopping? && NeedsStopped(s.controller.stop)) || s.controller == Starting(StartServe)
    || exists j | 0 <= j < |s.loops| :: LoopNeeds(s.loops[j])
  }

  ghost predicate NoPanicInvariant(s: State) {
    Sound(s) && !s.panicked && (SomeoneNeeds(s) ==> s.plugin.server != Nil)
  }

  lemma ControllerNoPanic(s: State, ok: bool)
    requires NoPanicInvariant(s) && !Overlap(s) && Enabled(s, ControllerStep(ok))
    ensures var s' := ControllerNext(s, ok); !s'.panicked && (SomeoneNeeds(s') ==> s'.plugin.server != Nil)
  {
    var s' := ControllerNext(s, ok);
    assert forall j | 0 <= j < |s.loops| :: LoopNeeds(s.loops[j]) ==> Replacing(s.loops[j]);
    if j :| 0 <= j < |s'.loops| && LoopNeeds(s'.loops[j]) {
      assert j < |s.loops| && LoopNeeds(s.loops[j]);
    }
  }

  lemma LoopNoPanic(s: State, j: nat, ok: bool)
    requires NoPanicInvariant(s) && !Overlap(s) && Enabled(s, LoopStep(j, ok))
    ensures var s' := LoopNext(s, j, ok); !s'.panicked && (SomeoneNeeds(s') ==> s'.plugin.server != Nil)
  {
    var s' := LoopNext(s, j, ok);
    LiveLoopActs(s, j);
    assert Replacing(s.loops[j]) ==> !InsideStop(s);
    assert LoopNeeds(s.loops[j]) ==> SomeoneNeeds(s);
    if i :| 0 <= i < |s'.loops| && LoopNeeds(s'.loops[i]) {
      assert i == j;
    }
  }

  lemma NoPanicStep(s: State, l: Label)
    requires NoPanicInvariant(s) && !Overlap(s) && Enabled(s, l) && !l.ControllerStep? && !l.LoopStep?
    ensures !Step(s, l).panicked && (SomeoneNeeds(Step(s, l)) ==> Step(s, l).plugin.server != Nil)
  {
    var s' := Step(s, l);
    if j :| 0 <= j < |s'.loops| && LoopNeeds(s'.loops[j]) {
      assert LoopNeeds(s.loops[j]);
    }
  }

  /** As long as the controller has not been inside Stop while a restart was replacing the server, nobody uses a
      cleared field. */
  lemma {:induction false} NoOverlapNoPanic(devs: seq<Dev>, r: Run, n: nat)
    requires RunFrom(Initial(devs), r) && n < |r.states|
    requires forall i | 0 <= i < n :: !Overlap(r.states[i])
    ensures NoPanicInvariant(r.states[n])
  {
    if n > 0 {
      NoOverlapNoPanic(devs, r, n - 1);
      SoundKept(devs, r, n);
      match r.labels[n - 1]
      case ControllerStep(ok) => ControllerNoPanic(r.states[n - 1], ok);
      case LoopStep(j, ok) => LoopNoPanic(r.states[n - 1], j, ok);
      case _ => NoPanicStep(r.states[n - 1], r.labels[n - 1]);
    }
  }

  /** With the server serving, the controller waiting to post can post. */
  lemma ControllerPosts(before: Run) returns (r: Run)
    requires IsRun(before) && !Last(before).panicked && Last(before).plugin.server.Serving?
    requires Last(before).controller.Stopping? && NeedsStopped(Last(before).controller.stop)
    ensures IsRun(r) && Continues(before, r) && Last(r).plugin.server.Serving? && !Last(r).panicked
    ensures Last(r).controller == Stopping(StopServer) && Last(r).loops == Last(before).loops
  {
    r := before;
    if Last(r).controller == Stopping(StopPost) {
      r := EmptySlot(r);
      r := Extend(r, ControllerStep(true));
    }
  }

  /** And so can a restart, with whatever the field holds if a stream can drain the slot. */
  lemma LoopPosts(before: Run, j: nat) returns (r: Run)
    requires IsRun(before) && !Last(before).panicked && j < |Last(before).loops|
    requires Last(before).loops[j].InStop? && NeedsStopped(Last(before).loops[j].stop)
    requires Last(before).loops[j] == InStop(StopPost) && Last(before).plugin.token ==> CanDrain(Last(before))
    ensures IsRun(r) && Continues(before, r) && !Last(r).panicked && Last(r).plugin.server == Last(before).plugin.server
    ensures Last(r).controller == Last(before).controller
    ensures j < |Last(r).loops| && Last(r).loops[j] == InStop(StopServer)
  {
    r := before;
    if Last(r).loops[j] == InStop(StopPost) {
      r := EmptySlot(r);
      r := Extend(r, LoopStep(j, true));
    }
  }

  /** Both inside Stop with the server serving: one takes it down, the other finds the field nil. */
  lemma BothStop(before: Run, j: nat) returns (r: Run)
    requires IsRun(before) && !Last(before).panicked && Last(before).plugin.server.Serving?
    requires Last(before).controller.Stopping? && NeedsStopped(Last(before).controller.stop)
    requires j < |Last(before).loops| && Last(before).loops[j].InStop? && NeedsStopped(Last(before).loops[j].stop)
    ensures IsRun(r) && Continues(before, r) && Last(r).panicked
  {
    r := ControllerPosts(before);
    r := LoopPosts(r, j);
    r := Extend(r, LoopStep(j, true));
    r := Extend(r, LoopStep(j, true));
    r := Extend(r, ControllerStep(true));
  }

  /** The restart succeeds while the controller waits inside Stop; the loop it spawns reaches its own restart. */
  lemma NextRestart(before: Run, j: nat) returns (r: Run, j': nat)
    requires IsRun(before) && !Last(before).panicked && Last(before).plugin.server.Serving?
    requires j < |Last(before).loops| && Last(before).loops[j] == InStart(StartRegister)
    ensures IsRun(r) && Continues(before, r) && Last(r).plugin == Last(before).plugin && !Last(r).panicked
    ensures Last(r).controller == Last(before).controller
    ensures j' < |Last(r).loops| && Last(r).loops[j'] == InStop(StopPost)
  {
    j' := |Last(before).loops|;
    r := Extend(before, LoopStep(j, true));
    assert Last(r).loops[j'] == Setup;
    r := Extend(r, LoopStep(j', true));
    r := Extend(r, SocketRemoved(j'));
    r := Extend(r, LoopStep(j', true));
    r := Extend(r, LoopStep(j', true));
  }

  lemma NextRestartPanics(before: Run, j: nat) returns (r: Run)
    requires IsRun(before) && !Last(before).panicked && Last(before).plugin.server.Serving?
    requires Last(before).controller.Stopping? && NeedsStopped(Last(before).controller.stop)
    requires j < |Last(before).loops| && Last(before).loops[j] == InStart(StartRegister)
    ensures IsRun(r) && Continues(before, r) && Last(r).panicked
  {
    var j';
    r, j' := NextRestart(before, j);
    r := BothStop(r, j');
  }

  /** The controller waits to post or to stop. */
  lemma NeedingControllerPanics(before: Run, j: nat) returns (r: Run)
    requires IsRun(before) && NoPanicInvariant(Last(before)) && InsideStop(Last(before))
    requires NeedsStopped(Last(before).controller.stop)
    requires j < |Last(before).loops| && Replacing(Last(before).loops[j])
    ensures IsRun(r) && Continues(before, r) && Last(r).panicked
  {
    var s := Last(before);
    LiveLoopActs(s, j);
    assert SomeoneNeeds(s);
    if s.loops[j].InStop? && NeedsStopped(s.loops[j].stop) {
      r := BothStop(before, j);
    } else if s.loops[j] == InStop(StopClear) {
      r := Extend(before, LoopStep(j, true));
      r := StartServes(r, j);
      r := NextRestartPanics(r, j);
    } else {
      r := StartServes(before, j);
      r := NextRestartPanics(r, j);
    }
  }

  /** While the controller is about to clear the field, a restart reaches a statement that needs it set. */
  lemma RestartNeeds(before: Run, j: nat) returns (r: Run)
    requires IsRun(before) && NoPanicInvariant(Last(before)) && Last(before).controller == Stopping(StopClear)
    requires j < |Last(before).loops| && Replacing(Last(before).loops[j])
    requires Last(before).loops[j] == InStop(StopPost) && Last(before).plugin.token ==> CanDrain(Last(before))
    ensures IsRun(r) && Continues(before, r) && !Last(r).panicked && Last(r).controller == Stopping(StopClear)
    ensures j < |Last(r).loops| && Last(r).loops[j] in [InStop(StopServer), InStart(StartServe)]
  {
    var l := Last(before).loops[j];
    r := before;
    if l.InStop? && NeedsStopped(l.stop) {
      r := LoopPosts(r, j);
    } else if l == InStop(StopClear) {
      r := Extend(r, LoopStep(j, true));
      r := StartCreates(r, j);
    } else if BeforeCreate(l.start) {
      r := StartCreates(r, j);
    }
  }

  /** The controller is about to clear the field. */
  lemma ClearingControllerPanics(before: Run, j: nat) returns (r: Run)
    requires IsRun(before) && NoPanicInvariant(Last(before)) && Last(before).controller == Stopping(StopClear)
    requires j < |Last(before).loops| && Replacing(Last(before).loops[j])
    requires Last(before).loops[j] == InStop(StopPost) && Last(before).plugin.token ==> CanDrain(Last(before))
    ensures IsRun(r) && Continues(before, r) && Last(r).panicked
  {
    r := RestartNeeds(before, j);
    r := Extend(r, ControllerStep(true));
    r := Extend(r, LoopStep(j, true));
  }

  /** The restart waits to post on a full slot that nothing can empty, and the controller has stopped the server. */
  predicate Stuck(s: State) {
    && s.controller == Stopping(StopClear) && s.plugin.token && !CanDrain(s)
    && exists j | 0 <= j < |s.loops| :: s.loops[j] == InStop(StopPost)
  }

  ghost predicate StuckAt(s: State, j: nat) {
    && !s.panicked && (s.controller == Stopping(StopClear) || s.controller.Finished?) && s.plugin.token && !CanDrain(s)
    && j < |s.loops| && s.loops[j] == InStop(StopPost) && forall i | 0 <= i < |s.loops| && i != j :: s.loops[i].Ended?
  }

  lemma StuckStep(s: State, j: nat, l: Label)
    requires StuckAt(s, j) && Enabled(s, l)
    ensures StuckAt(Step(s, l), j)
  {
    if !l.ControllerStep? && !l.LoopStep? && !l.TermEnds? {
      PluginFrame(s, l);
    }
    if !IsStreamLabel(l) {
      StreamsFrame(s, l);
    }
    assert forall i | 0 <= i < |s.streams| ::
             !s.streams[i].Watching? && !s.streams[i].Updating? && !s.streams[i].Listing? by {
      assert forall i | 0 <= i < |s.streams| :: !IsLive(s.streams[i]);
    }
    match l
    case _ =>
  }

  lemma {:induction false} StuckStays(r: Run, j: nat, m: nat, n: nat)
    requires IsRun(r) && m <= n < |r.states| && StuckAt(r.states[m], j)
    ensures StuckAt(r.states[n], j)
  {
    if m < n {
      StuckStays(r, j, m, n - 1);
      StuckStep(r.states[n - 1], j, r.labels[n - 1]);
    }
  }

  /** The first time the controller is inside Stop while a restart is replacing the server, the run can go on to a
      panic, except in the one case where the restart is stuck for ever at its send. */
  lemma OverlapPanicsIff(devs: seq<Dev>, before: Run)
    requires RunFrom(Initial(devs), before) && Overlap(Last(before))
    requires forall i | 0 <= i < |before.states| - 1 :: !Overlap(before.states[i])
    ensures (exists r :: IsRun(r) && Continues(before, r) && Last(r).panicked) <==> !Stuck(Last(before))
  {
    var s, n := Last(before), |before.states| - 1;
    NoOverlapNoPanic(devs, before, n);
    if Stuck(s) {
      var j :| 0 <= j < |s.loops| && s.loops[j] == InStop(StopPost);
      OthersEnded(s, j);
      forall r | IsRun(r) && Continues(before, r) ensures !Last(r).panicked {
        assert r.states[n] == s;
        StuckStays(r, j, n, |r.states| - 1);
      }
    } else {
      var j :| 0 <= j < |s.loops| && Replacing(s.loops[j]);
      var r;
      if s.controller == Stopping(StopClear) {
        r := ClearingControllerPanics(before, j);
      } else {
        r := NeedingControllerPanics(before, j);
      }
    }
  }
}
