/** How health loops and streams come to an end, and that nothing else ends them. */
module ProtocolSurvival {
  import opened Protocol
  import opened ProtocolInvariants

  // ---------------------------------------------------------------- health loops

  /** The step ends health loop j: it waits on the controller's stop channel and that is closed, its set-up fails, or
      its restart ends here, for want of a server to replace, for a server that is there already, or in Start. */
  predicate Concludes(s: State, l: Label, j: nat) {
    && j < |s.loops|
    && match l
       case LoopStopped(i) => i == j && s.loops[j] == Select(false) && s.closed
       case LoopStep(i, ok) =>
         && i == j
         && (|| (s.loops[j] == Setup && !ok)
             || (s.loops[j] == RestartGuard && s.plugin.server == Nil)
             || (s.loops[j] == InStart(StartGuard) && s.plugin.server != Nil)
             || (s.loops[j] == InStart(StartListen) && !ok)
             || s.loops[j] == InStart(StartRegister))
       case _ => false
  }

  /** A live loop ends in a step exactly when the step is one of these. */
  lemma LoopEndsIff(s: State, l: Label, j: nat)
    requires Enabled(s, l) && j < |s.loops| && s.loops[j] != Ended
    ensures j < |Step(s, l).loops| && (Step(s, l).loops[j] == Ended <==> Concludes(s, l, j))
  {
    match l
    case ControllerStep(ok) =>
    case LoopStep(i, ok) =>
    case _ =>
  }

  lemma EndedForGood(s: State, l: Label, j: nat)
    requires Enabled(s, l) && j < |s.loops| && s.loops[j] == Ended
    ensures j < |Step(s, l).loops| && Step(s, l).loops[j] == Ended
  {
    match l
    case ControllerStep(ok) =>
    case LoopStep(i, ok) =>
    case _ =>
  }

  predicate ConcludesAt(r: Run, j: nat, i: nat) {
    i < |r.labels| && i < |r.states| && Concludes(r.states[i], r.labels[i], j)
  }

  ghost predicate ConcludesBetween(r: Run, j: nat, m: nat, n: nat) {
    exists i | m <= i < n :: ConcludesAt(r, j, i)
  }

  lemma ConcludesNext(r: Run, j: nat, m: nat, n: nat)
    requires m <= n
    ensures ConcludesBetween(r, j, m, n + 1) <==> ConcludesBetween(r, j, m, n) || ConcludesAt(r, j, n)
  {}

  predicate LiveAt(r: Run, j: nat, n: nat) {
    n < |r.states| && j < |r.states[n].loops| && r.states[n].loops[j] != Ended
  }

  lemma LiveNext(r: Run, j: nat, n: nat)
    requires IsRun(r) && n < |r.labels| && j < |r.states[n].loops|
    ensures j < |r.states[n + 1].loops| && (LiveAt(r, j, n + 1) <==> LiveAt(r, j, n) && !ConcludesAt(r, j, n))
  {
    if r.states[n].loops[j] == Ended {
      EndedForGood(r.states[n], r.labels[n], j);
    } else {
      LoopEndsIff(r.states[n], r.labels[n], j);
    }
  }

  /** Along any run, a loop that is live at one point is live at a later one exactly when no such step has come in
      between. */
  lemma {:induction false} LoopSurvivesIff(r: Run, j: nat, m: nat, n: nat)
    requires IsRun(r) && m <= n < |r.states| && LiveAt(r, j, m)
    ensures j < |r.states[n].loops| && (LiveAt(r, j, n) <==> !ConcludesBetween(r, j, m, n))
  {
    if m < n {
      LoopSurvivesIff(r, j, m, n - 1);
      LiveNext(r, j, n - 1);
      ConcludesNext(r, j, m, n - 1);
    }
  }

  /** Over every run, while none has come, exactly one role is left, and the loop holds it. */
  lemma LoopKeepsRole(devs: seq<Dev>, r: Run, j: nat, m: nat, n: nat)
    requires RunFrom(Initial(devs), r) && m <= n < |r.states| && LiveAt(r, j, m) && !ConcludesBetween(r, j, m, n)
    ensures LiveAt(r, j, n) && Roles(r.states[n]) == 1
  {
    LoopSurvivesIff(r, j, m, n);
    RolesAlongRun(r, n);
    SumAtLeast(r.states[n].loops, j);
  }

  // ---------------------------------------------------------------- the event loop

  predicate InEventLoop(l: Loop) {
    l.Select? || l.Sending?
  }

  /** What a step does to a loop in its event loop, unless the loop finds its socket removed or its stop channel closed:
      a device event has it send that verdict, a receipt or an event that concerns it in no way takes it back to its
      select, and anything else leaves it alone. */
  lemma EventLoopStep(s: State, l: Label, j: nat)
    requires Enabled(s, l) && j < |s.loops| && InEventLoop(s.loops[j]) && l != SocketRemoved(j) && l != LoopStopped(j)
    ensures var after := Step(s, l).loops;
            && j < |after|
            && (l.DeviceEvent? && l.j == j ==> after[j] == Sending(l.v))
            && ((l.OtherEvent? || l.Receive?) && l.j == j ==> after[j] == Select(s.plugin.private))
            && (!((l.DeviceEvent? || l.OtherEvent? || l.Receive?) && l.j == j) ==> after[j] == s.loops[j])
  {
    match l
    case ControllerStep(ok) =>
    case LoopStep(i, ok) =>
    case _ =>
  }

  /** Over every run, a loop leaves its event loop for no other reason. */
  lemma {:induction false} EventLoopStays(r: Run, j: nat, m: nat, n: nat)
    requires IsRun(r) && m <= n < |r.states| && j < |r.states[m].loops| && InEventLoop(r.states[m].loops[j])
    requires forall i | m <= i < n :: r.labels[i] != SocketRemoved(j) && r.labels[i] != LoopStopped(j)
    ensures j < |r.states[n].loops| && InEventLoop(r.states[n].loops[j])
  {
    if m < n {
      EventLoopStays(r, j, m, n - 1);
      EventLoopStep(r.states[n - 1], r.labels[n - 1], j);
    }
  }

  // ---------------------------------------------------------------- streams

  /** A live stream ends in a step exactly when, at its select, it takes the token of `term`, or waits on the
      controller's stop channel and that is closed. */
  lemma StreamEndsIff(s: State, l: Label, i: nat)
    requires Enabled(s, l) && i < |s.streams| && IsLive(s.streams[i])
    ensures i < |Step(s, l).streams|
    ensures !IsLive(Step(s, l).streams[i]) <==>
            || (l == TermEnds(i) && s.streams[i].Watching? && s.plugin.token)
            || (l == StopEnds(i) && s.streams[i] == Watching(false) && s.closed)
  {
    match l
    case ControllerStep(ok) =>
    case LoopStep(j, ok) =>
    case _ =>
  }

  /** Closing the controller's stop channel does let go whoever waits on it. */
  lemma ClosingEnds(s: State, j: nat, i: nat) returns (r: Run)
    requires !s.panicked && j < |s.loops| && s.loops[j] == Select(false) && i < |s.streams|
             && s.streams[i] == Watching(false)
    ensures RunFrom(s, r) && Last(r).loops == s.loops[j := Ended] && Last(r).streams == s.streams[i := EndedByStop]
  {
    r := Here(s);
    if !s.closed {
      r := Extend(r, CloseStop);
    }
    r := Extend(r, LoopStopped(j));
    r := Extend(r, StopEnds(i));
  }
}
