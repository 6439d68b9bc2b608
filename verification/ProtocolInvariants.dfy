/** What every run of the plugin protocol keeps. */
module ProtocolInvariants {
  import opened Protocol
  import opened Sequences

  // ---------------------------------------------------------------- one health loop

  function Live(): Loop -> nat {
    (l: Loop) => if l.Ended? then 0 else 1
  }

  /** Who may still run, or start, a health loop: the controller until its Start returns, and every loop not ended. */
  function Roles(s: State): nat {
    (if s.controller.Starting? then 1 else 0) + Sum(Live(), s.loops)
  }

  lemma SumUpdate<T>(f: T -> nat, s: seq<T>, j: nat, x: T)
    requires j < |s|
    ensures Sum(f, s[j := x]) + f(s[j]) == Sum(f, s) + f(x)
  {
    assert s == s[..j] + [s[j]] + s[j + 1..];
    assert s[j := x] == s[..j] + [x] + s[j + 1..];
    SumWithout(f, s[..j], s[j], s[j + 1..]);
    SumWithout(f, s[..j], x, s[j + 1..]);
  }

  lemma ControllerRoles(s: State, ok: bool)
    requires Enabled(s, ControllerStep(ok))
    ensures Roles(ControllerNext(s, ok)) <= Roles(s)
  {
    SumConcat(Live(), s.loops, [Setup]);
    assert Sum(Live(), [Setup]) == Live()(Setup) + Sum(Live(), []);
  }

  lemma LoopRoles(s: State, j: nat, ok: bool)
    requires Enabled(s, LoopStep(j, ok))
    ensures Sum(Live(), LoopNext(s, j, ok).loops) <= Sum(Live(), s.loops)
    ensures LoopNext(s, j, ok).controller == s.controller
  {
    var next := LoopNext(s, j, ok).loops[j];
    if s.loops[j] == InStart(StartRegister) && ok {
      var spawned := s.loops + [Setup];
      assert LoopNext(s, j, ok).loops == spawned[j := Ended];
      SumConcat(Live(), s.loops, [Setup]);
      SumUpdate(Live(), spawned, j, Ended);
    } else {
      assert LoopNext(s, j, ok).loops == s.loops[j := next];
      SumUpdate(Live(), s.loops, j, next);
    }
  }

  /** No step adds a role: a Start that succeeds hands its caller's role to the loop it spawns. */
  lemma RolesNeverGrow(s: State, l: Label)
    requires Enabled(s, l)
    ensures Roles(Step(s, l)) <= Roles(s)
  {
    match l
    case ControllerStep(ok) => ControllerRoles(s, ok);
    case LoopStep(j, ok) => LoopRoles(s, j, ok);
    case DeviceEvent(j, v) => SumUpdate(Live(), s.loops, j, Sending(v));
    case OtherEvent(j) => SumUpdate(Live(), s.loops, j, Select(s.plugin.private));
    case SocketRemoved(j) => SumUpdate(Live(), s.loops, j, RestartGuard);
    case LoopStopped(j) => SumUpdate(Live(), s.loops, j, Ended);
    case Receive(i, j) => SumUpdate(Live(), s.loops, j, Select(s.plugin.private));
    case _ =>
  }

  lemma {:induction false} RolesAlongRun(r: Run, n: nat)
    requires IsRun(r) && n < |r.states|
    ensures Roles(r.states[n]) <= Roles(r.states[0])
  {
    if n > 0 {
      RolesAlongRun(r, n - 1);
      RolesNeverGrow(r.states[n - 1], r.labels[n - 1]);
    }
  }

  lemma {:induction false} SumAtLeast(loops: seq<Loop>, i: nat)
    requires i < |loops| && !loops[i].Ended?
    ensures Sum(Live(), loops) >= 1
  {
    if i > 0 {
      SumAtLeast(loops[1..], i - 1);
    }
  }

  lemma {:induction false} AtMostOneLive(loops: seq<Loop>, i: nat, j: nat)
    requires Sum(Live(), loops) <= 1 && i < |loops| && j < |loops| && !loops[i].Ended? && !loops[j].Ended?
    ensures i == j
  {
    if i == 0 && j > 0 {
      SumAtLeast(loops[1..], j - 1);
    } else if j == 0 && i > 0 {
      SumAtLeast(loops[1..], i - 1);
    } else if i > 0 {
      AtMostOneLive(loops[1..], i - 1, j - 1);
    }
  }

  /** Over every run, with any number of restarts, at most one health loop has not ended. */
  lemma OneHealthLoop(devs: seq<Dev>, r: Run, n: nat, i: nat, j: nat)
    requires RunFrom(Initial(devs), r) && n < |r.states|
    ensures var s := r.states[n];
            && (i < |s.loops| && j < |s.loops| && !s.loops[i].Ended? && !s.loops[j].Ended? ==> i == j)
            && (s.controller.Starting? && i < |s.loops| ==> s.loops[i].Ended?)
  {
    var s := r.states[n];
    RolesAlongRun(r, n);
    if i < |s.loops| && !s.loops[i].Ended? {
      SumAtLeast(s.loops, i);
      if j < |s.loops| && !s.loops[j].Ended? {
        AtMostOneLive(s.loops, i, j);
      }
    }
  }

  /** A restart that succeeds ends the loop that ran it and leaves the loop it spawned as the only one. */
  lemma RestartPassesRole(s: State, j: nat)
    requires Enabled(s, LoopStep(j, true)) && s.loops[j] == InStart(StartRegister) && Roles(s) <= 1
    ensures var s' := Step(s, LoopStep(j, true));
            && |s'.loops| == |s.loops| + 1 && s'.loops[|s.loops|] == Setup && Roles(s') == 1
            && forall i | 0 <= i < |s.loops| :: s'.loops[i].Ended?
  {
    var s' := Step(s, LoopStep(j, true));
    RolesNeverGrow(s, LoopStep(j, true));
    forall i | 0 <= i < |s.loops| ensures s'.loops[i].Ended? {
      if !s'.loops[i].Ended? {
        AtMostOneLive(s'.loops, i, |s.loops|);
      }
    }
    SumAtLeast(s'.loops, |s.loops|);
  }

  lemma {:induction false} NoRolesAllEnded(loops: seq<Loop>, i: nat)
    requires Sum(Live(), loops) == 0 && i < |loops|
    ensures loops[i].Ended?
  {
    if !loops[i].Ended? {
      SumAtLeast(loops, i);
    }
  }

  // ---------------------------------------------------------------- tokens on term

  function Drained(): Stream -> nat {
    (x: Stream) => if x.EndedByTerm? then 1 else 0
  }

  predicate TokensConserved(s: State) {
    s.plugin.posts == Sum(Drained(), s.streams) + if s.plugin.token then 1 else 0
  }

  lemma StopKeepsBalance(p: Plugin, call: StopCall)
    requires call == StopPost ==> !p.token
    ensures var p' := StopStep(p, call).0;
            && p'.posts - (if p'.token then 1 else 0) == p.posts - (if p.token then 1 else 0)
            && (call != StopPost ==> p'.posts == p.posts && p'.token == p.token)
  {}

  predicate IsStreamLabel(l: Label) {
    l.OpenStream? || l.Receive? || l.Update? || l.Read? || l.Send? || l.TermEnds? || l.StopEnds?
  }

  /** Only the controller, a health loop's own statements and the draining of the slot change the plugin. */
  lemma PluginFrame(s: State, l: Label)
    requires Enabled(s, l) && !l.ControllerStep? && !l.LoopStep? && !l.TermEnds?
    ensures Step(s, l).plugin == s.plugin
  {
    match l
    case _ =>
  }

  lemma StreamsFrame(s: State, l: Label)
    requires Enabled(s, l) && !IsStreamLabel(l)
    ensures Step(s, l).streams == s.streams
  {
    match l
    case ControllerStep(ok) =>
    case LoopStep(j, ok) =>
    case _ =>
  }

  /** Only a stream ended by `term` is counted as drained, and it empties the slot. */
  lemma StreamsDrain(s: State, l: Label)
    requires Enabled(s, l) && IsStreamLabel(l)
    ensures Sum(Drained(), Step(s, l).streams) == Sum(Drained(), s.streams) + if l.TermEnds? then 1 else 0
    ensures l.TermEnds? ==> s.plugin.token && Step(s, l).plugin == s.plugin.(token := false)
  {
    match l
    case OpenStream =>
      SumConcat(Drained(), s.streams, [Opened(s.health)]);
      assert Sum(Drained(), [Opened(s.health)]) == Drained()(Opened(s.health)) + Sum(Drained(), []);
    case Receive(i, j) => SumUpdate(Drained(), s.streams, i, Updating(s.loops[j].v));
    case Update(i) => SumUpdate(Drained(), s.streams, i, Step(s, l).streams[i]);
    case Read(i) => SumUpdate(Drained(), s.streams, i, ReadOn(s.streams[i], s.health));
    case Send(i) => SumUpdate(Drained(), s.streams, i, Watching(s.plugin.private));
    case TermEnds(i) => SumUpdate(Drained(), s.streams, i, EndedByTerm);
    case StopEnds(i) => SumUpdate(Drained(), s.streams, i, EndedByStop);
  }

  lemma TokensStep(s: State, l: Label)
    requires TokensConserved(s) && Enabled(s, l)
    ensures TokensConserved(Step(s, l))
  {
    if IsStreamLabel(l) {
      StreamsDrain(s, l);
    } else {
      StreamsFrame(s, l);
    }
    if l.ControllerStep? {
      if s.controller.Stopping? {
        StopKeepsBalance(s.plugin, s.controller.stop);
      }
    } else if l.LoopStep? {
      if s.loops[l.j].InStop? {
        StopKeepsBalance(s.plugin, s.loops[l.j].stop);
      }
    } else if !l.TermEnds? {
      PluginFrame(s, l);
    }
  }

  /** Posts by Stop equal streams ended by `term` plus the token in its slot: at most one Stop is ahead. */
  lemma {:induction false} TermTokens(devs: seq<Dev>, r: Run, n: nat)
    requires RunFrom(Initial(devs), r) && n < |r.states|
    ensures TokensConserved(r.states[n])
  {
    if n > 0 {
      TermTokens(devs, r, n - 1);
      TokensStep(r.states[n - 1], r.labels[n - 1]);
    }
  }

  // ---------------------------------------------------------------- what the server field holds

  predicate BeforeCreate(call: StartCall) {
    call == StartGuard || call == StartListen || call == StartCreate
  }

  /** Until the controller's own Start has succeeded there is no health loop, and its progress fixes the field. */
  predicate ControllerSound(s: State) {
    && (s.controller.Starting? || s.controller.Aborted? ==> s.loops == [])
    && (s.controller.Starting? && BeforeCreate(s.controller.start) ==> s.plugin.server.Nil?)
    && (s.controller == Starting(StartServe) ==> s.plugin.server.Fresh?)
    && (s.controller == Starting(StartRegister) ==> s.plugin.server.Serving?)
    && (s.plugin.dropped > 0 ==> s.controller.Finished?)
  }

  predicate LoopSound(s: State, l: Loop) {
    && (l.InStart? && BeforeCreate(l.start) ==> s.plugin.server.Nil?)
    && (l == InStart(StartServe) || l == InStop(StopClear) ==> !s.plugin.server.Serving?)
  }

  /** Who is about to clear the field. */
  predicate SomeoneClears(s: State) {
    s.controller == Stopping(StopClear) || InStop(StopClear) in s.loops
  }

  /** Who is about to serve. */
  predicate SomeoneServes(s: State) {
    s.controller == Starting(StartServe) || InStart(StartServe) in s.loops
  }

  ghost predicate Sound(s: State) {
    && Roles(s) <= 1 && ControllerSound(s)
    && (forall j | 0 <= j < |s.loops| :: LoopSound(s, s.loops[j]))
    && (s.plugin.server.Halted? ==> SomeoneClears(s))
    && (s.plugin.server.Fresh? ==> SomeoneServes(s))
  }

  /** A step of a live loop is the only one a loop can take; every other loop has ended. */
  lemma OthersEnded(s: State, j: nat)
    requires Roles(s) <= 1 && j < |s.loops| && !s.loops[j].Ended?
    ensures !s.controller.Starting? && forall i | 0 <= i < |s.loops| && i != j :: s.loops[i].Ended?
  {
    SumAtLeast(s.loops, j);
    forall i | 0 <= i < |s.loops| && i != j ensures s.loops[i].Ended? {
      if !s.loops[i].Ended? {
        AtMostOneLive(s.loops, i, j);
      }
    }
  }

  /** Where every loop but one has ended or is setting up, soundness is a matter of that one. */
  lemma OneLoopSound(s: State, j: nat)
    requires Roles(s) <= 1 && ControllerSound(s) && j < |s.loops| && LoopSound(s, s.loops[j])
    requires forall i | 0 <= i < |s.loops| && i != j :: s.loops[i].Ended? || s.loops[i].Setup?
    requires s.plugin.server.Halted? ==> s.controller == Stopping(StopClear) || s.loops[j] == InStop(StopClear)
    requires s.plugin.server.Fresh? ==> s.loops[j] == InStart(StartServe)
    ensures Sound(s)
  {
    assert s.loops[j] in s.loops;
  }

  /** Who acts on the field, other than the controller, is the live loop. */
  lemma LiveLoopActs(s: State, j: nat)
    requires Sound(s) && j < |s.loops| && !s.loops[j].Ended?
    ensures s.plugin.server.Halted? ==> s.controller == Stopping(StopClear) || s.loops[j] == InStop(StopClear)
    ensures s.plugin.server.Fresh? ==> s.loops[j] == InStart(StartServe)
    ensures !s.controller.Starting? && forall i | 0 <= i < |s.loops| && i != j :: s.loops[i].Ended?
  {
    OthersEnded(s, j);
    forall l | l in s.loops ensures l == s.loops[j] || l.Ended? {}
  }

  lemma SoundInStop(s: State, j: nat, ok: bool)
    requires Sound(s) && Enabled(s, LoopStep(j, ok)) && s.loops[j].InStop?
    ensures ControllerSound(LoopNext(s, j, ok)) && LoopSound(LoopNext(s, j, ok), LoopNext(s, j, ok).loops[j])
    ensures LoopNext(s, j, ok).plugin.server.Halted? ==>
              s.controller == Stopping(StopClear) || LoopNext(s, j, ok).loops[j] == InStop(StopClear)
    ensures !LoopNext(s, j, ok).plugin.server.Fresh?
  {
    LiveLoopActs(s, j);
  }

  lemma SoundInStart(s: State, j: nat, ok: bool)
    requires Sound(s) && Enabled(s, LoopStep(j, ok)) && s.loops[j].InStart?
    ensures ControllerSound(LoopNext(s, j, ok)) && LoopSound(LoopNext(s, j, ok), LoopNext(s, j, ok).loops[j])
    ensures LoopNext(s, j, ok).plugin.server.Halted? ==> s.controller == Stopping(StopClear)
    ensures LoopNext(s, j, ok).plugin.server.Fresh? ==> LoopNext(s, j, ok).loops[j] == InStart(StartServe)
  {
    LiveLoopActs(s, j);
  }

  lemma SoundLoopStep(s: State, j: nat, ok: bool)
    requires Sound(s) && Enabled(s, LoopStep(j, ok))
    ensures Sound(LoopNext(s, j, ok))
  {
    LiveLoopActs(s, j);
    RolesNeverGrow(s, LoopStep(j, ok));
    if s.loops[j].InStop? {
      SoundInStop(s, j, ok);
    } else if s.loops[j].InStart? {
      SoundInStart(s, j, ok);
    }
    OneLoopSound(LoopNext(s, j, ok), j);
  }

  lemma SoundControllerStep(s: State, ok: bool)
    requires Sound(s) && Enabled(s, ControllerStep(ok))
    ensures Sound(Step(s, ControllerStep(ok)))
  {
    var s' := Step(s, ControllerStep(ok));
    RolesNeverGrow(s, ControllerStep(ok));
    assert forall l | l in s.loops :: l in s'.loops;
  }

  /** The field, and where the controller stands, are as before. */
  predicate SameField(s: State, t: State) {
    t.controller == s.controller && t.plugin.server == s.plugin.server && t.plugin.dropped == s.plugin.dropped
  }

  predicate OutsideCalls(l: Loop) {
    !l.InStop? && !l.InStart?
  }

  /** A loop that moves on outside Start and Stop bears on none of it. */
  lemma SoundLoopMoves(s: State, t: State, j: nat, l: Loop)
    requires Sound(s) && SameField(s, t) && Roles(t) <= 1
    requires j < |s.loops| && t.loops == s.loops[j := l] && OutsideCalls(s.loops[j]) && OutsideCalls(l)
    ensures Sound(t)
  {
    forall i | 0 <= i < |s.loops| && !OutsideCalls(s.loops[i]) ensures s.loops[i] in t.loops {
      assert t.loops[i] == s.loops[i];
    }
  }

  lemma LoopMoves(s: State, l: Label)
    requires Enabled(s, l) && (l.DeviceEvent? || l.OtherEvent? || l.SocketRemoved? || l.LoopStopped? || l.Receive?)
    ensures var t := Step(s, l);
            && SameField(s, t) && l.j < |s.loops| && OutsideCalls(s.loops[l.j])
            && |t.loops| == |s.loops| && OutsideCalls(t.loops[l.j]) && t.loops == s.loops[l.j := t.loops[l.j]]
  {}

  /** Steps of a loop outside Start and Stop, and of streams, leave the field and who acts on it alone. */
  lemma SoundOtherStep(s: State, l: Label)
    requires Sound(s) && Enabled(s, l) && !l.ControllerStep? && !l.LoopStep?
    ensures Sound(Step(s, l))
  {
    var t := Step(s, l);
    RolesNeverGrow(s, l);
    if l.DeviceEvent? || l.OtherEvent? || l.SocketRemoved? || l.LoopStopped? || l.Receive? {
      LoopMoves(s, l);
      SoundLoopMoves(s, t, l.j, t.loops[l.j]);
    } else {
      assert SameField(s, t) && t.loops == s.loops;
    }
  }

  lemma {:induction false} SoundKept(devs: seq<Dev>, r: Run, n: nat)
    requires RunFrom(Initial(devs), r) && n < |r.states|
    ensures Sound(r.states[n])
  {
    if n > 0 {
      SoundKept(devs, r, n - 1);
      match r.labels[n - 1]
      case ControllerStep(ok) => SoundControllerStep(r.states[n - 1], ok);
      case LoopStep(j, ok) => SoundLoopStep(r.states[n - 1], j, ok);
      case _ => SoundOtherStep(r.states[n - 1], r.labels[n - 1]);
    }
  }
}
