/** The concurrent protocol around one device plugin, as a labelled transition system: the controller that starts and
    stops it, the health-check goroutines (each restart spawns the next), the ListAndWatch streams, the two rendezvous
    channels, the one-slot channel `term`, and the stop channel that a restart replaces with a private one.
    Calls of Start, Stop and restart interleave: a step is one access of one goroutine to what they share. */
module Protocol {
  import opened Text

  datatype Dev = Dev(id: string, healthy: bool)

  datatype Verdict = Verdict(id: string, healthy: bool)

  /** The next statement inside Start: the nil test, listening under the given stop channel, the assignment of the
      new server, serving on the socket, and the registration followed by spawning the health check. */
  datatype StartCall = StartGuard | StartListen | StartCreate | StartServe | StartRegister

  /** The next statement inside Stop: the nil test, the send on `term`, stopping the server the field then names, and
      clearing the field. */
  datatype StopCall = StopGuard | StopPost | StopServer | StopClear

  datatype Controller = Starting(start: StartCall) | Waiting | Stopping(stop: StopCall) | Finished | Aborted

  /** A health-check goroutine. Select remembers whether the stop channel it waits on is a private one;
      RestartGuard, InStop and InStart are the stages of restart. */
  datatype Loop =
    | Setup | Select(private: bool) | Sending(v: Verdict)
    | RestartGuard | InStop(stop: StopCall) | InStart(start: StartCall) | Ended

  /** A device as a stream reads it while sending the list, and how many verdicts had been applied by then. */
  datatype Reading = Reading(dev: Dev, at: nat)

  /** A ListAndWatch stream: waiting in its select, holding a verdict it has received, or sending the list device by
      device, either on opening or after applying a verdict of its own as the since-th of all. */
  datatype Stream =
    | Watching(private: bool) | Updating(v: Verdict) | Listing(own: Option<Verdict>, since: nat, read: seq<Reading>)
    | EndedByTerm | EndedByStop

  /** A list sent after a verdict: which one, the how-many-eth applied, and what was read. */
  datatype Sent = Sent(v: Verdict, since: nat, list: seq<Reading>)

  /** What the server field names: nothing, or a server that is yet to serve, is serving, or has been stopped. */
  datatype Server = Nil | Fresh | Serving | Halted

  /** What Start and Stop touch: the server field, the servers still serving that the field no longer names, the slot
      of `term`, whether the stop channel is a private one, and how many times Stop has posted on `term`. */
  datatype Plugin = Plugin(server: Server, dropped: nat, token: bool, private: bool, posts: nat) {
    /** Some server is serving. */
    predicate Up() {
      server.Serving? || dropped > 0
    }

    /** The field set to nil. */
    function Cleared(): Plugin {
      Plugin(Nil, dropped + if server.Serving? then 1 else 0, token, private, posts)
    }
  }

  /** The device list, and what has happened to it: verdicts of consumed events, verdicts received by a stream,
      verdicts applied to the list, and the lists sent after a verdict, in order of sending. */
  datatype Health = Health(
    devs: seq<Dev>, consumed: seq<Verdict>, delivered: seq<Verdict>, applied: seq<Verdict>, updates: seq<Sent>)

  datatype State = State(
    plugin: Plugin, closed: bool, panicked: bool,
    controller: Controller, loops: seq<Loop>, streams: seq<Stream>, health: Health)

  /** `ok` is the environment's answer where a statement can fail. */
  datatype Label =
    | ControllerStep(ok: bool)
    | LoopStep(j: nat, ok: bool)
    | DeviceEvent(j: nat, v: Verdict)
    | OtherEvent(j: nat)
    | SocketRemoved(j: nat)
    | LoopStopped(j: nat)
    | CloseStop
    | OpenStream
    | Receive(i: nat, j: nat)
    | Update(i: nat)
    | Read(i: nat)
    | Send(i: nat)
    | TermEnds(i: nat)
    | StopEnds(i: nat)

  predicate IsLive(x: Stream) {
    x.Watching? || x.Updating? || x.Listing?
  }

  // ---------------------------------------------------------------- device health

  function Apply(devs: seq<Dev>, v: Verdict): (r: seq<Dev>)
    ensures |r| == |devs|
  {
    if devs == [] then []
    else [if devs[0].id == v.id then Dev(v.id, v.healthy) else devs[0]] + Apply(devs[1..], v)
  }

  function Fold(devs: seq<Dev>, vs: seq<Verdict>): (r: seq<Dev>)
    ensures |r| == |devs|
  {
    if vs == [] then devs else Apply(Fold(devs, vs[..|vs| - 1]), vs[|vs| - 1])
  }

  /** The most recent verdict about a device, or its health before any. */
  function LastVerdict(vs: seq<Verdict>, id: string, before: bool): bool {
    if vs == [] then before
    else if vs[|vs| - 1].id == id then vs[|vs| - 1].healthy
    else LastVerdict(vs[..|vs| - 1], id, before)
  }

  lemma {:induction false} ApplyAt(devs: seq<Dev>, v: Verdict, i: nat)
    requires i < |devs|
    ensures Apply(devs, v)[i] == if devs[i].id == v.id then Dev(v.id, v.healthy) else devs[i]
  {
    if i > 0 {
      ApplyAt(devs[1..], v, i - 1);
    }
  }

  /** Folding verdicts keeps the devices and their order; each one's health is its last verdict. */
  lemma {:induction false} FoldAt(devs: seq<Dev>, vs: seq<Verdict>, i: nat)
    requires i < |devs|
    ensures Fold(devs, vs)[i] == Dev(devs[i].id, LastVerdict(vs, devs[i].id, devs[i].healthy))
  {
    if vs != [] {
      FoldAt(devs, vs[..|vs| - 1], i);
      ApplyAt(Fold(devs, vs[..|vs| - 1]), vs[|vs| - 1], i);
    }
  }

  // ---------------------------------------------------------------- the transitions

  datatype AfterStart = NextStart(call: StartCall) | Started | NotStarted | ServePanic

  datatype AfterStop = NextStop(call: StopCall) | Stopped | StopPanic

  /** One statement of Start; `private` says which stop channel it was given. Serving on a field that another goroutine
      has cleared panics, and a server that has been stopped does not serve. */
  function StartStep(p: Plugin, call: StartCall, private: bool, ok: bool): (Plugin, AfterStart) {
    match call
    case StartGuard => (p, if p.server.Nil? then NextStart(StartListen) else NotStarted)
    case StartListen => (p.(private := private), if ok then NextStart(StartCreate) else NotStarted)
    case StartCreate => (p.Cleared().(server := Fresh), NextStart(StartServe))
    case StartServe =>
      if p.server.Nil? then (p, ServePanic)
      else (if p.server.Fresh? then p.(server := Serving) else p, NextStart(StartRegister))
    case StartRegister => (p, if ok then Started else NotStarted)
  }

  /** One statement of Stop; stopping through a field that another goroutine has cleared panics. */
  function StopStep(p: Plugin, call: StopCall): (Plugin, AfterStop) {
    match call
    case StopGuard => (p, if p.server.Nil? then Stopped else NextStop(StopPost))
    case StopPost => (p.(token := true, posts := p.posts + 1), NextStop(StopServer))
    case StopServer => if p.server.Nil? then (p, StopPanic) else (p.(server := Halted), NextStop(StopClear))
    case StopClear => (p.Cleared(), Stopped)
  }

  predicate Known(devs: seq<Dev>, id: string) {
    exists i | 0 <= i < |devs| :: devs[i].id == id
  }

  predicate Enabled(s: State, l: Label) {
    && !s.panicked
    && match l
       case ControllerStep(_) =>
         (match s.controller
          case Starting(_) => true
          case Waiting => s.closed
          case Stopping(call) => call == StopPost ==> !s.plugin.token
          case _ => false)
       case LoopStep(j, _) =>
         && j < |s.loops|
         && (s.loops[j].Setup? || s.loops[j].RestartGuard? || s.loops[j].InStop? || s.loops[j].InStart?)
         && (s.loops[j] == InStop(StopPost) ==> !s.plugin.token)
       case DeviceEvent(j, v) => j < |s.loops| && s.loops[j].Select? && Known(s.health.devs, v.id)
       case OtherEvent(j) => j < |s.loops| && s.loops[j].Select?
       case SocketRemoved(j) => j < |s.loops| && s.loops[j].Select?
       case LoopStopped(j) => j < |s.loops| && s.loops[j] == Select(false) && s.closed
       case CloseStop => !s.closed
       case OpenStream => s.plugin.Up()
       case Receive(i, j) => i < |s.streams| && s.streams[i].Watching? && j < |s.loops| && s.loops[j].Sending?
       case Update(i) => i < |s.streams| && s.streams[i].Updating?
       case Read(i) => i < |s.streams| && s.streams[i].Listing? && |s.streams[i].read| < |s.health.devs|
       case Send(i) => i < |s.streams| && s.streams[i].Listing? && |s.streams[i].read| >= |s.health.devs|
       case TermEnds(i) => i < |s.streams| && s.streams[i].Watching? && s.plugin.token
       case StopEnds(i) => i < |s.streams| && s.streams[i] == Watching(false) && s.closed
  }

  function Spawned(loops: seq<Loop>, after: AfterStart): seq<Loop> {
    if after.Started? then loops + [Setup] else loops
  }

  function ControllerNext(s: State, ok: bool): State {
    match s.controller
    case Starting(call) =>
      var (p, after) := StartStep(s.plugin, call, false, ok);
      s.(plugin := p, panicked := after.ServePanic?, loops := Spawned(s.loops, after),
         controller := match after
                       case NextStart(c) => Starting(c)
                       case Started => Waiting
                       case NotStarted => Aborted
                       case ServePanic => s.controller)
    case Waiting => s.(controller := Stopping(StopGuard))
    case Stopping(call) =>
      var (p, after) := StopStep(s.plugin, call);
      s.(plugin := p, panicked := after.StopPanic?,
         controller := match after
                       case NextStop(c) => Stopping(c)
                       case Stopped => Finished
                       case StopPanic => s.controller)
    case _ => s
  }

  /** Setup may fail; restart tests the server, calls Stop, then Start with a channel of its own, and ends. */
  function LoopNext(s: State, j: nat, ok: bool): State
    requires j < |s.loops|
  {
    match s.loops[j]
    case Setup => s.(loops := s.loops[j := if ok then Select(s.plugin.private) else Ended])
    case RestartGuard => s.(loops := s.loops[j := if s.plugin.server.Nil? then Ended else InStop(StopGuard)])
    case InStop(call) =>
      var (p, after) := StopStep(s.plugin, call);
      var l := match after
               case NextStop(c) => InStop(c)
               case Stopped => InStart(StartGuard)
               case StopPanic => s.loops[j];
      s.(plugin := p, panicked := after.StopPanic?, loops := s.loops[j := l])
    case InStart(call) =>
      var (p, after) := StartStep(s.plugin, call, true, ok);
      var l := match after
               case NextStart(c) => InStart(c)
               case ServePanic => s.loops[j]
               case _ => Ended;
      s.(plugin := p, panicked := after.ServePanic?, loops := Spawned(s.loops, after)[j := l])
    case _ => s
  }

  /** A new stream starts by sending the list. */
  function Opened(h: Health): Stream {
    Listing(None, |h.applied|, [])
  }

  /** A stream applies a verdict to the shared device list. */
  function Updated(h: Health, v: Verdict): Health {
    h.(devs := Apply(h.devs, v), applied := h.applied + [v])
  }

  /** A stream reads the next device of the shared list. */
  function ReadOn(x: Stream, h: Health): Stream
    requires x.Listing? && |x.read| < |h.devs|
  {
    x.(read := x.read + [Reading(h.devs[|x.read|], |h.applied|)])
  }

  /** A stream has sent what it has read. */
  function Listed(h: Health, x: Stream): Health
    requires x.Listing?
  {
    if x.own.Some? then h.(updates := h.updates + [Sent(x.own.value, x.since, x.read)]) else h
  }

  function Step(s: State, l: Label): State
    requires Enabled(s, l)
  {
    match l
    case ControllerStep(ok) => ControllerNext(s, ok)
    case LoopStep(j, ok) => LoopNext(s, j, ok)
    case DeviceEvent(j, v) =>
      s.(loops := s.loops[j := Sending(v)], health := s.health.(consumed := s.health.consumed + [v]))
    case OtherEvent(j) => s.(loops := s.loops[j := Select(s.plugin.private)])
    case SocketRemoved(j) => s.(loops := s.loops[j := RestartGuard])
    case LoopStopped(j) => s.(loops := s.loops[j := Ended])
    case CloseStop => s.(closed := true)
    case OpenStream => s.(streams := s.streams + [Opened(s.health)])
    case Receive(i, j) =>
      var v := s.loops[j].v;
      s.(loops := s.loops[j := Select(s.plugin.private)], streams := s.streams[i := Updating(v)],
         health := s.health.(delivered := s.health.delivered + [v]))
    case Update(i) =>
      var v := s.streams[i].v;
      s.(streams := s.streams[i := Listing(Some(v), |s.health.applied| + 1, [])], health := Updated(s.health, v))
    case Read(i) => s.(streams := s.streams[i := ReadOn(s.streams[i], s.health)])
    case Send(i) => s.(streams := s.streams[i := Watching(s.plugin.private)], health := Listed(s.health, s.streams[i]))
    case TermEnds(i) => s.(streams := s.streams[i := EndedByTerm], plugin := s.plugin.(token := false))
    case StopEnds(i) => s.(streams := s.streams[i := EndedByStop])
  }

  function Initial(devs: seq<Dev>): State {
    State(Plugin(Nil, 0, false, false, 0), false, false, Starting(StartGuard), [], [], Health(devs, [], [], [], []))
  }

  // ---------------------------------------------------------------- runs

  /** The states a run passes through, and the steps between them. */
  datatype Run = Run(states: seq<State>, labels: seq<Label>)

  ghost predicate IsRun(r: Run) {
    && |r.states| == |r.labels| + 1
    && forall i {:trigger r.labels[i]} | 0 <= i < |r.labels| ::
         Enabled(r.states[i], r.labels[i]) && r.states[i + 1] == Step(r.states[i], r.labels[i])
  }

  ghost predicate RunFrom(s: State, r: Run) {
    IsRun(r) && r.states[0] == s
  }

  function Last(r: Run): State
    requires r.states != []
  {
    r.states[|r.states| - 1]
  }

  /** `longer` goes on from where `r` ends. */
  ghost predicate Continues(r: Run, longer: Run) {
    r.states <= longer.states && r.labels <= longer.labels
  }

  function Here(s: State): Run {
    Run([s], [])
  }

  lemma Extend(r: Run, l: Label) returns (longer: Run)
    requires IsRun(r) && Enabled(Last(r), l)
    ensures IsRun(longer) && Continues(r, longer) && Last(longer) == Step(Last(r), l)
    ensures longer.labels == r.labels + [l] && |longer.states| == |r.states| + 1
  {
    longer := Run(r.states + [Step(Last(r), l)], r.labels + [l]);
    forall i | 0 <= i < |longer.labels|
      ensures Enabled(longer.states[i], longer.labels[i])
              && longer.states[i + 1] == Step(longer.states[i], longer.labels[i]) {
      if i < |r.labels| {
        assert longer.labels[i] == r.labels[i];
      }
    }
  }
}
