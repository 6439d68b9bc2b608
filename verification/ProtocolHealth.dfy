/** Device health through the protocol: no verdict is lost or duplicated between the health loop and the device list,
    the list shows the last verdict applied, and verdicts are applied in the order of their delivery exactly as long as
    no two streams hold different ones at once. */
module ProtocolHealth {
  import opened Protocol
  import opened ProtocolInvariants
  import opened Sequences

  // ---------------------------------------------------------------- from events to streams

  /** The verdicts consumed are those delivered, followed by the one the health loop is blocked on, if any. */
  ghost predicate Fed(s: State) {
    && (forall j | 0 <= j < |s.loops| && s.loops[j].Sending? ::
         s.health.consumed == s.health.delivered + [s.loops[j].v])
    && ((forall j | 0 <= j < |s.loops| :: !s.loops[j].Sending?) ==> s.health.consumed == s.health.delivered)
  }

  /** A step of one live loop leaves no other loop sending. */
  lemma NoOtherSends(loops: seq<Loop>, j: nat)
    requires j < |loops| && !loops[j].Ended? && Sum(Live(), loops) <= 1
    ensures forall i | 0 <= i < |loops| && i != j :: !loops[i].Sending?
  {
    forall i | 0 <= i < |loops| && i != j ensures !loops[i].Sending? {
      if loops[i].Sending? {
        AtMostOneLive(loops, i, j);
      }
    }
  }

  predicate IsLoopLabel(l: Label) {
    l.LoopStep? || l.DeviceEvent? || l.OtherEvent? || l.SocketRemoved? || l.LoopStopped? || l.Receive?
  }

  lemma FedLoopStep(s: State, l: Label)
    requires Fed(s) && Roles(s) <= 1 && Enabled(s, l) && IsLoopLabel(l)
    ensures Fed(Step(s, l))
  {
    NoOtherSends(s.loops, l.j);
    match l
    case LoopStep(j, ok) =>
    case DeviceEvent(j, v) => assert Step(s, l).loops[j].Sending?;
    case _ =>
  }

  lemma SendersUnchanged(s: State, ok: bool)
    requires Enabled(s, ControllerStep(ok))
    ensures var loops := ControllerNext(s, ok).loops;
            && (forall j | 0 <= j < |s.loops| :: j < |loops| && loops[j] == s.loops[j])
            && (forall j | |s.loops| <= j < |loops| :: !loops[j].Sending?)
  {}

  lemma FedStep(s: State, l: Label)
    requires Fed(s) && Roles(s) <= 1 && Enabled(s, l)
    ensures Fed(Step(s, l))
  {
    if IsLoopLabel(l) {
      FedLoopStep(s, l);
    } else if l.ControllerStep? {
      SendersUnchanged(s, l.ok);
    }
  }

  lemma {:induction false} FeedKept(devs: seq<Dev>, r: Run, n: nat)
    requires RunFrom(Initial(devs), r) && n < |r.states|
    ensures Fed(r.states[n])
  {
    if n > 0 {
      FeedKept(devs, r, n - 1);
      RolesAlongRun(r, n - 1);
      FedStep(r.states[n - 1], r.labels[n - 1]);
    }
  }

  // ---------------------------------------------------------------- from streams to the device list

  /** What a step adds to the history, and what it does to the list. */
  lemma HealthFrame(s: State, l: Label)
    requires Enabled(s, l)
    ensures var h, h' := s.health, Step(s, l).health;
            && h'.delivered == h.delivered + (if l.Receive? then [s.loops[l.j].v] else [])
            && h'.applied == h.applied + (if l.Update? then [s.streams[l.i].v] else [])
            && h'.devs == (if l.Update? then Apply(h.devs, s.streams[l.i].v) else h.devs)
            && h'.updates == if l.Send? then Listed(h, s.streams[l.i]).updates else h.updates
  {
    match l
    case ControllerStep(ok) =>
    case LoopStep(j, ok) =>
    case _ =>
  }

  /** Over every run, with any number of streams, the device list is the fold of the verdicts applied. */
  lemma {:induction false} ShownKept(devs: seq<Dev>, r: Run, n: nat)
    requires RunFrom(Initial(devs), r) && n < |r.states|
    ensures r.states[n].health.devs == Fold(devs, r.states[n].health.applied)
  {
    if n > 0 {
      ShownKept(devs, r, n - 1);
      HealthFrame(r.states[n - 1], r.labels[n - 1]);
      var h, h' := r.states[n - 1].health, r.states[n].health;
      assert h'.applied != h.applied ==> h'.applied[..|h'.applied| - 1] == h.applied;
    }
  }

  // ---------------------------------------------------------------- verdicts in the hands of streams

  /** Whether a stream has received this verdict and not yet applied it. */
  function Holds(v: Verdict): Stream -> nat {
    (x: Stream) => if x == Updating(v) then 1 else 0
  }

  ghost predicate Accounted(s: State, v: Verdict) {
    multiset(s.health.delivered)[v] == multiset(s.health.applied)[v] + Sum(Holds(v), s.streams)
  }

  /** What a stream step does to the verdicts held. */
  lemma HeldAfter(s: State, l: Label, v: Verdict)
    requires Enabled(s, l) && IsStreamLabel(l)
    ensures Sum(Holds(v), Step(s, l).streams) + (if l.Update? && s.streams[l.i].v == v then 1 else 0)
         == Sum(Holds(v), s.streams) + if l.Receive? && s.loops[l.j].v == v then 1 else 0
  {
    match l
    case OpenStream =>
      SumConcat(Holds(v), s.streams, [Opened(s.health)]);
      assert Sum(Holds(v), [Opened(s.health)]) == Holds(v)(Opened(s.health)) + Sum(Holds(v), []);
    case Receive(i, j) => SumUpdate(Holds(v), s.streams, i, Updating(s.loops[j].v));
    case Update(i) => SumUpdate(Holds(v), s.streams, i, Step(s, l).streams[i]);
    case Read(i) => SumUpdate(Holds(v), s.streams, i, ReadOn(s.streams[i], s.health));
    case Send(i) => SumUpdate(Holds(v), s.streams, i, Watching(s.plugin.private));
    case TermEnds(i) => SumUpdate(Holds(v), s.streams, i, EndedByTerm);
    case StopEnds(i) => SumUpdate(Holds(v), s.streams, i, EndedByStop);
  }

  lemma AccountedStep(s: State, l: Label, v: Verdict)
    requires Accounted(s, v) && Enabled(s, l)
    ensures Accounted(Step(s, l), v)
  {
    HealthFrame(s, l);
    if IsStreamLabel(l) {
      HeldAfter(s, l, v);
    } else {
      StreamsFrame(s, l);
    }
  }

  /** With any number of streams, every verdict delivered has been applied once or is held by one stream. */
  lemma {:induction false} VerdictsConserved(devs: seq<Dev>, r: Run, n: nat, v: Verdict)
    requires RunFrom(Initial(devs), r) && n < |r.states|
    ensures Accounted(r.states[n], v)
  {
    if n > 0 {
      VerdictsConserved(devs, r, n - 1, v);
      AccountedStep(r.states[n - 1], r.labels[n - 1], v);
    }
  }

  ghost predicate AllAccounted(s: State) {
    forall v :: Accounted(s, v)
  }

  lemma AllConserved(devs: seq<Dev>, r: Run, n: nat)
    requires RunFrom(Initial(devs), r) && n < |r.states|
    ensures AllAccounted(r.states[n])
  {
    forall v: Verdict ensures Accounted(r.states[n], v) {
      VerdictsConserved(devs, r, n, v);
    }
  }

  // ---------------------------------------------------------------- the order of application

  /** No two streams hold different verdicts. */
  ghost predicate SameHeld(s: State) {
    forall i, j | 0 <= i < |s.streams| && 0 <= j < |s.streams| && s.streams[i].Updating? && s.streams[j].Updating? ::
      s.streams[i] == s.streams[j]
  }

  /** The verdicts delivered and not yet applied, where those applied are the first delivered. */
  function Pending(h: Health): seq<Verdict>
    requires |h.applied| <= |h.delivered|
  {
    h.delivered[|h.applied|..]
  }

  lemma {:induction false} SomeoneHolds(streams: seq<Stream>, v: Verdict)
    ensures Sum(Holds(v), streams) > 0 <==> exists i | 0 <= i < |streams| :: streams[i] == Updating(v)
  {
    if streams != [] {
      SomeoneHolds(streams[1..], v);
      assert forall i | 0 <= i < |streams[1..]| :: streams[1..][i] == streams[i + 1];
      if i :| 0 <= i < |streams| && streams[i] == Updating(v) && i > 0 {
        assert streams[1..][i - 1] == Updating(v);
      }
    }
  }

  /** As long as verdicts are applied in order, a verdict is pending as often as it is held. */
  lemma PendingHeld(s: State, v: Verdict)
    requires Accounted(s, v) && s.health.applied <= s.health.delivered
    ensures multiset(Pending(s.health))[v] == Sum(Holds(v), s.streams)
  {
    var h := s.health;
    assert h.delivered == h.applied + Pending(h);
  }

  /** Where no two streams hold different verdicts, whichever applies its own applies the first pending. */
  lemma FirstPending(s: State, i: nat)
    requires AllAccounted(s) && s.health.applied <= s.health.delivered && SameHeld(s)
    requires i < |s.streams| && s.streams[i].Updating?
    ensures Pending(s.health) != [] && Pending(s.health)[0] == s.streams[i].v
  {
    var v, pending := s.streams[i].v, Pending(s.health);
    PendingHeld(s, v);
    SomeoneHolds(s.streams, v);
    assert v in pending;
    PendingHeld(s, pending[0]);
    SomeoneHolds(s.streams, pending[0]);
    assert pending[0] in multiset(pending);
  }

  lemma OrderStep(s: State, l: Label)
    requires AllAccounted(s) && s.health.applied <= s.health.delivered && SameHeld(s) && Enabled(s, l)
    ensures Step(s, l).health.applied <= Step(s, l).health.delivered
  {
    HealthFrame(s, l);
    if l.Update? {
      FirstPending(s, l.i);
      assert s.health.delivered[|s.health.applied|] == Pending(s.health)[0];
    }
  }

  /** Over every run, as long as no two streams have held different verdicts at once, verdicts are applied in the order
      of their delivery. */
  lemma {:induction false} OrderKept(devs: seq<Dev>, r: Run, n: nat)
    requires RunFrom(Initial(devs), r) && n < |r.states|
    requires forall i | 0 <= i < n :: SameHeld(r.states[i])
    ensures r.states[n].health.applied <= r.states[n].health.delivered
  {
    if n > 0 {
      OrderKept(devs, r, n - 1);
      AllConserved(devs, r, n - 1);
      OrderStep(r.states[n - 1], r.labels[n - 1]);
    }
  }

  /** The end-to-end statement, for runs in which no two streams have held different verdicts at once: what the health
      loop consumed is what has been applied, followed by what streams hold, followed by at most the one verdict it is
      sending; nothing is lost or reordered, and every device, under its own id and at its own place, has the health of
      the last verdict applied. */
  lemma HealthEndToEnd(devs: seq<Dev>, r: Run, n: nat) returns (held: seq<Verdict>, sending: seq<Verdict>)
    requires RunFrom(Initial(devs), r) && n < |r.states|
    requires forall i | 0 <= i <= n :: SameHeld(r.states[i])
    ensures var s := r.states[n];
            && s.health.consumed == s.health.applied + held + sending && |sending| <= 1
            && (forall v :: multiset(held)[v] == Sum(Holds(v), s.streams))
            && |s.health.devs| == |devs|
            && forall i | 0 <= i < |devs| ::
                 s.health.devs[i] == Dev(devs[i].id, LastVerdict(s.health.applied, devs[i].id, devs[i].healthy))
  {
    var s := r.states[n];
    FeedKept(devs, r, n);
    ShownKept(devs, r, n);
    OrderKept(devs, r, n);
    held, sending := Pending(s.health), [];
    AllConserved(devs, r, n);
    forall v ensures multiset(held)[v] == Sum(Holds(v), s.streams) {
      PendingHeld(s, v);
    }
    forall i | 0 <= i < |devs|
      ensures s.health.devs[i] == Dev(devs[i].id, LastVerdict(s.health.applied, devs[i].id, devs[i].healthy)) {
      FoldAt(devs, s.health.applied, i);
    }
    if j :| 0 <= j < |s.loops| && s.loops[j].Sending? {
      sending := [s.loops[j].v];
    }
    assert s.health.delivered == s.health.applied + held;
  }

  /** Only receiving a verdict makes a stream hold one. */
  lemma HoldersFrame(s: State, l: Label, k: nat)
    requires Enabled(s, l) && k < |Step(s, l).streams| && Step(s, l).streams[k].Updating? && !(l.Receive? && k == l.i)
    ensures k < |s.streams| && s.streams[k] == Step(s, l).streams[k]
  {
    if !IsStreamLabel(l) {
      StreamsFrame(s, l);
    }
    match l
    case _ =>
  }

  /** So the step after which two streams hold different verdicts is a receipt, with another holder there already. */
  lemma NewHolder(s: State, l: Label) returns (k: nat)
    requires Enabled(s, l) && SameHeld(s) && !SameHeld(Step(s, l))
    ensures l.Receive? && k < |s.streams| && s.streams[k].Updating? && s.streams[k].v != s.loops[l.j].v
  {
    var s' := Step(s, l);
    var a, b :| 0 <= a < |s'.streams| && 0 <= b < |s'.streams| && s'.streams[a].Updating? && s'.streams[b].Updating?
                && s'.streams[a] != s'.streams[b];
    if !(l.Receive? && a == l.i) {
      HoldersFrame(s, l, a);
    }
    if !(l.Receive? && b == l.i) {
      HoldersFrame(s, l, b);
    }
    k := if l.Receive? && a == l.i then b else a;
  }

  /** The first time two streams hold different verdicts at once, a verdict has just been received that is not the first
      pending one. */
  lemma FirstDifference(devs: seq<Dev>, r: Run) returns (i: nat)
    requires RunFrom(Initial(devs), r) && !SameHeld(Last(r))
    requires forall i | 0 <= i < |r.states| - 1 :: SameHeld(r.states[i])
    ensures var s := Last(r);
            && !s.panicked && i < |s.streams| && s.streams[i].Updating? && s.health.applied <= s.health.delivered
            && Pending(s.health) != [] && Pending(s.health)[0] != s.streams[i].v
  {
    var m := |r.states| - 2;
    var s, l := r.states[m], r.labels[m];
    var k := NewHolder(s, l);
    i := l.i;
    HealthFrame(s, l);
    OrderKept(devs, r, m);
    AllConserved(devs, r, m);
    FirstPending(s, k);
    assert Last(r).health.delivered[|s.health.applied|] == Pending(s.health)[0];
  }

  /** And the run can go on to apply it against the order of delivery. */
  lemma TwoHoldersSwap(devs: seq<Dev>, before: Run) returns (r: Run)
    requires RunFrom(Initial(devs), before) && !SameHeld(Last(before))
    requires forall i | 0 <= i < |before.states| - 1 :: SameHeld(before.states[i])
    ensures RunFrom(Initial(devs), r) && Continues(before, r) && !(Last(r).health.applied <= Last(r).health.delivered)
  {
    var i := FirstDifference(devs, before);
    r := Extend(before, Update(i));
    var n := |Last(before).health.applied|;
    assert Last(r).health.applied[n] != Last(r).health.delivered[n];
  }

  // ---------------------------------------------------------------- the stop channel after a restart

  /** Once a restart has replaced the stop channel, no live loop waits on the controller's. */
  ghost predicate Detached(s: State) {
    && s.plugin.private && !s.controller.Starting?
    && forall j | 0 <= j < |s.loops| :: s.loops[j] != Select(false)
  }

  lemma {:induction false} DetachedStays(r: Run, n: nat)
    requires IsRun(r) && n < |r.states| && Detached(r.states[0])
    ensures Detached(r.states[n])
  {
    if n > 0 {
      DetachedStays(r, n - 1);
      match r.labels[n - 1]
      case ControllerStep(ok) =>
      case LoopStep(j, ok) =>
      case _ =>
    }
  }

  /** A restart that reaches its listen detaches the plugin: closing the controller's stop channel ends no health
      loop in any continuation. */
  lemma RestartDetaches(s: State, j: nat, ok: bool, r: Run, n: nat, i: nat)
    requires Enabled(s, LoopStep(j, ok)) && s.loops[j] == InStart(StartListen) && Roles(s) <= 1
    requires RunFrom(Step(s, LoopStep(j, ok)), r) && n < |r.states|
    ensures !Enabled(r.states[n], LoopStopped(i))
  {
    var s' := Step(s, LoopStep(j, ok));
    SumAtLeast(s.loops, j);
    forall i | 0 <= i < |s'.loops| ensures s'.loops[i] != Select(false) {
      if i != j && !s.loops[i].Ended? {
        AtMostOneLive(s.loops, i, j);
      }
    }
    DetachedStays(r, n);
  }
}
