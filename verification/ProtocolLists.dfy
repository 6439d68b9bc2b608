/** The lists that streams send: what any list sent can show, and when the k-th list sent is the k-th snapshot. */
module ProtocolLists {
  import opened Protocol
  import opened ProtocolHealth
  import opened ProtocolInvariants
  import opened Sequences
  import opened Text

  // ---------------------------------------------------------------- what a list can show

  /** Each device is as some number of the first verdicts left it, at least `since`, and never fewer further on. */
  ghost predicate ReadSoundly(devs: seq<Dev>, applied: seq<Verdict>, since: nat, read: seq<Reading>) {
    && since <= |applied| && |read| <= |devs|
    && (forall i | 0 <= i < |read| ::
          since <= read[i].at <= |applied| && read[i].dev == Fold(devs, applied[..read[i].at])[i])
    && forall i, j | 0 <= i < j < |read| :: read[i].at <= read[j].at
  }

  /** The verdict was the since-th applied. */
  predicate AppliedAs(applied: seq<Verdict>, v: Verdict, since: nat) {
    0 < since <= |applied| && applied[since - 1] == v
  }

  ghost predicate StreamSound(devs: seq<Dev>, applied: seq<Verdict>, x: Stream) {
    x.Listing? ==>
      ReadSoundly(devs, applied, x.since, x.read) && (x.own.Some? ==> AppliedAs(applied, x.own.value, x.since))
  }

  ghost predicate SentSound(devs: seq<Dev>, applied: seq<Verdict>, u: Sent) {
    |u.list| == |devs| && ReadSoundly(devs, applied, u.since, u.list) && AppliedAs(applied, u.v, u.since)
  }

  ghost predicate ListsSound(devs: seq<Dev>, s: State) {
    && s.health.devs == Fold(devs, s.health.applied)
    && (forall i | 0 <= i < |s.streams| :: StreamSound(devs, s.health.applied, s.streams[i]))
    && forall k | 0 <= k < |s.health.updates| :: SentSound(devs, s.health.applied, s.health.updates[k])
  }

  lemma ReadSoundlyLonger(devs: seq<Dev>, applied: seq<Verdict>, v: Verdict, since: nat, read: seq<Reading>)
    requires ReadSoundly(devs, applied, since, read)
    ensures ReadSoundly(devs, applied + [v], since, read)
  {
    forall i | 0 <= i < |read| ensures read[i].dev == Fold(devs, (applied + [v])[..read[i].at])[i] {
      assert (applied + [v])[..read[i].at] == applied[..read[i].at];
    }
  }

  lemma ListsLonger(devs: seq<Dev>, s: State, v: Verdict)
    requires ListsSound(devs, s)
    ensures forall i | 0 <= i < |s.streams| :: StreamSound(devs, s.health.applied + [v], s.streams[i])
    ensures forall k | 0 <= k < |s.health.updates| :: SentSound(devs, s.health.applied + [v], s.health.updates[k])
  {
    var applied := s.health.applied;
    forall i | 0 <= i < |s.streams| && s.streams[i].Listing?
      ensures StreamSound(devs, applied + [v], s.streams[i]) {
      ReadSoundlyLonger(devs, applied, v, s.streams[i].since, s.streams[i].read);
    }
    forall k | 0 <= k < |s.health.updates| ensures SentSound(devs, applied + [v], s.health.updates[k]) {
      ReadSoundlyLonger(devs, applied, v, s.health.updates[k].since, s.health.updates[k].list);
    }
  }

  lemma ReadOnSound(devs: seq<Dev>, h: Health, x: Stream)
    requires h.devs == Fold(devs, h.applied) && x.Listing? && |x.read| < |h.devs| && StreamSound(devs, h.applied, x)
    ensures StreamSound(devs, h.applied, ReadOn(x, h))
  {
    assert h.applied[..|h.applied|] == h.applied;
  }

  lemma FoldSnoc(devs: seq<Dev>, vs: seq<Verdict>, v: Verdict)
    ensures Fold(devs, vs + [v]) == Apply(Fold(devs, vs), v)
  {
    assert (vs + [v])[..|vs|] == vs;
  }

  lemma ListsUpdate(devs: seq<Dev>, s: State, i: nat)
    requires ListsSound(devs, s) && Enabled(s, Update(i))
    ensures ListsSound(devs, Step(s, Update(i)))
  {
    FoldSnoc(devs, s.health.applied, s.streams[i].v);
    ListsLonger(devs, s, s.streams[i].v);
  }

  lemma ListsSend(devs: seq<Dev>, s: State, i: nat)
    requires ListsSound(devs, s) && Enabled(s, Send(i))
    ensures ListsSound(devs, Step(s, Send(i)))
  {
    assert StreamSound(devs, s.health.applied, s.streams[i]);
  }

  /** Steps that leave the list and its history alone, and start no answer. */
  lemma ListsFrame(devs: seq<Dev>, s: State, l: Label)
    requires ListsSound(devs, s) && Enabled(s, l) && !l.Update? && !l.Read? && !l.Send?
    ensures ListsSound(devs, Step(s, l))
  {
    HealthFrame(s, l);
    if !IsStreamLabel(l) {
      StreamsFrame(s, l);
    }
    match l
    case _ =>
  }

  lemma ListsStep(devs: seq<Dev>, s: State, l: Label)
    requires ListsSound(devs, s) && Enabled(s, l)
    ensures ListsSound(devs, Step(s, l))
  {
    match l
    case Update(i) => ListsUpdate(devs, s, i);
    case Read(i) => ReadOnSound(devs, s.health, s.streams[i]);
    case Send(i) => ListsSend(devs, s, i);
    case _ => ListsFrame(devs, s, l);
  }

  /** Over every run, with any number of streams: a list sent after a verdict includes that verdict, and shows every
      device as some number of the first verdicts applied left it, never fewer for a later device. */
  lemma {:induction false} ListsRead(devs: seq<Dev>, r: Run, n: nat)
    requires RunFrom(Initial(devs), r) && n < |r.states|
    ensures ListsSound(devs, r.states[n])
  {
    if n > 0 {
      ListsRead(devs, r, n - 1);
      ListsStep(devs, r.states[n - 1], r.labels[n - 1]);
    }
  }

  predicate Opening(x: Stream) {
    x.Listing? && x.own.None?
  }

  /** In step m the stream sends its first list, which shows every device. */
  ghost predicate FirstListSent(devs: seq<Dev>, r: Run, i: nat, m: nat) {
    && m < |r.labels| && m < |r.states| && r.labels[m] == Send(i)
    && i < |r.states[m].streams| && Opening(r.states[m].streams[i])
    && var x := r.states[m].streams[i];
       |x.read| == |devs| && ReadSoundly(devs, r.states[m].health.applied, x.since, x.read)
  }

  lemma OpeningStays(s: State, l: Label, i: nat)
    requires Enabled(s, l) && i < |Step(s, l).streams| && !Opening(Step(s, l).streams[i])
    ensures i < |s.streams| && (Opening(s.streams[i]) ==> l == Send(i))
  {
    match l
    case ControllerStep(ok) =>
    case LoopStep(j, ok) =>
    case _ =>
  }

  /** Over every run a stream has sent such a list before it does anything else. */
  lemma {:induction false} FirstListFirst(devs: seq<Dev>, r: Run, i: nat, n: nat)
    requires RunFrom(Initial(devs), r) && n < |r.states| && i < |r.states[n].streams|
             && !Opening(r.states[n].streams[i])
    ensures exists m | 0 <= m < n :: FirstListSent(devs, r, i, m)
  {
    if n > 0 {
      var s, l := r.states[n - 1], r.labels[n - 1];
      OpeningStays(s, l, i);
      if Opening(s.streams[i]) {
        ListsRead(devs, r, n - 1);
        assert StreamSound(devs, s.health.applied, s.streams[i]);
        assert FirstListSent(devs, r, i, n - 1);
      } else {
        FirstListFirst(devs, r, i, n - 1);
      }
    }
  }

  // ---------------------------------------------------------------- one list a verdict

  function Answering(): Stream -> nat {
    (x: Stream) => if x.Listing? && x.own.Some? then 1 else 0
  }

  predicate Answered(s: State) {
    |s.health.updates| + Sum(Answering(), s.streams) == |s.health.applied|
  }

  /** What a stream step does to the number of verdicts being answered. */
  lemma AnsweringAfter(s: State, l: Label)
    requires Enabled(s, l) && IsStreamLabel(l)
    ensures Sum(Answering(), Step(s, l).streams) + (if l.Send? then Answering()(s.streams[l.i]) else 0)
         == Sum(Answering(), s.streams) + if l.Update? then 1 else 0
  {
    match l
    case OpenStream =>
      SumConcat(Answering(), s.streams, [Opened(s.health)]);
      assert Sum(Answering(), [Opened(s.health)]) == Answering()(Opened(s.health)) + Sum(Answering(), []);
    case Receive(i, j) => SumUpdate(Answering(), s.streams, i, Updating(s.loops[j].v));
    case Update(i) => SumUpdate(Answering(), s.streams, i, Step(s, l).streams[i]);
    case Read(i) => SumUpdate(Answering(), s.streams, i, ReadOn(s.streams[i], s.health));
    case Send(i) => SumUpdate(Answering(), s.streams, i, Watching(s.plugin.private));
    case TermEnds(i) => SumUpdate(Answering(), s.streams, i, EndedByTerm);
    case StopEnds(i) => SumUpdate(Answering(), s.streams, i, EndedByStop);
  }

  lemma AnsweredStep(s: State, l: Label)
    requires Answered(s) && Enabled(s, l)
    ensures Answered(Step(s, l))
  {
    HealthFrame(s, l);
    if IsStreamLabel(l) {
      AnsweringAfter(s, l);
    } else {
      StreamsFrame(s, l);
    }
  }

  /** Over every run, each verdict applied has been answered with one list, or is being answered. */
  lemma {:induction false} OneListEach(devs: seq<Dev>, r: Run, n: nat)
    requires RunFrom(Initial(devs), r) && n < |r.states|
    ensures Answered(r.states[n])
  {
    if n > 0 {
      OneListEach(devs, r, n - 1);
      AnsweredStep(r.states[n - 1], r.labels[n - 1]);
    }
  }

  // ---------------------------------------------------------------- one stream busy at a time

  /** The stream has received a verdict and not yet sent the list. */
  predicate Busy(x: Stream) {
    x.Updating? || (x.Listing? && x.own.Some?)
  }

  ghost predicate OneBusy(s: State) {
    forall i, j | 0 <= i < j < |s.streams| :: !(Busy(s.streams[i]) && Busy(s.streams[j]))
  }

  lemma OnlyBusy(s: State, i: nat)
    requires OneBusy(s) && i < |s.streams| && Busy(s.streams[i])
    ensures forall k | 0 <= k < |s.streams| && k != i :: !Busy(s.streams[k])
  {
    forall k | 0 <= k < |s.streams| && k != i ensures !Busy(s.streams[k]) {
      assert !(Busy(s.streams[if k < i then k else i]) && Busy(s.streams[if k < i then i else k]));
    }
  }

  lemma {:induction false} NoneAnswering(streams: seq<Stream>)
    requires forall k | 0 <= k < |streams| :: Answering()(streams[k]) == 0
    ensures Sum(Answering(), streams) == 0
  {
    if streams != [] {
      assert forall k | 0 <= k < |streams[1..]| :: streams[1..][k] == streams[k + 1];
      NoneAnswering(streams[1..]);
    }
  }

  lemma OnlyAnswering(streams: seq<Stream>, i: nat)
    requires i < |streams| && forall k | 0 <= k < |streams| && k != i :: Answering()(streams[k]) == 0
    ensures Sum(Answering(), streams) == Answering()(streams[i])
  {
    var without := streams[i := EndedByTerm];
    NoneAnswering(without);
    SumUpdate(Answering(), streams, i, EndedByTerm);
  }

  /** Everything was read when exactly `at` verdicts had been applied. */
  predicate ReadAt(read: seq<Reading>, at: nat) {
    forall i | 0 <= i < |read| :: read[i].at == at
  }

  /** The k-th list was read after exactly the first k verdicts, and the one being sent after all. */
  ghost predicate InStep(s: State) {
    && (forall k | 0 <= k < |s.health.updates| ::
          s.health.updates[k].since == k + 1 && ReadAt(s.health.updates[k].list, k + 1))
    && forall i | 0 <= i < |s.streams| && s.streams[i].Listing? && s.streams[i].own.Some? ::
         s.streams[i].since == |s.health.applied| && ReadAt(s.streams[i].read, |s.health.applied|)
  }

  lemma InStepSend(s: State, i: nat)
    requires InStep(s) && Answered(s) && OneBusy(s) && Enabled(s, Send(i))
    ensures InStep(Step(s, Send(i)))
  {
    if Busy(s.streams[i]) {
      OnlyBusy(s, i);
      OnlyAnswering(s.streams, i);
    }
  }

  lemma InStepStep(s: State, l: Label)
    requires InStep(s) && Answered(s) && OneBusy(s) && Enabled(s, l)
    ensures InStep(Step(s, l))
  {
    HealthFrame(s, l);
    match l
    case Update(i) => OnlyBusy(s, i);
    case Send(i) => InStepSend(s, i);
    case OpenStream => assert forall i | 0 <= i < |s.streams| :: Step(s, l).streams[i] == s.streams[i];
    case ControllerStep(ok) => StreamsFrame(s, l);
    case LoopStep(j, ok) => StreamsFrame(s, l);
    case _ =>
  }

  lemma {:induction false} InStepKept(devs: seq<Dev>, r: Run, n: nat)
    requires RunFrom(Initial(devs), r) && n < |r.states|
    requires forall i | 0 <= i < n :: OneBusy(r.states[i])
    ensures InStep(r.states[n])
  {
    if n > 0 {
      InStepKept(devs, r, n - 1);
      OneListEach(devs, r, n - 1);
      InStepStep(r.states[n - 1], r.labels[n - 1]);
    }
  }

  /** The devices of the k-th list are those the first k verdicts leave. */
  ghost predicate IsSnapshot(devs: seq<Dev>, h: Health, k: nat) {
    k < |h.updates| && k < |h.applied| && |h.updates[k].list| == |devs|
    && forall i | 0 <= i < |devs| :: h.updates[k].list[i].dev == Fold(devs, h.applied[..k + 1])[i]
  }

  /** Over every run, as long as no two streams have been busy at once, the k-th list sent is what the first k verdicts
      leave of the devices. */
  lemma ListsAreSnapshots(devs: seq<Dev>, r: Run, n: nat, k: nat)
    requires RunFrom(Initial(devs), r) && n < |r.states| && k < |r.states[n].health.updates|
    requires forall i | 0 <= i < n :: OneBusy(r.states[i])
    ensures IsSnapshot(devs, r.states[n].health, k) && ReadAt(r.states[n].health.updates[k].list, k + 1)
  {
    InStepKept(devs, r, n);
    ListsRead(devs, r, n);
    OneListEach(devs, r, n);
    assert SentSound(devs, r.states[n].health.applied, r.states[n].health.updates[k]);
  }
}
