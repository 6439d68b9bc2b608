/** Two streams that answer verdicts at the same time: the first moment this happens, and exactly when the lists they
    then send can differ from the snapshots. */
module ProtocolMixing {
  import opened Protocol
  import opened ProtocolHealth
  import opened ProtocolInvariants
  import opened ProtocolLists
  import opened ProtocolStreams
  import opened Text

  // ---------------------------------------------------------------- the second stream to become busy

  lemma ConsumedFrame(s: State, l: Label)
    requires Enabled(s, l) && !l.DeviceEvent?
    ensures Step(s, l).health.consumed == s.health.consumed
  {
    match l
    case ControllerStep(ok) =>
    case LoopStep(j, ok) =>
    case _ =>
  }

  lemma {:induction false} DevicesExist(devs: seq<Dev>, r: Run, n: nat)
    requires RunFrom(Initial(devs), r) && n < |r.states| && r.states[n].health.consumed != []
    ensures devs != []
  {
    if n > 0 {
      var s, l := r.states[n - 1], r.labels[n - 1];
      ShownKept(devs, r, n - 1);
      if s.health.consumed != [] {
        DevicesExist(devs, r, n - 1);
      } else if !l.DeviceEvent? {
        ConsumedFrame(s, l);
      }
    }
  }

  /** Only receiving a verdict makes a stream busy. */
  lemma BusyFrame(s: State, l: Label, k: nat)
    requires Enabled(s, l) && k < |Step(s, l).streams| && Busy(Step(s, l).streams[k]) && !(l.Receive? && k == l.i)
    ensures k < |s.streams| && Busy(s.streams[k])
  {
    if !IsStreamLabel(l) {
      StreamsFrame(s, l);
    }
    match l
    case _ =>
  }

  /** Streams a and b are the busy ones, and b still holds its verdict. */
  ghost predicate BusyPair(s: State, a: nat, b: nat) {
    && a < |s.streams| && b < |s.streams| && a != b && Busy(s.streams[a]) && s.streams[b].Updating?
    && forall k | 0 <= k < |s.streams| && k != a && k != b :: !Busy(s.streams[k])
  }

  lemma NewlyBusy(s: State, l: Label) returns (a: nat, b: nat)
    requires Enabled(s, l) && OneBusy(s) && !OneBusy(Step(s, l))
    ensures l.Receive? && BusyPair(Step(s, l), a, b)
  {
    var s' := Step(s, l);
    var i, j :| 0 <= i < j < |s'.streams| && Busy(s'.streams[i]) && Busy(s'.streams[j]);
    if !(l.Receive? && i == l.i) {
      BusyFrame(s, l, i);
    }
    if !(l.Receive? && j == l.i) {
      BusyFrame(s, l, j);
    }
    b := l.i;
    a := if i == l.i then j else i;
    OnlyBusy(s, a);
  }

  /** No two streams have been busy at once before the end of the run, where two are. */
  ghost predicate FirstDouble(devs: seq<Dev>, before: Run) {
    && RunFrom(Initial(devs), before) && !OneBusy(Last(before))
    && forall i | 0 <= i < |before.states| - 1 :: OneBusy(before.states[i])
  }

  /** Every list sent so far is a snapshot, and every verdict applied has been answered, except stream a's if it has
      applied its own. */
  ghost predicate Double(devs: seq<Dev>, s: State, a: nat, b: nat) {
    && !s.panicked && BusyPair(s, a, b) && InStep(s) && ListsSound(devs, s) && Answered(s) && devs != []
    && |s.health.applied| == |s.health.updates| + if s.streams[a].Updating? then 0 else 1
  }

  lemma DoubleState(devs: seq<Dev>, before: Run) returns (a: nat, b: nat)
    requires FirstDouble(devs, before)
    ensures Double(devs, Last(before), a, b)
  {
    var m := |before.states| - 2;
    var s := Last(before);
    a, b := NewlyBusy(before.states[m], before.labels[m]);
    InStepKept(devs, before, m + 1);
    ListsRead(devs, before, m + 1);
    OneListEach(devs, before, m + 1);
    OnlyAnswering(s.streams, a);
    FeedKept(devs, before, m + 1);
    assert s.health.delivered != [];
    DevicesExist(devs, before, m + 1);
  }

  // ---------------------------------------------------------------- lists out of step

  lemma ReadFromStart(h: Health, x: Stream)
    requires x.Listing? && x.read == []
    ensures ReadAll(h, x) == x.(read := Readings(h.devs, |h.applied|))
  {
    assert h.devs[0..] == h.devs;
    assert [] + Readings(h.devs, |h.applied|) == Readings(h.devs, |h.applied|);
  }

  /** A stream answers the verdict it holds without interference. */
  lemma Answer(before: Run, i: nat) returns (r: Run)
    requires IsRun(before) && !Last(before).panicked && i < |Last(before).streams| && Last(before).streams[i].Updating?
    ensures IsRun(r) && Continues(before, r) && NoReceipt(before, r) && !Last(r).panicked
    ensures var s := Last(before);
            var v, n := s.streams[i].v, |s.health.applied| + 1;
            && Last(r).streams == s.streams[i := Watching(s.plugin.private)]
            && Last(r).health == s.health.(devs := Apply(s.health.devs, v), applied := s.health.applied + [v],
                                           updates := s.health.updates + [Sent(v, n,
                                             Readings(Apply(s.health.devs, v), n))])
  {
    var s := Last(before);
    var v := s.streams[i].v;
    var h, x := Updated(s.health, v), Listing(Some(v), |s.health.applied| + 1, []);
    r := Extend(before, Update(i));
    assert Last(r) == s.(streams := s.streams[i := x], health := h);
    ReadFromStart(h, x);
    r := FinishListing(r, i);
    assert Last(r).streams == s.streams[i := Watching(s.plugin.private)];
  }

  /** The list once the first stream's verdict is applied, if it was yet to come. */
  function AfterFirst(s: State, a: nat): seq<Dev>
    requires a < |s.streams|
  {
    if s.streams[a].Updating? then Apply(s.health.devs, s.streams[a].v) else s.health.devs
  }

  /** One list has been sent since, and it is one verdict late: `due` is what its place calls for, and the verdict v,
      its sender's own, was applied to that before it was read. */
  ghost predicate LateList(devs: seq<Dev>, earlier: seq<Sent>, h: Health, due: seq<Dev>, v: Verdict) {
    var n := |earlier|;
    && |h.applied| == n + 2 && |due| == |devs| && Fold(devs, h.applied[..n + 1]) == due
    && h.updates == earlier + [Sent(v, n + 2, Readings(Apply(due, v), n + 2))]
  }

  lemma FirstApplies(devs: seq<Dev>, before: Run, a: nat, b: nat) returns (r: Run)
    requires IsRun(before) && Double(devs, Last(before), a, b)
    ensures IsRun(r) && Continues(before, r) && NoReceipt(before, r) && !Last(r).panicked
    ensures var s, t := Last(before), Last(r);
            && t.health.devs == AfterFirst(s, a) == Fold(devs, t.health.applied)
            && |t.health.applied| == |s.health.updates| + 1 && t.health.updates == s.health.updates
            && b < |t.streams| && t.streams[b] == s.streams[b]
  {
    var s := Last(before);
    r := before;
    if s.streams[a].Updating? {
      r := Extend(r, Update(a));
      FoldSnoc(devs, s.health.applied, s.streams[a].v);
    }
  }

  /** The first stream applies its verdict, if it has not yet; then the second answers: its list is one verdict late. */
  lemma SecondAnswersFirst(devs: seq<Dev>, before: Run, a: nat, b: nat) returns (r: Run)
    requires IsRun(before) && Double(devs, Last(before), a, b)
    ensures IsRun(r) && Continues(before, r) && NoReceipt(before, r)
    ensures LateList(devs, Last(before).health.updates, Last(r).health, AfterFirst(Last(before), a),
            Last(before).streams[b].v)
  {
    var first := FirstApplies(devs, before, a, b);
    r := Answer(first, b);
    assert Last(r).health.applied[..|Last(before).health.updates| + 1] == Last(first).health.applied;
  }

  /** The second stream applies its verdict; then the first, which had not applied its own, answers. */
  lemma FirstAnswersSecond(devs: seq<Dev>, before: Run, a: nat, b: nat) returns (r: Run)
    requires IsRun(before) && Double(devs, Last(before), a, b) && Last(before).streams[a].Updating?
    ensures IsRun(r) && Continues(before, r) && NoReceipt(before, r)
    ensures LateList(devs, Last(before).health.updates, Last(r).health,
                     Apply(Last(before).health.devs, Last(before).streams[b].v), Last(before).streams[a].v)
  {
    var s := Last(before);
    r := Extend(before, Update(b));
    FoldSnoc(devs, s.health.applied, s.streams[b].v);
    var applied := Last(r).health.applied;
    r := Answer(r, a);
    assert Last(r).health.applied[..|s.health.updates| + 1] == applied;
  }

  /** As long as no two streams have been busy at once every list is read in step (`ListsAreSnapshots`); the first time
      two are, the run can go on to a list that is not. */
  lemma NextListLate(devs: seq<Dev>, before: Run) returns (r: Run)
    requires FirstDouble(devs, before)
    ensures RunFrom(Initial(devs), r) && Continues(before, r)
    ensures var n := |Last(before).health.updates|;
            n < |Last(r).health.updates| && !ReadAt(Last(r).health.updates[n].list, n + 1)
  {
    var a, b := DoubleState(devs, before);
    r := SecondAnswersFirst(devs, before, a, b);
    assert Last(r).health.updates[|Last(before).health.updates|].list[0].at == |Last(before).health.updates| + 2;
  }

  // ---------------------------------------------------------------- lists that show it

  /** Some list sent is not a snapshot. */
  ghost predicate ShowsMixed(devs: seq<Dev>, h: Health) {
    exists k | 0 <= k < |h.updates| :: !IsSnapshot(devs, h, k)
  }

  /** One of the two verdicts changes a device when applied after the other, in an order that is still open. */
  predicate LaterShows(s: State, a: nat, b: nat)
    requires a < |s.streams| && b < |s.streams| && s.streams[b].Updating?
  {
    var w := s.streams[b].v;
    || Apply(AfterFirst(s, a), w) != AfterFirst(s, a)
    || (s.streams[a].Updating?
        && Apply(Apply(s.health.devs, w), s.streams[a].v) != Apply(s.health.devs, w))
  }

  lemma NotSnapshot(devs: seq<Dev>, earlier: seq<Sent>, h: Health, due: seq<Dev>, v: Verdict)
    requires LateList(devs, earlier, h, due, v) && Apply(due, v) != due
    ensures ShowsMixed(devs, h)
  {
    var i :| 0 <= i < |devs| && Apply(due, v)[i] != due[i];
    assert h.updates[|earlier|].list[i].dev == Apply(due, v)[i];
    assert !IsSnapshot(devs, h, |earlier|);
  }

  lemma LaterVerdictShows(devs: seq<Dev>, s: State, a: nat, b: nat) returns (r: Run)
    requires Double(devs, s, a, b) && LaterShows(s, a, b)
    ensures RunFrom(s, r) && NoReceipt(Here(s), r) && ShowsMixed(devs, Last(r).health)
  {
    var w, first := s.streams[b].v, AfterFirst(s, a);
    if Apply(first, w) != first {
      r := SecondAnswersFirst(devs, Here(s), a, b);
      NotSnapshot(devs, s.health.updates, Last(r).health, first, w);
    } else {
      r := FirstAnswersSecond(devs, Here(s), a, b);
      NotSnapshot(devs, s.health.updates, Last(r).health, Apply(s.health.devs, w), s.streams[a].v);
    }
  }

  // ---------------------------------------------------------------- lists that cannot show it

  /** What may have been applied since s while no verdict was received, by whether a and b still hold theirs. */
  ghost predicate AppliedSince(s: State, a: nat, b: nat, t: State)
    requires a < |s.streams| && b < |s.streams| && s.streams[b].Updating?
  {
    var before, w := s.health.applied, s.streams[b].v;
    && a < |t.streams| && b < |t.streams|
    && (forall k | 0 <= k < |t.streams| && k != a && k != b :: !t.streams[k].Updating?)
    && (t.streams[a].Updating? ==> t.streams[a] == s.streams[a])
    && (t.streams[b].Updating? ==> t.streams[b] == s.streams[b])
    && if !s.streams[a].Updating? then t.health.applied == before + if t.streams[b].Updating? then [] else [w]
       else
         var v := s.streams[a].v;
         if t.streams[a].Updating? then t.health.applied == before + if t.streams[b].Updating? then [] else [w]
         else if t.streams[b].Updating? then t.health.applied == before + [v]
         else t.health.applied == before + [v] + [w] || t.health.applied == before + [w] + [v]
  }

  /** Every answer not sent by s counts from the first stream's verdict on, and the lists sent by s stand. */
  ghost predicate AnswersSince(s: State, t: State) {
    var n := |s.health.updates|;
    && s.health.updates <= t.health.updates
    && (forall k | n <= k < |t.health.updates| :: t.health.updates[k].since > n)
    && forall i | 0 <= i < |t.streams| && t.streams[i].Listing? && t.streams[i].own.Some? :: t.streams[i].since > n
  }

  lemma AppliedSinceStep(s: State, a: nat, b: nat, t: State, l: Label)
    requires a < |s.streams| && b < |s.streams| && a != b && s.streams[b].Updating?
    requires AppliedSince(s, a, b, t) && Enabled(t, l) && !l.Receive?
    ensures AppliedSince(s, a, b, Step(t, l))
  {
    HealthFrame(t, l);
    if !IsStreamLabel(l) {
      StreamsFrame(t, l);
    }
    match l
    case Update(i) => assert i == a || i == b;
    case _ =>
  }

  lemma AnswersSinceStep(s: State, t: State, l: Label)
    requires AnswersSince(s, t) && Enabled(t, l) && |s.health.updates| <= |t.health.applied|
    ensures AnswersSince(s, Step(t, l))
  {
    HealthFrame(t, l);
    if !IsStreamLabel(l) {
      StreamsFrame(t, l);
    }
    match l
    case _ =>
  }

  lemma {:induction false} SinceAlongRun(devs: seq<Dev>, s: State, a: nat, b: nat, r: Run, m: nat)
    requires Double(devs, s, a, b) && RunFrom(s, r) && NoReceipt(Here(s), r) && m < |r.states|
    ensures var t := r.states[m];
            AppliedSince(s, a, b, t) && AnswersSince(s, t) && ListsSound(devs, t) && Answered(t)
  {
    if m > 0 {
      SinceAlongRun(devs, s, a, b, r, m - 1);
      var t, l := r.states[m - 1], r.labels[m - 1];
      assert !l.Receive?;
      AppliedSinceStep(s, a, b, t, l);
      AnswersSinceStep(s, t, l);
      ListsStep(devs, t, l);
      AnsweredStep(t, l);
    }
  }

  lemma FoldTwo(devs: seq<Dev>, before: seq<Verdict>, v: Verdict, w: Verdict)
    ensures Fold(devs, before + [v] + [w]) == Apply(Apply(Fold(devs, before), v), w)
    ensures (before + [v] + [w])[..|before| + 1] == before + [v]
    ensures Fold(devs, before + [v]) == Apply(Fold(devs, before), v)
  {
    FoldSnoc(devs, before, v);
    FoldSnoc(devs, before + [v], w);
  }

  /** What of the double state bears on the verdicts to come. */
  ghost predicate Pair(devs: seq<Dev>, s: State, a: nat, b: nat) {
    && a < |s.streams| && b < |s.streams| && s.streams[b].Updating? && s.health.devs == Fold(devs, s.health.applied)
    && |s.health.applied| == |s.health.updates| + if s.streams[a].Updating? then 0 else 1
  }

  lemma LastShowsNothing(devs: seq<Dev>, s: State, a: nat, b: nat, t: State)
    requires Pair(devs, s, a, b) && AppliedSince(s, a, b, t) && !LaterShows(s, a, b)
    requires |t.health.applied| == |s.health.updates| + 2
    ensures Fold(devs, t.health.applied) == Fold(devs, t.health.applied[..|s.health.updates| + 1])
  {
    var before, w := s.health.applied, s.streams[b].v;
    if s.streams[a].Updating? {
      FoldTwo(devs, before, s.streams[a].v, w);
      FoldTwo(devs, before, w, s.streams[a].v);
    } else {
      FoldSnoc(devs, before, w);
      assert (before + [w])[..|before|] == before;
    }
  }

  /** Where no later verdict shows, the devices look the same after any number of verdicts from the first one on. */
  lemma SameFolds(devs: seq<Dev>, s: State, a: nat, b: nat, t: State, p: nat)
    requires Pair(devs, s, a, b) && AppliedSince(s, a, b, t) && !LaterShows(s, a, b)
    requires |s.health.updates| < p <= |t.health.applied|
    ensures Fold(devs, t.health.applied[..p]) == Fold(devs, t.health.applied[..|s.health.updates| + 1])
  {
    if p > |s.health.updates| + 1 {
      assert p == |t.health.applied| == |s.health.updates| + 2;
      assert t.health.applied[..p] == t.health.applied;
      LastShowsNothing(devs, s, a, b, t);
    }
  }

  /** A list that s had sent already. */
  lemma OldSnapshot(devs: seq<Dev>, s: State, t: State, k: nat)
    requires InStep(s) && s.health.updates <= t.health.updates && k < |s.health.updates| && k < |t.health.applied|
    requires SentSound(devs, t.health.applied, t.health.updates[k])
    ensures IsSnapshot(devs, t.health, k)
  {
    assert t.health.updates[k] == s.health.updates[k];
  }

  /** A list sent since. */
  lemma NewSnapshot(devs: seq<Dev>, s: State, a: nat, b: nat, t: State, k: nat)
    requires Pair(devs, s, a, b) && AppliedSince(s, a, b, t) && !LaterShows(s, a, b)
    requires |s.health.updates| <= k < |t.health.updates| && k < |t.health.applied|
    requires SentSound(devs, t.health.applied, t.health.updates[k]) && t.health.updates[k].since > |s.health.updates|
    ensures IsSnapshot(devs, t.health, k)
  {
    var h := t.health;
    var list := h.updates[k].list;
    SameFolds(devs, s, a, b, t, k + 1);
    forall i | 0 <= i < |devs| ensures list[i].dev == Fold(devs, h.applied[..k + 1])[i] {
      SameFolds(devs, s, a, b, t, list[i].at);
    }
  }

  lemma StillSnapshots(devs: seq<Dev>, s: State, a: nat, b: nat, t: State, k: nat)
    requires Double(devs, s, a, b) && AppliedSince(s, a, b, t) && !LaterShows(s, a, b) && AnswersSince(s, t)
    requires ListsSound(devs, t) && Answered(t) && k < |t.health.updates|
    ensures IsSnapshot(devs, t.health, k)
  {
    assert SentSound(devs, t.health.applied, t.health.updates[k]);
    if k < |s.health.updates| {
      OldSnapshot(devs, s, t, k);
    } else {
      NewSnapshot(devs, s, a, b, t, k);
    }
  }

  /** When two streams have come to be busy at once: without receiving another verdict the run can go on to send a list
      that is not the snapshot of its place exactly when one of their two verdicts shows after the other. */
  lemma ListsDifferIff(devs: seq<Dev>, before: Run) returns (a: nat, b: nat)
    requires FirstDouble(devs, before)
    ensures BusyPair(Last(before), a, b)
    ensures LaterShows(Last(before), a, b) <==>
            exists r :: RunFrom(Last(before), r) && NoReceipt(Here(Last(before)), r) && ShowsMixed(devs, Last(r).health)
  {
    var s := Last(before);
    a, b := DoubleState(devs, before);
    if LaterShows(s, a, b) {
      var r := LaterVerdictShows(devs, s, a, b);
    } else {
      forall r | RunFrom(s, r) && NoReceipt(Here(s), r) ensures !ShowsMixed(devs, Last(r).health) {
        SinceAlongRun(devs, s, a, b, r, |r.states| - 1);
        forall k | 0 <= k < |Last(r).health.updates| ensures IsSnapshot(devs, Last(r).health, k) {
          StillSnapshots(devs, s, a, b, Last(r), k);
        }
      }
    }
  }
}
