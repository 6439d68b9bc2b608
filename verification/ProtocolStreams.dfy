/** Streams on their own: how one that is live comes back to its select, which sends it can unblock, and what a token in
    the slot of `term` does to it. */
module ProtocolStreams {
  import opened Protocol

  // ---------------------------------------------------------------- back to the select

  /** The devices as read at one point. */
  function Readings(devs: seq<Dev>, at: nat): (list: seq<Reading>)
    ensures |list| == |devs| && forall i | 0 <= i < |devs| :: list[i] == Reading(devs[i], at)
  {
    if devs == [] then [] else [Reading(devs[0], at)] + Readings(devs[1..], at)
  }

  /** A stream that is sending the list, once it has read the rest of it without interference. */
  function ReadAll(h: Health, x: Stream): Stream
    requires x.Listing? && |x.read| <= |h.devs|
  {
    x.(read := x.read + Readings(h.devs[|x.read|..], |h.applied|))
  }

  lemma ReadingsStep(read: seq<Reading>, rest: seq<Dev>, at: nat)
    requires rest != []
    ensures read + [Reading(rest[0], at)] + Readings(rest[1..], at) == read + Readings(rest, at)
  {}

  lemma ReadAllStep(h: Health, x: Stream)
    requires x.Listing? && |x.read| < |h.devs|
    ensures ReadAll(h, ReadOn(x, h)) == ReadAll(h, x)
  {
    var k := |x.read|;
    ReadingsStep(x.read, h.devs[k..], |h.applied|);
    assert h.devs[k..][1..] == h.devs[k + 1..];
  }

  /** No verdict is received on the way from one run to the other. */
  ghost predicate NoReceipt(before: Run, r: Run) {
    forall i | |before.labels| <= i < |r.labels| :: !r.labels[i].Receive?
  }

  lemma {:induction false} FinishReading(before: Run, i: nat) returns (r: Run)
    requires IsRun(before) && !Last(before).panicked && i < |Last(before).streams| && Last(before).streams[i].Listing?
    requires |Last(before).streams[i].read| <= |Last(before).health.devs|
    ensures IsRun(r) && Continues(before, r) && NoReceipt(before, r)
    ensures var s := Last(before); Last(r) == s.(streams := s.streams[i := ReadAll(s.health, s.streams[i])])
    decreases |Last(before).health.devs| - |Last(before).streams[i].read|
  {
    var s := Last(before);
    var x := s.streams[i];
    if |x.read| < |s.health.devs| {
      ReadAllStep(s.health, x);
      var next := Extend(before, Read(i));
      assert Last(next) == s.(streams := s.streams[i := ReadOn(x, s.health)]);
      r := FinishReading(next, i);
      assert Last(next).streams[i := ReadAll(s.health, x)] == s.streams[i := ReadAll(s.health, x)];
    } else {
      r := before;
      assert ReadAll(s.health, x) == x;
      assert s.streams[i := x] == s.streams;
    }
  }

  /** And sends it. */
  lemma FinishListing(before: Run, i: nat) returns (r: Run)
    requires IsRun(before) && !Last(before).panicked && i < |Last(before).streams| && Last(before).streams[i].Listing?
    requires |Last(before).streams[i].read| <= |Last(before).health.devs|
    ensures IsRun(r) && Continues(before, r) && NoReceipt(before, r)
    ensures var s := Last(before);
            Last(r) == s.(streams := s.streams[i := Watching(s.plugin.private)],
                          health := Listed(s.health, ReadAll(s.health, s.streams[i])))
  {
    r := FinishReading(before, i);
    r := Extend(r, Send(i));
    assert Last(r).streams == Last(before).streams[i := Watching(Last(before).plugin.private)];
  }

  /** A stream opens and sends the list. */
  lemma OpenAndWatch(before: Run) returns (r: Run)
    requires IsRun(before) && Enabled(Last(before), OpenStream)
    ensures IsRun(r) && Continues(before, r)
    ensures Last(r) == Last(before).(streams := Last(before).streams + [Watching(Last(before).plugin.private)])
  {
    var s := Last(before);
    r := Extend(before, OpenStream);
    r := FinishListing(r, |s.streams|);
    assert Last(r).streams == s.streams + [Watching(s.plugin.private)];
  }

  predicate SameIds(a: seq<Dev>, b: seq<Dev>) {
    |a| == |b| && forall i | 0 <= i < |a| :: a[i].id == b[i].id
  }

  lemma ApplySameIds(devs: seq<Dev>, v: Verdict)
    ensures SameIds(devs, Apply(devs, v))
  {
    forall i | 0 <= i < |devs| ensures devs[i].id == Apply(devs, v)[i].id {
      ApplyAt(devs, v, i);
    }
  }

  /** Nothing has changed but the streams, the slot and the health of devices. */
  predicate Untouched(s: State, t: State) {
    && t.health.consumed == s.health.consumed && SameIds(s.health.devs, t.health.devs)
    && t.controller == s.controller && t.loops == s.loops && t.closed == s.closed && t.panicked == s.panicked
    && t.plugin.server == s.plugin.server && t.plugin.dropped == s.plugin.dropped
  }

  /** A live stream applies what it holds, sends the list, and is back at its select. */
  lemma WatchAgain(before: Run, i: nat) returns (r: Run)
    requires IsRun(before) && !Last(before).panicked && i < |Last(before).streams| && IsLive(Last(before).streams[i])
    ensures IsRun(r) && Continues(before, r) && Untouched(Last(before), Last(r))
            && Last(r).plugin == Last(before).plugin
    ensures |Last(r).streams| == |Last(before).streams| && Last(r).streams[i].Watching?
  {
    r := before;
    if Last(r).streams[i].Updating? {
      ApplySameIds(Last(r).health.devs, Last(r).streams[i].v);
      r := Extend(r, Update(i));
    }
    if Last(r).streams[i].Listing? {
      if |Last(r).streams[i].read| <= |Last(r).health.devs| {
        r := FinishListing(r, i);
      } else {
        r := Extend(r, Send(i));
      }
    }
  }

  /** A stream is live or can open. */
  predicate CanDrain(s: State) {
    s.plugin.Up() || exists i | 0 <= i < |s.streams| :: IsLive(s.streams[i])
  }

  /** Then some stream can come to its select. */
  lemma SomeoneWatches(before: Run) returns (r: Run, i: nat)
    requires IsRun(before) && !Last(before).panicked && CanDrain(Last(before))
    ensures IsRun(r) && Continues(before, r) && Untouched(Last(before), Last(r))
            && Last(r).plugin == Last(before).plugin
    ensures i < |Last(r).streams| && Last(r).streams[i].Watching?
  {
    var s := Last(before);
    if s.plugin.Up() {
      r := OpenAndWatch(before);
      i := |s.streams|;
    } else {
      i :| 0 <= i < |s.streams| && IsLive(s.streams[i]);
      r := WatchAgain(before, i);
    }
  }

  /** A stream at its select takes the token out of the slot of `term`. */
  lemma EmptySlot(before: Run) returns (r: Run)
    requires IsRun(before) && !Last(before).panicked
    requires Last(before).plugin.token ==> CanDrain(Last(before))
    ensures IsRun(r) && Continues(before, r)
    ensures Untouched(Last(before), Last(r)) && !Last(r).plugin.token
  {
    r := before;
    if Last(before).plugin.token {
      var i;
      r, i := SomeoneWatches(before);
      r := Extend(r, TermEnds(i));
    }
  }

  // ---------------------------------------------------------------- a full slot

  lemma PostsAndToken(s: State, l: Label)
    requires Enabled(s, l)
    ensures Step(s, l).plugin.posts >= s.plugin.posts
    ensures s.plugin.token ==> Step(s, l).plugin.posts == s.plugin.posts && (Step(s, l).plugin.token <==> !l.TermEnds?)
    ensures !s.plugin.token && Step(s, l).plugin.token ==> Step(s, l).plugin.posts > s.plugin.posts
  {
    match l
    case ControllerStep(ok) =>
    case LoopStep(j, ok) =>
    case _ =>
  }

  /** Along any run a token stays, and no Stop gets past its send, until a stream ends by `term`. */
  lemma {:induction false} FullSlotBlocks(r: Run, n: nat)
    requires IsRun(r) && n < |r.states| && r.states[0].plugin.token
    requires forall i | 0 <= i < n :: !r.labels[i].TermEnds?
    ensures r.states[n].plugin.token && r.states[n].plugin.posts == r.states[0].plugin.posts
  {
    if n > 0 {
      FullSlotBlocks(r, n - 1);
      PostsAndToken(r.states[n - 1], r.labels[n - 1]);
    }
  }

  /** From an empty slot the slot stays empty as long as nothing is posted. */
  lemma {:induction false} EmptySlotStays(r: Run, n: nat)
    requires IsRun(r) && n < |r.states| && !r.states[0].plugin.token
    ensures r.states[n].plugin.posts >= r.states[0].plugin.posts
    ensures r.states[n].plugin.posts == r.states[0].plugin.posts ==> !r.states[n].plugin.token
  {
    if n > 0 {
      EmptySlotStays(r, n - 1);
      PostsAndToken(r.states[n - 1], r.labels[n - 1]);
    }
  }

  /** The run opens a stream as its first step, and at step n ends that stream by `term` with no post in between. */
  ghost predicate EndsTheStreamOpened(r: Run, n: nat) {
    && IsRun(r) && n < |r.labels| && r.labels[0] == OpenStream
    && r.labels[n] == TermEnds(|r.states[0].streams|) && r.states[n].plugin.posts == r.states[0].plugin.posts
  }

  /** A stream opened now can be ended by `term` without a further Stop exactly when the slot holds a token now. */
  lemma StaleTokenIff(s: State)
    requires Enabled(s, OpenStream)
    ensures s.plugin.token <==> exists r, n: nat :: RunFrom(s, r) && EndsTheStreamOpened(r, n)
  {
    if s.plugin.token {
      var started := Extend(Here(s), OpenStream);
      var r := FinishListing(started, |s.streams|);
      var ended := Extend(r, TermEnds(|s.streams|));
      assert ended.labels[0] == started.labels[0];
      assert EndsTheStreamOpened(ended, |r.labels|);
    } else {
      if r, n: nat :| RunFrom(s, r) && EndsTheStreamOpened(r, n) {
        EmptySlotStays(r, n);
        assert false;
      }
    }
  }
}
