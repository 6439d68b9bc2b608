/** Sends that block for ever: a verdict no stream will receive, and a Stop whose token no stream will take. */
module ProtocolBlocking {
  import opened Protocol
  import opened ProtocolInvariants
  import opened ProtocolStops
  import opened ProtocolStreams

  lemma NoneLive(s: State, l: Label)
    requires !CanDrain(s) && Enabled(s, l)
    ensures !IsStreamLabel(l)
  {
    assert forall i | 0 <= i < |s.streams| ::
             !s.streams[i].Watching? && !s.streams[i].Updating? && !s.streams[i].Listing? by {
      assert forall i | 0 <= i < |s.streams| :: !IsLive(s.streams[i]);
    }
  }

  // ---------------------------------------------------------------- a health loop

  /** At these statements a health loop waits for somebody else. */
  predicate Waits(l: Loop) {
    l.Sending? || l == InStop(StopPost)
  }

  /** Nobody can come for what the loop sends: no stream is live or can open, and a token to be posted finds one. */
  predicate Unheard(s: State, l: Loop) {
    !CanDrain(s) && (l == InStop(StopPost) ==> s.plugin.token)
  }

  /** The one live loop waits unheard, and nobody is bringing a server up. */
  ghost predicate Frozen(s: State, j: nat, l: Loop) {
    && j < |s.loops| && s.loops[j] == l && Waits(l) && Unheard(s, l) && !s.controller.Starting?
       && s.plugin.server != Fresh
    && forall i | 0 <= i < |s.loops| && i != j :: s.loops[i].Ended?
  }

  lemma FrozenStep(s: State, j: nat, w: Loop, l: Label)
    requires Frozen(s, j, w) && Enabled(s, l)
    ensures Frozen(Step(s, l), j, w)
  {
    NoneLive(s, l);
    StreamsFrame(s, l);
    if !l.ControllerStep? && !l.LoopStep? {
      PluginFrame(s, l);
    }
    match l
    case ControllerStep(ok) =>
    case LoopStep(i, ok) =>
    case _ =>
  }

  lemma {:induction false} FrozenStays(r: Run, n: nat, j: nat, w: Loop)
    requires IsRun(r) && n < |r.states| && Frozen(r.states[0], j, w)
    ensures Frozen(r.states[n], j, w)
  {
    if n > 0 {
      FrozenStays(r, n - 1, j, w);
      FrozenStep(r.states[n - 1], j, w, r.labels[n - 1]);
    }
  }

  ghost predicate StaysAt(r: Run, j: nat, l: Loop) {
    forall n | 0 <= n < |r.states| :: j < |r.states[n].loops| && r.states[n].loops[j] == l
  }

  /** A waiting loop that can be heard moves on. */
  lemma HeardMovesOn(s: State, j: nat) returns (r: Run)
    requires !s.panicked && j < |s.loops| && Waits(s.loops[j]) && !Unheard(s, s.loops[j])
    ensures RunFrom(s, r) && !StaysAt(r, j, s.loops[j])
  {
    r := Here(s);
    if s.loops[j].Sending? {
      var i;
      r, i := SomeoneWatches(r);
      r := Extend(r, Receive(i, j));
    } else {
      r := EmptySlot(r);
      r := Extend(r, LoopStep(j, true));
    }
    assert Last(r).loops[j] != s.loops[j];
  }

  /** Over all runs: a health loop that sends a verdict, or posts in Stop, waits there for ever, deaf to the stop
      channel and to the socket, exactly when no stream is live or can open (and, to post, the slot is full). */
  lemma LoopBlockedIff(devs: seq<Dev>, before: Run, j: nat)
    requires RunFrom(Initial(devs), before) && !Last(before).panicked
    requires j < |Last(before).loops| && Waits(Last(before).loops[j])
    ensures var s := Last(before);
            Unheard(s, s.loops[j]) <==> forall r | RunFrom(s, r) :: StaysAt(r, j, s.loops[j])
  {
    var s := Last(before);
    if Unheard(s, s.loops[j]) {
      SoundKept(devs, before, |before.states| - 1);
      LiveLoopActs(s, j);
      forall r | RunFrom(s, r) ensures StaysAt(r, j, s.loops[j]) {
        forall n | 0 <= n < |r.states| ensures j < |r.states[n].loops| && r.states[n].loops[j] == s.loops[j] {
          FrozenStays(r, n, j, s.loops[j]);
        }
      }
    } else {
      var r := HeardMovesOn(s, j);
    }
  }

  // ---------------------------------------------------------------- the controller

  /** The slot is full, no stream is live or can open, and no restart can bring a server up. */
  predicate Hopeless(s: State) {
    s.plugin.token && !CanDrain(s) && forall j | 0 <= j < |s.loops| :: !Revives(s.plugin.server, s.loops[j])
  }

  predicate ControllerPosting(s: State) {
    s.controller == Stopping(StopPost)
  }

  ghost predicate Hung(s: State) {
    ControllerPosting(s) && Hopeless(s) && s.plugin.server.Nil?
  }

  lemma HungStep(s: State, l: Label)
    requires Hung(s) && Enabled(s, l)
    ensures Hung(Step(s, l))
  {
    NoneLive(s, l);
    StreamsFrame(s, l);
    if !l.ControllerStep? && !l.LoopStep? {
      PluginFrame(s, l);
    }
    match l
    case LoopStep(j, ok) => assert !MayRevive(s.loops[j]);
    case _ =>
  }

  lemma {:induction false} HungStays(r: Run, n: nat)
    requires IsRun(r) && n < |r.states| && Hung(r.states[0])
    ensures Hung(r.states[n])
  {
    if n > 0 {
      HungStays(r, n - 1);
      HungStep(r.states[n - 1], r.labels[n - 1]);
    }
  }

  ghost predicate NeverPosts(r: Run) {
    forall n | 0 <= n < |r.states| :: ControllerPosting(r.states[n])
  }

  lemma ControllerPostsAtLast(s: State) returns (r: Run)
    requires !s.panicked && ControllerPosting(s) && !Hopeless(s)
    ensures RunFrom(s, r) && !NeverPosts(r)
  {
    r := Here(s);
    if s.plugin.token && !CanDrain(s) {
      var j :| 0 <= j < |s.loops| && Revives(s.plugin.server, s.loops[j]);
      r := ReviveRun(s, j);
    }
    r := EmptySlot(r);
    r := Extend(r, ControllerStep(true));
    assert !ControllerPosting(Last(r));
  }

  /** Over all runs: the controller's Stop, past its guard, never completes its send, so that shutdown hangs, exactly
      when the slot is full, no stream is live or can open, and no restart can bring a server up. */
  lemma ControllerHangsIff(devs: seq<Dev>, before: Run)
    requires RunFrom(Initial(devs), before) && !Last(before).panicked && ControllerPosting(Last(before))
    ensures Hopeless(Last(before)) <==> forall r | RunFrom(Last(before), r) :: NeverPosts(r)
  {
    var s := Last(before);
    if Hopeless(s) {
      SoundKept(devs, before, |before.states| - 1);
      assert s.plugin.server.Nil?;
      forall r | RunFrom(s, r) ensures NeverPosts(r) {
        forall n | 0 <= n < |r.states| ensures ControllerPosting(r.states[n]) {
          HungStays(r, n);
        }
      }
    } else {
      var r := ControllerPostsAtLast(s);
    }
  }
}
