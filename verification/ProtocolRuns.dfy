/** Runs that show where the protocol's guarantees end: what goes wrong when a restart and the controller's Stop
    interleave, when two streams are live, and when `term` still holds a token at the time a stream opens. */
module ProtocolRuns {
  import opened Protocol
  import opened ProtocolBlocking
  import opened ProtocolMixing
  import opened ProtocolStops
  import opened ProtocolStreams
  import opened Text

  const GO := ControllerStep(true)

  function Go(j: nat): Label {
    LoopStep(j, true)
  }

  /** The plugin once its server serves for the first time. */
  const UP := Plugin(Serving, 0, false, false, 0)

  function Fine(devs: seq<Dev>): Health {
    Health(devs, [], [], [], [])
  }

  /** The controller's Start up to its registration. */
  lemma Registering(devs: seq<Dev>) returns (r: Run)
    ensures RunFrom(Initial(devs), r)
    ensures Last(r) == State(UP, false, false, Starting(StartRegister), [], [], Fine(devs))
  {
    r := Extend(Here(Initial(devs)), GO);
    r := Extend(r, GO);
    r := Extend(r, GO);
    r := Extend(r, GO);
  }

  /** A registration can fail, so there are runs that leave a server nobody will take down. */
  lemma RegistrationFails(devs: seq<Dev>) returns (r: Run)
    ensures RunFrom(Initial(devs), r)
    ensures Last(r) == State(UP, false, false, Aborted, [], [], Fine(devs)) && OutOfReach(Last(r))
            && NoLiveLoop(Last(r))
  {
    r := Registering(devs);
    r := Extend(r, ControllerStep(false));
  }

  /** The controller's Start succeeds and its health loop reaches the event loop. */
  function Running(devs: seq<Dev>): State {
    State(UP, false, false, Waiting, [Select(false)], [], Fine(devs))
  }

  lemma StartUp(devs: seq<Dev>) returns (r: Run)
    ensures RunFrom(Initial(devs), r) && Last(r) == Running(devs)
  {
    r := Registering(devs);
    r := Extend(r, GO);
    r := Extend(r, Go(0));
    assert Last(r).loops == [Select(false)];
  }

  /** The plugin is running, and the health loop has just passed the guard of restart. */
  lemma RestartBegins(devs: seq<Dev>) returns (r: Run)
    ensures RunFrom(Initial(devs), r) && Last(r) == Running(devs).(loops := [InStop(StopGuard)])
  {
    r := StartUp(devs);
    r := Extend(r, SocketRemoved(0));
    r := Extend(r, Go(0));
    assert Last(r).loops == [InStop(StopGuard)];
  }

  // ---------------------------------------------------------------- a server that comes back

  /** Meanwhile the controller has stopped the plugin. */
  lemma StoppedMidRestart(devs: seq<Dev>) returns (r: Run)
    ensures RunFrom(Initial(devs), r)
    ensures Last(r) == State(Plugin(Nil, 0, true, false, 1), true, false, Finished, [InStop(StopGuard)], [], Fine(devs))
  {
    r := RestartBegins(devs);
    r := Extend(r, CloseStop);
    r := Extend(r, GO);
    r := Extend(r, GO);
    r := Extend(r, GO);
    r := Extend(r, GO);
    r := Extend(r, GO);
  }

  /** A restart caught past its guard brings the server back after the controller has taken it down for good. */
  lemma RevivedAfterShutdown(devs: seq<Dev>) returns (r: Run, n: nat)
    ensures RunFrom(Initial(devs), r) && n < |r.states|
    ensures r.states[n].controller == Finished && !r.states[n].plugin.Up() && r.states[n].loops == [InStop(StopGuard)]
    ensures Last(r).plugin.Up() && !Last(r).panicked
  {
    r := StoppedMidRestart(devs);
    n := |r.states| - 1;
    r := Extend(r, Go(0));
    r := StartServes(r, 0);
  }

  /** The restart has posted, a stream has taken its token, and it is about to stop the server. */
  lemma RestartPosted(devs: seq<Dev>) returns (r: Run)
    ensures RunFrom(Initial(devs), r)
    ensures Last(r) ==
              State(Plugin(Serving, 0, false, false, 1), false, false, Waiting, [InStop(StopServer)], [EndedByTerm],
                             Fine(devs))
  {
    r := RestartBegins(devs);
    r := OpenAndWatch(r);
    r := Extend(r, Go(0));
    r := Extend(r, Go(0));
    r := Extend(r, TermEnds(0));
    assert Last(r).loops == [InStop(StopServer)] && Last(r).streams == [EndedByTerm];
  }

  /** And so has the controller. */
  lemma BothPosted(devs: seq<Dev>) returns (r: Run)
    ensures RunFrom(Initial(devs), r)
    ensures Last(r) ==
              State(Plugin(Serving, 0, true, false, 2), true, false, Stopping(StopServer), [InStop(StopServer)],
                             [EndedByTerm], Fine(devs))
  {
    r := RestartPosted(devs);
    r := Extend(r, CloseStop);
    r := Extend(r, GO);
    r := Extend(r, GO);
    r := Extend(r, GO);
  }

  /** Both have stopped the same server, and neither has cleared the field. */
  lemma BothStopped(devs: seq<Dev>) returns (r: Run)
    ensures RunFrom(Initial(devs), r)
    ensures Last(r) == State(Plugin(Halted, 0, true, false, 2), true, false, Stopping(StopClear), [InStop(StopClear)],
                             [EndedByTerm], Fine(devs))
  {
    r := BothPosted(devs);
    r := Extend(r, Go(0));
    r := Extend(r, GO);
    assert Last(r).loops == [InStop(StopClear)];
  }

  /** The controller finishes while the restart is still inside the server's own stop; the server comes back. */
  lemma RevivedFromInsideStop(devs: seq<Dev>) returns (r: Run, n: nat)
    ensures RunFrom(Initial(devs), r) && n < |r.states|
    ensures r.states[n].controller == Finished && !r.states[n].plugin.Up() && r.states[n].loops == [InStop(StopClear)]
    ensures Last(r).plugin.Up() && !Last(r).panicked
  {
    r := BothStopped(devs);
    r := Extend(r, GO);
    n := |r.states| - 1;
    r := Extend(r, Go(0));
    r := StartServes(r, 0);
  }

  /** The restart gets to serve before the controller clears the field: the new server is lost to the field. */
  lemma NewServerDropped(devs: seq<Dev>) returns (r: Run)
    ensures RunFrom(Initial(devs), r)
    ensures Last(r).controller == Finished && Last(r).plugin.server.Nil? && Last(r).plugin.dropped == 1
            && !Last(r).panicked
  {
    r := BothStopped(devs);
    r := Extend(r, Go(0));
    r := StartServes(r, 0);
    r := Extend(r, GO);
  }

  // ---------------------------------------------------------------- a field cleared too early

  /** Two Stops past their guards: the second finds the server nil and the process panics. */
  lemma PanicOnNilServer(devs: seq<Dev>) returns (r: Run)
    ensures RunFrom(Initial(devs), r) && Last(r).panicked && Last(r).controller == Stopping(StopServer)
  {
    r := BothPosted(devs);
    r := Extend(r, Go(0));
    r := Extend(r, Go(0));
    r := Extend(r, GO);
  }

  /** The controller clears the field between a restart's creation of the new server and its use. */
  lemma PanicOnNewServer(devs: seq<Dev>) returns (r: Run)
    ensures RunFrom(Initial(devs), r) && Last(r).panicked && Last(r).loops == [InStart(StartServe)]
  {
    r := BothStopped(devs);
    r := Extend(r, Go(0));
    r := StartCreates(r, 0);
    r := Extend(r, GO);
    r := Extend(r, Go(0));
    assert Last(r).loops == [InStart(StartServe)];
  }

  // ---------------------------------------------------------------- two live streams

  /** Two streams are live, and each holds one of two verdicts. */
  lemma BothUpdating(devs: seq<Dev>, v: Verdict, w: Verdict) returns (r: Run)
    requires Known(devs, v.id) && Known(devs, w.id)
    ensures RunFrom(Initial(devs), r)
    ensures Last(r) == State(UP, false, false, Waiting, [Select(false)], [Updating(v), Updating(w)],
                             Health(devs, [v, w], [v, w], [], []))
  {
    r := StartUp(devs);
    r := OpenAndWatch(r);
    r := OpenAndWatch(r);
    r := Extend(r, DeviceEvent(0, v));
    r := Extend(r, Receive(0, 0));
    assert Last(r).loops == [Select(false)] && Last(r).streams == [Updating(v), Watching(false)];
    r := Extend(r, DeviceEvent(0, w));
    r := Extend(r, Receive(1, 0));
    assert Last(r).loops == [Select(false)] && Last(r).streams == [Updating(v), Updating(w)];
    assert Last(r).health.consumed == [v, w] && Last(r).health.delivered == [v, w];
  }

  /** With two live streams the verdicts can be applied in the opposite order to their delivery, and the device
      list is left showing the older one. */
  lemma SwappedUpdates() returns (r: Run)
    ensures RunFrom(Initial([Dev("8", true)]), r)
    ensures var h := Last(r).health;
            && h.delivered == [Verdict("8", false), Verdict("8", true)]
            && h.applied == [Verdict("8", true), Verdict("8", false)]
            && h.devs == [Dev("8", false)]
  {
    var devs := [Dev("8", true)];
    var bad, good := Verdict("8", false), Verdict("8", true);
    assert devs[0].id == "8";
    r := BothUpdating(devs, bad, good);
    r := Extend(r, Update(1));
    r := Extend(r, Update(0));
    ApplyAt(devs, good, 0);
    ApplyAt(Apply(devs, good), bad, 0);
  }

  /** Both have applied their verdicts in order, and neither has read the list. */
  lemma BothApplied(devs: seq<Dev>, v: Verdict, w: Verdict) returns (r: Run)
    requires Known(devs, v.id) && Known(devs, w.id)
    ensures RunFrom(Initial(devs), r)
    ensures Last(r) ==
              State(UP, false, false, Waiting, [Select(false)], [Listing(Some(v), 1, []), Listing(Some(w), 2, [])],
                             Health(Apply(Apply(devs, v), w), [v, w], [v, w], [v, w], []))
  {
    r := BothUpdating(devs, v, w);
    r := Extend(r, Update(0));
    assert Last(r).streams == [Listing(Some(v), 1, []), Updating(w)];
    r := Extend(r, Update(1));
    assert Last(r).streams == [Listing(Some(v), 1, []), Listing(Some(w), 2, [])];
    assert Last(r).health.applied == [v, w];
  }

  /** Although both verdicts are received, applied and answered in order, the first list sent shows both. */
  lemma FirstListShowsBoth(devs: seq<Dev>, v: Verdict, w: Verdict) returns (r: Run)
    requires Known(devs, v.id) && Known(devs, w.id)
    ensures RunFrom(Initial(devs), r)
    ensures var h := Last(r).health;
            && h.consumed == h.delivered == h.applied == [v, w]
            && h.updates == [Sent(v, 1, Readings(Apply(Apply(devs, v), w), 2))]
  {
    r := BothApplied(devs, v, w);
    ReadFromStart(Last(r).health, Last(r).streams[0]);
    r := FinishListing(r, 0);
  }

  // ---------------------------------------------------------------- a token left behind

  /** The restart has stopped the old server, without a stream to take its token, and is about to start a new one. */
  lemma RestartHasStopped(devs: seq<Dev>) returns (r: Run)
    ensures RunFrom(Initial(devs), r)
    ensures Last(r) == Running(devs).(plugin := Plugin(Nil, 0, true, false, 1), loops := [InStart(StartGuard)])
  {
    r := RestartBegins(devs);
    r := Extend(r, Go(0));
    assert Last(r).loops == [InStop(StopPost)];
    r := Extend(r, Go(0));
    assert Last(r).loops == [InStop(StopServer)];
    r := Extend(r, Go(0));
    assert Last(r).loops == [InStop(StopClear)];
    r := Extend(r, Go(0));
    assert Last(r).loops == [InStart(StartGuard)];
  }

  lemma RestartHasFinished(devs: seq<Dev>) returns (r: Run)
    ensures RunFrom(Initial(devs), r) && Last(r).loops == [Ended, Setup] && Last(r).streams == []
    ensures Last(r).plugin.server.Serving? && Last(r).plugin.token && !Last(r).panicked
  {
    r := RestartHasStopped(devs);
    r := StartServes(r, 0);
    assert Last(r).loops == [InStart(StartRegister)];
    r := Extend(r, Go(0));
    assert Last(r).loops == [Ended, Setup];
  }

  /** A restart that found no stream leaves its token behind; a stream served by the restarted server is ended by it. */
  lemma StaleTokenEndsNewStream(devs: seq<Dev>) returns (r: Run, n: nat)
    ensures RunFrom(Initial(devs), r) && n < |r.labels| && r.labels[n] == OpenStream
    ensures var t := r.states[n];
            && t.loops == [Ended, Setup] && t.plugin.server.Serving? && t.plugin.token && t.streams == []
            && Last(r).streams == [EndedByTerm] && Last(r).plugin.posts == t.plugin.posts
  {
    r := RestartHasFinished(devs);
    n := |r.labels|;
    var s := Last(r);
    var started := Extend(r, OpenStream);
    r := FinishListing(started, 0);
    assert r.labels[n] == started.labels[n] && r.states[n] == started.states[n] == s;
    r := Extend(r, TermEnds(0));
  }

  // ---------------------------------------------------------------- a shutdown that hangs

  /** The controller and a restart have both passed the guard of Stop. */
  lemma BothPastGuard(devs: seq<Dev>) returns (r: Run)
    ensures RunFrom(Initial(devs), r)
    ensures Last(r) == State(UP, true, false, Stopping(StopPost), [InStop(StopPost)], [], Fine(devs))
  {
    r := RestartBegins(devs);
    r := Extend(r, CloseStop);
    r := Extend(r, GO);
    r := Extend(r, GO);
    r := Extend(r, Go(0));
    assert Last(r).loops == [InStop(StopPost)];
  }

  /** The restart posts and takes the server down, and its listen fails: the controller's send will never complete. */
  lemma ShutdownHangs(devs: seq<Dev>) returns (r: Run)
    ensures RunFrom(Initial(devs), r) && !Last(r).panicked && ControllerPosting(Last(r)) && Hopeless(Last(r))
  {
    r := BothPastGuard(devs);
    r := Extend(r, Go(0));
    r := Extend(r, Go(0));
    r := Extend(r, Go(0));
    assert Last(r).loops == [InStart(StartGuard)];
    r := Extend(r, Go(0));
    r := Extend(r, LoopStep(0, false));
    assert Last(r).loops == [Ended];
  }
}
