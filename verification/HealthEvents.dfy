/** File-system events and the health they bring about: what the health check makes of the events it reads, and that a
    run of the protocol takes the same events in the same way. */
module HealthEvents {
  import opened Discovery
  import opened PluginServer
  import opened Protocol
  import opened ProtocolStreams
  import opened Publishing
  import opened Text

  // ---------------------------------------------------------------- the last event decides

  /** The event says that the path has appeared, or that it has gone. */
  predicate Announces(e: Input, p: Path) {
    e.FsEvent? && e.name == p && (e.op == Create || e.op == Remove || e.op == Rename)
  }

  /** The last such event of this path is at n. */
  predicate LastAt(inputs: seq<Input>, p: Path, n: int) {
    0 <= n < |inputs| && Announces(inputs[n], p) && forall m | n < m < |inputs| :: !Announces(inputs[m], p)
  }

  /** One event more, as it bears on one device. */
  lemma VerdictLogSnoc(paths: map<Path, string>, init: seq<Input>, last: Input, id: string, before: bool)
    ensures var log, log' := VerdictLog(paths, init), VerdictLog(paths, init + [last]);
            LastVerdict(log', id, before) ==
              if last.FsEvent? && last.name in paths && Announces(last, last.name) && paths[last.name] == id
              then last.op == Create else LastVerdict(log, id, before)
  {
    var log, log' := VerdictLog(paths, init), VerdictLog(paths, init + [last]);
    assert (init + [last])[..|init|] == init;
    if log' != log {
      assert log'[..|log'| - 1] == log;
    }
  }

  /** From the last event on nothing changes the verdict. */
  lemma {:induction false} SinceLast(paths: map<Path, string>, inputs: seq<Input>, p: Path, n: nat, before: bool)
    requires p in paths && (forall q | q in paths && paths[q] == paths[p] :: q == p) && LastAt(inputs, p, n)
    ensures LastVerdict(VerdictLog(paths, inputs), paths[p], before) == (inputs[n].op == Create)
  {
    var init, last := inputs[..|inputs| - 1], inputs[|inputs| - 1];
    assert inputs == init + [last];
    VerdictLogSnoc(paths, init, last, paths[p], before);
    if n < |init| {
      SinceLast(paths, init, p, n, before);
    }
  }

  lemma {:induction false} NoneYet(paths: map<Path, string>, inputs: seq<Input>, p: Path, before: bool)
    requires p in paths && forall q | q in paths && paths[q] == paths[p] :: q == p
    requires forall n | 0 <= n < |inputs| :: !Announces(inputs[n], p)
    ensures LastVerdict(VerdictLog(paths, inputs), paths[p], before) == before
  {
    if inputs != [] {
      var init, last := inputs[..|inputs| - 1], inputs[|inputs| - 1];
      assert inputs == init + [last];
      VerdictLogSnoc(paths, init, last, paths[p], before);
      NoneYet(paths, init, p, before);
    }
  }

  /** The health of a device watched under one path is that of the last event there that says anything: healthy after a
      creation, unhealthy after a removal or a renaming, and as before where there has been none. */
  lemma LastEventDecides(paths: map<Path, string>, inputs: seq<Input>, p: Path, before: bool)
    requires p in paths && forall q | q in paths && paths[q] == paths[p] :: q == p
    ensures forall n | LastAt(inputs, p, n) ::
              LastVerdict(VerdictLog(paths, inputs), paths[p], before) == (inputs[n].op == Create)
    ensures (forall n | 0 <= n < |inputs| :: !Announces(inputs[n], p)) ==>
              LastVerdict(VerdictLog(paths, inputs), paths[p], before) == before
  {
    forall n | LastAt(inputs, p, n)
      ensures LastVerdict(VerdictLog(paths, inputs), paths[p], before) == (inputs[n].op == Create) {
      SinceLast(paths, inputs, p, n, before);
    }
    if forall n | 0 <= n < |inputs| :: !Announces(inputs[n], p) {
      NoneYet(paths, inputs, p, before);
    }
  }

  function AnnouncedCount(paths: map<Path, string>, inputs: seq<Input>): nat {
    if inputs == [] then 0 else
      var last := inputs[|inputs| - 1];
      AnnouncedCount(paths, inputs[..|inputs| - 1])
      + if last.FsEvent? && last.name in paths && Announces(last, last.name) then 1 else 0
  }

  /** One verdict for each such event at a watched path. */
  lemma {:induction false} OneVerdictEach(paths: map<Path, string>, inputs: seq<Input>)
    ensures |VerdictLog(paths, inputs)| == AnnouncedCount(paths, inputs)
  {
    if inputs != [] {
      OneVerdictEach(paths, inputs[..|inputs| - 1]);
    }
  }

  /** For every device of a plugin built from discovery, under the path that the plugin watches for it. */
  lemma DiscoveredHealth(ix: Index, fd: bool, devs: seq<PciDevice>, id: string, k: string, inputs: seq<Input>,
                         before: bool)
    requires SpecifiedBy(ix, fd, devs) && HandlesAreNames(devs) && Lists(ix, id, k)
    ensures var log := VerdictLog(PathDeviceMap(DeviceDir(fd), fd, Advertise(ix.deviceMap[id])), inputs);
            var p := WatchPath(DeviceDir(fd), fd, k);
            && (forall n | LastAt(inputs, p, n) :: LastVerdict(log, k, before) == (inputs[n].op == Create))
            && ((forall n | 0 <= n < |inputs| :: !Announces(inputs[n], p)) ==> LastVerdict(log, k, before) == before)
  {
    WatchBijection(ix, fd, devs, id);
    var paths, p := PathDeviceMap(DeviceDir(fd), fd, Advertise(ix.deviceMap[id])), WatchPath(DeviceDir(fd), fd, k);
    assert p in paths && paths[p] == k;
    LastEventDecides(paths, inputs, p, before);
  }

  // ---------------------------------------------------------------- the same events in a run

  /** Health loop j has taken the event without ending: it has consumed the verdict, if the event brings one, and is
      back at its select. */
  lemma TakeEvent(before: Run, j: nat, paths: map<Path, string>, e: Input) returns (r: Run)
    requires IsRun(before) && !Last(before).panicked && CanDrain(Last(before))
    requires j < |Last(before).loops| && Last(before).loops[j].Select?
    requires e.FsEvent? && VerdictOf(paths, e).Some? ==> Known(Last(before).health.devs, VerdictOf(paths, e).value.id)
    ensures IsRun(r) && Continues(before, r) && !Last(r).panicked && CanDrain(Last(r))
    ensures j < |Last(r).loops| && Last(r).loops[j].Select? && SameIds(Last(before).health.devs, Last(r).health.devs)
    ensures Last(r).health.consumed == Last(before).health.consumed
            + if VerdictOf(paths, e).Some? then [VerdictOf(paths, e).value] else []
  {
    if VerdictOf(paths, e).None? {
      r := Extend(before, OtherEvent(j));
      assert Last(r).streams == Last(before).streams;
    } else {
      var v := VerdictOf(paths, e).value;
      var i;
      r := Extend(before, DeviceEvent(j, v));
      assert Last(r).streams == Last(before).streams;
      r, i := SomeoneWatches(r);
      r := Extend(r, Receive(i, j));
      assert IsLive(Last(r).streams[i]);
    }
  }

  lemma KnownSame(a: seq<Dev>, b: seq<Dev>, id: string)
    requires SameIds(a, b) && Known(a, id)
    ensures Known(b, id)
  {
    var i :| 0 <= i < |a| && a[i].id == id;
    assert b[i].id == id;
  }

  /** A run can take any events that do not end the loop one after the other, ending at its select, and consumes exactly
      the verdicts the health check makes of them; so the two agree on what an event does. */
  lemma {:induction false} TakeEvents(before: Run, j: nat, paths: map<Path, string>, socket: Path, inputs: seq<Input>)
    returns (r: Run)
    requires IsRun(before) && !Last(before).panicked && CanDrain(Last(before))
    requires j < |Last(before).loops| && Last(before).loops[j].Select?
    requires forall n | 0 <= n < |inputs| :: !EndsLoop(paths, socket, inputs[n])
    requires forall n | 0 <= n < |VerdictLog(paths, inputs)| ::
               Known(Last(before).health.devs, VerdictLog(paths, inputs)[n].id)
    ensures IsRun(r) && Continues(before, r) && !Last(r).panicked && CanDrain(Last(r))
    ensures j < |Last(r).loops| && Last(r).loops[j].Select? && SameIds(Last(before).health.devs, Last(r).health.devs)
    ensures Last(r).health.consumed == Last(before).health.consumed + VerdictLog(paths, inputs)
  {
    if inputs == [] {
      r := before;
    } else {
      var init, last := inputs[..|inputs| - 1], inputs[|inputs| - 1];
      var log := VerdictLog(paths, inputs);
      assert forall n | 0 <= n < |VerdictLog(paths, init)| :: VerdictLog(paths, init)[n] == log[n];
      r := TakeEvents(before, j, paths, socket, init);
      if VerdictOf(paths, last).Some? {
        assert Known(Last(before).health.devs, log[|log| - 1].id);
        KnownSame(Last(before).health.devs, Last(r).health.devs, log[|log| - 1].id);
      }
      r := TakeEvent(r, j, paths, last);
    }
  }
}
