// Stopping a software TPM, internal/provider/swtpm_resource.go. A process monitor
// restarts swtpm whenever it exits, and the provider watches and stops both through
// separate, non-atomic calls.
module Swtpm {
  import opened Wrappers

  type Pid = nat

  const POLL_INTERVAL: nat := 200 // milliseconds, like every time below
  const START_TIMEOUT: nat := 10000
  const STOP_TIMEOUT: nat := 5000
  const KILL_TIMEOUT: nat := 2000

  // The live monitor and swtpm, the next unused PID, the resource directory, the clock.
  datatype World = World(monitor: Option<Pid>, swtpm: Option<Pid>, next: Pid, dir: bool, now: int)

  predicate Dead(w: World) {
    w.monitor.None? && w.swtpm.None?
  }

  // One thing that can happen on its own, at any moment.
  predicate EnvStep(w: World, w': World) {
    || (w' == w.(now := w'.now) && w'.now >= w.now)
    || w' == w.(monitor := None)
    || w' == w.(swtpm := None)
    || (w.monitor.Some? && w.swtpm.None? && w' == w.(swtpm := Some(w.next), next := w.next + 1))
  }

  ghost predicate IsRun(run: seq<World>) {
    run != [] && forall i :: 0 < i < |run| ==> EnvStep(run[i - 1], run[i])
  }

  // What any number of such steps amounts to.
  predicate Later(w: World, w': World) {
    && w'.now >= w.now && w'.dir == w.dir && w'.next >= w.next
    && (w'.monitor == w.monitor || w'.monitor.None?)
    && (w'.swtpm == w.swtpm || w'.swtpm.None? || (w.monitor.Some? && w'.swtpm.value >= w.next))
  }

  lemma StepIsLater(w: World, w': World)
    requires EnvStep(w, w')
    ensures Later(w, w')
  {
  }

  lemma LaterTransitive(a: World, b: World, c: World)
    requires Later(a, b) && Later(b, c)
    ensures Later(a, c)
  {
  }

  lemma {:induction false} RunIsLater(run: seq<World>, i: nat, j: nat)
    requires IsRun(run) && i <= j < |run|
    ensures Later(run[i], run[j])
    decreases j - i
  {
    if i < j {
      RunIsLater(run, i, j - 1);
      assert EnvStep(run[j - 1], run[j]);
    }
  }

  // A monitor seen dead before swtpm is seen dead: both are dead then and ever after,
  // whatever happened between the two observations.
  lemma MonitorFirst(run: seq<World>, i: nat, j: nat, k: nat)
    requires IsRun(run) && i <= j <= k < |run|
    requires run[i].monitor.None? && run[j].swtpm.None?
    ensures Dead(run[j]) && Dead(run[k])
  {
    RunIsLater(run, i, j);
    RunIsLater(run, j, k);
  }

  // The other order proves nothing.
  lemma SwtpmFirstIsNotEnough()
    ensures exists run: seq<World>, i: nat, j: nat | i <= j < |run| ::
      IsRun(run) && run[i].swtpm.None? && run[j].monitor.None? && !Dead(run[j])
  {
    var w := World(Some(1), None, 2, true, 0);
    var run := [w, w.(swtpm := Some(2), next := 3), World(None, Some(2), 3, true, 0)];
    assert EnvStep(run[0], run[1]) && EnvStep(run[1], run[2]);
    assert IsRun(run) && run[0].swtpm.None? && run[2].monitor.None? && !Dead(run[2]);
  }

  predicate Orphan(w: World) {
    w.monitor.None? && w.swtpm.Some?
  }

  // An orphan can come of any world but one where both are dead already.
  lemma OrphanReachableIff(w: World)
    ensures (exists run :: IsRun(run) && run[0] == w && Orphan(run[|run| - 1])) <==> !Dead(w)
  {
    if Dead(w) {
      forall run | IsRun(run) && run[0] == w
        ensures !Orphan(run[|run| - 1])
      {
        RunIsLater(run, 0, |run| - 1);
      }
    } else {
      var alone := [w];
      var both := w.(swtpm := Some(w.next), next := w.next + 1);
      var run :=
        if w.monitor.None? then alone
        else if w.swtpm.Some? then alone + [w.(monitor := None)]
        else alone + [both] + [both.(monitor := None)];
      assert forall i :: 0 < i < |run| ==> EnvStep(run[i - 1], run[i]);
      assert IsRun(run) && run[0] == w && Orphan(run[|run| - 1]);
    }
  }

  datatype Signal = SIGTERM | SIGKILL
  datatype Error = NoDirectory | CannotKill | StillRunning | NotReady | StartFailed | RemoveFailed
  datatype RunState = Running | Stopped

  // What a PID read saw, or a look for swtpm's socket.
  datatype Look = AtMonitor(w: World) | AtSwTPM(w: World) | AtSocket(w: World, there: bool)

  predicate SeesLife(look: Look) {
    if look.AtMonitor? then look.w.monitor.Some? else look.w.swtpm.Some?
  }

  function Victim(look: Look): seq<Pid> {
    var p := if look.AtMonitor? then look.w.monitor else look.w.swtpm;
    if p.Some? then [p.value] else []
  }

  // Whom a first poll asks to stop.
  function Asked(monitor: Look, swtpm: Look): seq<Pid> {
    if SeesLife(monitor) then Victim(monitor) else Victim(swtpm)
  }

  // A poll of both processes, monitor first.
  predicate IsPoll(looks: seq<Look>, i: nat) {
    i + 1 < |looks| && looks[i].AtMonitor? && looks[i + 1].AtSwTPM?
  }

  // Polls of swtpm: each that finds it alive is followed by a look for its socket, and the
  // first socket found is the end.
  predicate Readied(looks: seq<Look>, ready: bool) {
    && (forall i :: 0 <= i < |looks| ==> looks[i].AtSwTPM? || (looks[i].AtSocket? && i > 0))
    && (forall i :: 0 <= i < |looks| && looks[i].AtSwTPM? && SeesLife(looks[i]) ==> i + 1 < |looks| && looks[i + 1].AtSocket?)
    && (forall i :: 0 < i < |looks| && looks[i].AtSocket? ==> looks[i - 1].AtSwTPM? && SeesLife(looks[i - 1]))
    && (forall i :: 0 <= i < |looks| && looks[i].AtSocket? && looks[i].there ==> ready && i == |looks| - 1)
    && (ready ==> looks != [] && looks[|looks| - 1].AtSocket? && looks[|looks| - 1].there)
  }

  lemma ReadiedNext(looks: seq<Look>, more: seq<Look>)
    requires Readied(looks, false) && more != [] && more[0].AtSwTPM?
    requires if SeesLife(more[0]) then |more| == 2 && more[1].AtSocket? else |more| == 1
    ensures Readied(looks + more, |more| == 2 && more[1].there)
  {
  }

  // The processes that poll i found alive were killed, one of them at least; the last
  // poll still found one alive, and by `now` the time for that is over.
  ghost predicate Outlived(looks: seq<Look>, kills: seq<Pid>, i: nat, now: int) {
    && IsPoll(looks, i) && i + 3 < |looks| && IsPoll(looks, |looks| - 2)
    && kills == Victim(looks[i]) + Victim(looks[i + 1]) && kills != []
    && (SeesLife(looks[|looks| - 2]) || SeesLife(looks[|looks| - 1]))
    && now > looks[i + 1].w.now + KILL_TIMEOUT
  }

  lemma OutlivedLater(before: seq<Look>, looks: seq<Look>, kills: seq<Pid>, i: nat, now: int)
    requires Outlived(looks, kills, i, now)
    ensures Outlived(before + looks, kills, |before| + i, now)
  {
    var all := before + looks;
    assert forall k :: 0 <= k < |looks| ==> all[|before| + k] == looks[k];
  }

  class SwTPM {
    var w: World
    ghost var seen: seq<Look>
    ghost var asked: seq<Pid>  // processes a SIGTERM was sent to, delivered or not
    ghost var killed: seq<Pid> // processes a SIGKILL was delivered to
    ghost var failedKills: nat // SIGKILLs that were not delivered
    ghost var outlived: nat    // stops that gave up on killed processes
    ghost var started: nat     // monitors started
    ghost var failedStarts: nat
    ghost var failedRemovals: nat

    // The resource directory is gone only when both processes are.
    ghost predicate Valid()
      reads this
    {
      w.dir || Dead(w)
    }

    constructor (now: int)
      ensures Valid() && !w.dir
    {
      w, seen, asked, killed := World(None, None, 0, false, now), [], [], [];
      failedKills, outlived, started, failedStarts, failedRemovals := 0, 0, 0, 0, 0;
    }

    // The world moves on by any number of steps of its own.
    method Elapse()
      modifies this`w
      ensures Later(old(w), w)
    {
      var steps: nat := *;
      while steps > 0
        invariant Later(old(w), w)
      {
        assert EnvStep(w, w);
        var w' :| EnvStep(w, w');
        StepIsLater(w, w');
        LaterTransitive(old(w), w, w');
        w, steps := w', steps - 1;
      }
    }

    method Sleep(ms: nat)
      modifies this`w
      ensures Later(old(w), w) && w.now >= old(w).now + ms
    {
      Elapse();
      w := w.(now := w.now + ms);
    }

    method ReadMonitorPID() returns (running: bool, pid: Pid)
      modifies this`w, this`seen
      ensures Later(old(w), w) && w.monitor == if running then Some(pid) else None
      ensures seen == old(seen) + [AtMonitor(w)]
    {
      Elapse();
      running, pid := w.monitor.Some?, if w.monitor.Some? then w.monitor.value else 0;
      seen := seen + [AtMonitor(w)];
    }

    method ReadSwTPMPID() returns (running: bool, pid: Pid)
      modifies this`w, this`seen
      ensures Later(old(w), w) && w.swtpm == if running then Some(pid) else None
      ensures seen == old(seen) + [AtSwTPM(w)]
    {
      Elapse();
      running, pid := w.swtpm.Some?, if w.swtpm.Some? then w.swtpm.value else 0;
      seen := seen + [AtSwTPM(w)];
    }

    method StatSocket() returns (there: bool)
      modifies this`w, this`seen
      ensures Later(old(w), w) && seen == old(seen) + [AtSocket(w, there)]
    {
      Elapse();
      there := *;
      seen := seen + [AtSocket(w, there)];
    }

    // Sends a signal; what it does is up to later steps of the world. Sending can fail, and
    // does when the process is gone.
    method Kill(pid: Pid, sig: Signal) returns (ok: bool)
      modifies this`w, this`asked, this`killed, this`failedKills
      ensures Later(old(w), w)
      ensures asked == old(asked) + if sig == SIGTERM then [pid] else []
      ensures killed == old(killed) + if sig == SIGKILL && ok then [pid] else []
      ensures failedKills == old(failedKills) + if sig == SIGKILL && !ok then 1 else 0
    {
      Elapse();
      ok := *;
      ok := ok && (w.monitor == Some(pid) || w.swtpm == Some(pid));
      if sig == SIGKILL {
        if ok {
          killed := killed + [pid];
        } else {
          failedKills := failedKills + 1;
        }
      } else {
        asked := asked + [pid];
      }
    }

    // The last poll decides. It found both dead, or one alive when the time was over.
    method WaitSwTPMGone(timeout: nat) returns (gone: bool)
      modifies this`w, this`seen
      ensures Later(old(w), w)
      ensures gone ==> Dead(w)
      ensures Dead(old(w)) ==> gone
      ensures old(seen) <= seen && |seen| >= |old(seen)| + 2 && IsPoll(seen, |seen| - 2)
      ensures gone <==> !SeesLife(seen[|seen| - 2]) && !SeesLife(seen[|seen| - 1])
      ensures !gone ==> w.now > old(w).now + timeout
    {
      var deadline := w.now + timeout;
      while true
        invariant Later(old(w), w) && old(seen) <= seen
        decreases deadline - w.now
      {
        var pmRunning, _ := ReadMonitorPID();
        var swRunning, _ := ReadSwTPMPID();
        if !pmRunning && !swRunning {
          return true;
        }
        Elapse();
        if w.now > deadline {
          return false;
        }
        Sleep(POLL_INTERVAL);
      }
    }

    // Success means both processes are dead at once. Otherwise a SIGKILL could not be
    // delivered, or all of them were and a process outlived the time it was given.
    method StopSwTPM() returns (err: Option<Error>)
      modifies this`w, this`seen, this`asked, this`killed, this`failedKills, this`outlived
      ensures Later(old(w), w)
      // The monitor, or an swtpm alone, is asked first and has its time before any kill.
      ensures |seen| >= |old(seen)| + 2 && IsPoll(seen, |old(seen)|)
      ensures asked == old(asked) + Asked(seen[|old(seen)|], seen[|old(seen)| + 1])
      ensures Asked(seen[|old(seen)|], seen[|old(seen)| + 1]) == [] ==> |seen| == |old(seen)| + 2
      ensures killed != old(killed) || err.Some? ==> w.now > old(w).now + STOP_TIMEOUT
      ensures err.None? ==> Dead(w)
      ensures err in {None, Some(CannotKill), Some(StillRunning)}
      ensures failedKills == old(failedKills) + if err == Some(CannotKill) then 1 else 0
      ensures outlived == old(outlived) + if err == Some(StillRunning) then 1 else 0
      ensures old(seen) <= seen && old(killed) <= killed
      ensures err == Some(StillRunning) ==>
        exists i: nat :: Outlived(seen[|old(seen)|..], killed[|old(killed)|..], i, w.now)
    {
      var done := Terminate();
      if done {
        return None;
      }
      ghost var looks := seen;
      err := Escalate();
      if err == Some(StillRunning) {
        OutlivedLater(looks[|old(seen)|..], seen[|looks|..], killed[|old(killed)|..], 0, w.now);
        assert seen[|old(seen)|..] == looks[|old(seen)|..] + seen[|looks|..];
      }
    }

    // SIGTERM for the monitor, or for swtpm alone, and the time to heed it.
    method Terminate() returns (done: bool)
      modifies this`w, this`seen, this`asked, this`killed, this`failedKills
      ensures Later(old(w), w) && old(seen) <= seen && killed == old(killed) && failedKills == old(failedKills)
      ensures |seen| >= |old(seen)| + 2 && IsPoll(seen, |old(seen)|)
      ensures asked == old(asked) + Asked(seen[|old(seen)|], seen[|old(seen)| + 1])
      ensures Asked(seen[|old(seen)|], seen[|old(seen)| + 1]) == [] ==> done && |seen| == |old(seen)| + 2
      ensures if done then Dead(w) else w.now > old(w).now + STOP_TIMEOUT
    {
      var pmRunning, pmPID := ReadMonitorPID();
      var swRunning, swPID := ReadSwTPMPID();
      if pmRunning {
        var _ := Kill(pmPID, SIGTERM);
      } else if swRunning {
        var _ := Kill(swPID, SIGTERM);
      } else {
        return true;
      }
      done := WaitSwTPMGone(STOP_TIMEOUT);
    }

    // SIGKILL for one of the processes, if it runs.
    method KillMonitor() returns (ok: bool)
      modifies this`w, this`seen, this`asked, this`killed, this`failedKills
      ensures asked == old(asked)
      ensures Later(old(w), w) && failedKills == old(failedKills) + if ok then 0 else 1
      ensures |seen| == |old(seen)| + 1 && seen[..|old(seen)|] == old(seen) && seen[|old(seen)|].AtMonitor?
      ensures killed == old(killed) + if ok then Victim(seen[|old(seen)|]) else []
      ensures ok && killed == old(killed) ==> w.monitor.None?
    {
      var pmRunning, pmPID := ReadMonitorPID();
      ok := true;
      if pmRunning {
        ok := Kill(pmPID, SIGKILL);
      }
    }

    method KillSwTPM() returns (ok: bool)
      modifies this`w, this`seen, this`asked, this`killed, this`failedKills
      ensures asked == old(asked)
      ensures Later(old(w), w) && failedKills == old(failedKills) + if ok then 0 else 1
      ensures |seen| == |old(seen)| + 1 && seen[..|old(seen)|] == old(seen) && seen[|old(seen)|].AtSwTPM?
      ensures Later(seen[|old(seen)|].w, w)
      ensures killed == old(killed) + if ok then Victim(seen[|old(seen)|]) else []
      ensures ok && killed == old(killed) ==> w.swtpm.None?
    {
      var swRunning, swPID := ReadSwTPMPID();
      ok := true;
      if swRunning {
        ok := Kill(swPID, SIGKILL);
      }
    }

    // The monitor first, so that it cannot restart swtpm, and then swtpm.
    method Escalate() returns (err: Option<Error>)
      modifies this`w, this`seen, this`asked, this`killed, this`failedKills, this`outlived
      ensures asked == old(asked)
      ensures Later(old(w), w)
      ensures err.None? ==> Dead(w)
      ensures err in {None, Some(CannotKill), Some(StillRunning)}
      ensures failedKills == old(failedKills) + if err == Some(CannotKill) then 1 else 0
      ensures outlived == old(outlived) + if err == Some(StillRunning) then 1 else 0
      ensures old(seen) <= seen && old(killed) <= killed
      ensures err == Some(StillRunning) ==> Outlived(seen[|old(seen)|..], killed[|old(killed)|..], 0, w.now)
    {
      var ok := KillMonitor();
      if !ok {
        return Some(CannotKill);
      }
      ok := KillSwTPM();
      if !ok {
        return Some(CannotKill);
      }
      assert killed == old(killed) ==> Dead(w);
      var gone := WaitSwTPMGone(KILL_TIMEOUT);
      if !gone {
        outlived := outlived + 1;
        return Some(StillRunning);
      }
      err := None;
    }

    // A new monitor. It starts swtpm in a step of its own.
    method StartSwTPM() returns (ok: bool)
      requires w.dir && w.monitor.None?
      modifies this`w, this`started, this`failedStarts
      ensures w.dir && w.monitor.Some? == ok && w.now >= old(w).now
      ensures started == old(started) + if ok then 1 else 0
      ensures failedStarts == old(failedStarts) + if ok then 0 else 1
    {
      Elapse();
      ok := *;
      if ok {
        w := w.(monitor := Some(w.next), next := w.next + 1);
        started := started + 1;
      } else {
        failedStarts := failedStarts + 1;
      }
    }

    method WaitSwTPMReady() returns (ok: bool)
      modifies this`w, this`seen
      ensures Later(old(w), w) && old(seen) < seen
      ensures Readied(seen[|old(seen)|..], ok)
      ensures !ok ==> w.now > old(w).now + START_TIMEOUT
    {
      var deadline := w.now + START_TIMEOUT;
      while true
        invariant Later(old(w), w) && old(seen) <= seen && Readied(seen[|old(seen)|..], false)
        decreases deadline - w.now
      {
        ghost var before := seen;
        var running, _ := ReadSwTPMPID();
        var socket := false;
        if running {
          socket := StatSocket();
        }
        assert seen[|old(seen)|..] == before[|old(seen)|..] + seen[|before|..];
        ReadiedNext(before[|old(seen)|..], seen[|before|..]);
        if socket {
          return true;
        }
        Elapse();
        if w.now > deadline {
          return false;
        }
        Sleep(POLL_INTERVAL);
      }
    }

    // A stop gave up.
    twostate predicate StopFailed()
      reads this
    {
      failedKills > old(failedKills) || outlived > old(outlived)
    }

    // Reconciles the processes with the desired state. Only the first look, at the monitor,
    // decides what is reported. Stopped leaves a live swtpm only when that look came upon an
    // orphan, and then nothing is done about it.
    method ReadSwTPM(desired: RunState) returns (r: Result<RunState, Error>)
      requires Valid()
      modifies this`w, this`seen, this`asked, this`killed, this`failedKills, this`outlived, this`started, this`failedStarts
      ensures Valid() && w.dir == old(w).dir && old(seen) <= seen
      ensures failedKills >= old(failedKills) && outlived >= old(outlived)
      ensures if old(w).dir then |seen| > |old(seen)| else r == Err(NoDirectory)
      ensures old(w).dir ==> var look := seen[|old(seen)|];
        && look.AtMonitor? && Later(old(w), look.w)
        && (r == Ok(Stopped) && w.swtpm.Some? ==> Orphan(look.w))
        // Nothing is done where the look finds what is wanted.
        && ((look.w.monitor.Some? <==> desired == Running) ==>
              && r == Ok(desired) && seen == old(seen) + [look] && Later(look.w, w)
              && asked == old(asked) && killed == old(killed) && started == old(started))
        // A missing monitor is started, once; what can go wrong is the start or its time.
        && (desired == Running && look.w.monitor.None? ==>
              && asked == old(asked) && killed == old(killed)
              && match r
                 case Ok(_) =>
                   started == old(started) + 1 && Readied(seen[|old(seen)| + 1..], true)
                 case Err(e) =>
                   if e == StartFailed then failedStarts == old(failedStarts) + 1
                   else e == NotReady && started == old(started) + 1 && Readied(seen[|old(seen)| + 1..], false)
                        && w.now > look.w.now + START_TIMEOUT)
        // An unwanted one is stopped; only that can go wrong.
        && (desired == Stopped && r.Err? ==> StopFailed())
      ensures r.Ok? ==> r.value == desired
      ensures r == Ok(Stopped) ==> w.monitor.None? && (Dead(old(w)) ==> Dead(w))
      ensures desired == Stopped && w.dir ==> w.monitor.None? || StopFailed()
      ensures desired == Stopped ==> started == old(started)
    {
      Elapse();
      if !w.dir {
        return Err(NoDirectory);
      }
      var pmRunning, _ := ReadMonitorPID();
      var actual := if pmRunning then Running else Stopped;
      if desired == Running && actual == Stopped {
        var ok := StartSwTPM();
        if !ok {
          return Err(StartFailed);
        }
        ok := WaitSwTPMReady();
        if !ok {
          return Err(NotReady);
        }
        actual := Running;
      } else if desired == Stopped && actual == Running {
        var err := StopSwTPM();
        if err.Some? {
          return Err(err.value);
        }
        actual := Stopped;
      }
      Elapse();
      r := Ok(actual);
    }

    method Create(desired: RunState) returns (r: Result<RunState, Error>)
      requires Valid()
      modifies this`w, this`seen, this`asked, this`killed, this`failedKills, this`outlived, this`started, this`failedStarts
      ensures r.Ok? ==> r.value == desired
      ensures r.Err? ==> StopFailed() || failedStarts > old(failedStarts) || w.now > old(w).now + START_TIMEOUT
      ensures Valid() && w.dir && failedKills >= old(failedKills) && outlived >= old(outlived)
      ensures desired == Stopped ==> w.monitor.None? || StopFailed()
    {
      Elapse();
      w := w.(dir := true);
      r := ReadSwTPM(desired);
    }

    // The directory goes only after a successful stop, and then nothing is alive.
    method Delete() returns (err: Option<Error>)
      requires Valid()
      modifies this
      ensures Valid()
      ensures err.None? ==> Dead(w) && !w.dir
      ensures old(w).dir && !w.dir ==> Dead(w)
      ensures err.Some? && err.value != RemoveFailed ==> w.dir == old(w).dir && StopFailed()
      ensures failedRemovals == old(failedRemovals) + if err == Some(RemoveFailed) then 1 else 0
      ensures failedKills >= old(failedKills) && outlived >= old(outlived)
    {
      var stopErr := StopSwTPM();
      if stopErr.Some? {
        return stopErr;
      }
      var removed := RemoveDirectory();
      err := if removed then None else Some(RemoveFailed);
    }

    method RemoveDirectory() returns (ok: bool)
      modifies this`w, this`failedRemovals
      ensures exists before :: Later(old(w), before) && w == if ok then before.(dir := false) else before
      ensures failedRemovals == old(failedRemovals) + if ok then 0 else 1
    {
      Elapse();
      ok := *;
      if ok {
        w := w.(dir := false);
      } else {
        failedRemovals := failedRemovals + 1;
      }
    }
  }

  // Any life of a resource. Whatever its operations are, and so after each of them, no
  // process lives without the directory; and unless a stop or a removal has failed, the
  // last operation did what it is for.
  datatype Operation = Creating(desired: RunState) | Reading(desired: RunState) | Deleting

  method Live(r: SwTPM, ops: seq<Operation>)
    requires r.Valid()
    modifies r
    ensures r.Valid()
    ensures if ops == [] then r.w == old(r.w) else After(ops[|ops| - 1], r.w) || Failed(r)
    ensures ops != [] && ops[|ops| - 1].Creating? ==> r.w.dir
  {
    for i := 0 to |ops|
      invariant r.Valid() && r.failedKills >= old(r.failedKills)
      invariant r.outlived >= old(r.outlived) && r.failedRemovals >= old(r.failedRemovals)
      invariant if i == 0 then r.w == old(r.w) else After(ops[i - 1], r.w) || Failed(r)
      invariant i > 0 && ops[i - 1].Creating? ==> r.w.dir
    {
      match ops[i] {
        case Creating(desired) => var _ := r.Create(desired);
        case Reading(desired) =>
          var _ := r.ReadSwTPM(desired);
        case Deleting => var _ := r.Delete();
      }
    }
  }

  predicate After(op: Operation, w: World) {
    match op
    case Creating(desired) => w.dir && (desired == Stopped ==> w.monitor.None?)
    case Reading(desired) => w.dir && desired == Stopped ==> w.monitor.None?
    case Deleting => Dead(w) && !w.dir
  }

  twostate predicate Failed(r: SwTPM)
    reads r
  {
    r.StopFailed() || r.failedRemovals > old(r.failedRemovals)
  }
}
