// The wait loop of internal/provider/wait_until_resource.go: run a probe until it
// succeeds or the time is up, keeping the logs of the first and the latest attempts.
module WaitUntil {
  import opened Wrappers

  // ---------------------------------------------------------------- attempts

  // Only ExitCode tells "not ready" from "could not be run": both carry an error.
  datatype Result = Result(exitCode: int, failed: bool)
  datatype Kind = Ready | NotReady | ExecError | Hung

  function ClassifyProbe(res: Result): (kind: Kind)
    ensures kind != Hung
    ensures kind == Ready <==> !res.failed
    ensures kind == NotReady <==> res.failed && res.exitCode != 0
  {
    if !res.failed then Ready else if res.exitCode != 0 then NotReady else ExecError
  }

  // What ends the wait for a probe: its result, the budget's timer, or a cancellation.
  datatype Event = Exited(res: Result) | TimerFired | Interrupted

  function KindOf(e: Event): Kind {
    if e.Exited? then ClassifyProbe(e.res) else Hung
  }

  // An abandoned probe has the zero result.
  function ResultOf(e: Event): Result {
    if e.Exited? then e.res else Result(0, false)
  }

  // When an attempt began, how long it took, and whether a cancellation ended it.
  datatype Time = Time(begun: int, took: int, cancelled: bool)

  // The attempts made, the latest one outermost.
  datatype History = NoAttempts | After(past: History, kind: Kind, res: Result, time: Time)

  function Count(h: History): nat {
    if h.NoAttempts? then 0 else Count(h.past) + 1
  }

  function Kinds(h: History): (kinds: seq<Kind>)
    ensures |kinds| == Count(h)
  {
    if h.NoAttempts? then [] else Kinds(h.past) + [h.kind]
  }

  // Numbers of the attempts that finished, in order, and of those that were abandoned.
  function Finished(h: History): seq<nat> {
    if h.NoAttempts? then []
    else if h.kind == Hung then Finished(h.past)
    else Finished(h.past) + [Count(h)]
  }

  function Abandoned(h: History): set<nat> {
    if h.NoAttempts? then {}
    else if h.kind == Hung then Abandoned(h.past) + {Count(h)}
    else Abandoned(h.past)
  }

  // The latest attempt that was not abandoned, NoAttempts if there is none.
  function LastCompleted(h: History): History {
    if h.After? && h.kind == Hung then LastCompleted(h.past) else h
  }

  // No attempt so far ended the wait.
  predicate Undecided(h: History) {
    h.After? ==> Undecided(h.past) && h.kind != Ready && (h.past.NoAttempts? ==> h.kind != ExecError)
  }

  lemma {:induction false} UndecidedKinds(h: History)
    ensures Undecided(h) <==>
      (forall i :: 0 <= i < |Kinds(h)| ==> Kinds(h)[i] != Ready) && (Kinds(h) != [] ==> Kinds(h)[0] != ExecError)
  {
    if h.After? {
      UndecidedKinds(h.past);
      assert Kinds(h)[|Kinds(h)| - 1] == h.kind;
      assert forall i :: 0 <= i < |Kinds(h.past)| ==> Kinds(h)[i] == Kinds(h.past)[i];
    }
  }

  // Every attempt is either finished or abandoned, by its own kind.
  lemma {:induction false} FinishedOrAbandoned(h: History, k: nat)
    ensures k in Finished(h) <==> 1 <= k <= Count(h) && Kinds(h)[k - 1] != Hung
    ensures k in Abandoned(h) <==> 1 <= k <= Count(h) && Kinds(h)[k - 1] == Hung
  {
    if h.After? {
      FinishedOrAbandoned(h.past, k);
    }
  }

  // LastCompleted is the highest-numbered attempt that was not abandoned, or none.
  lemma {:induction false} LastCompletedIsHighest(h: History)
    ensures var k := Count(LastCompleted(h));
      && k <= Count(h) && (k > 0 ==> Kinds(h)[k - 1] != Hung)
      && forall i :: k <= i < Count(h) ==> Kinds(h)[i] == Hung
  {
    if h.After? {
      LastCompletedIsHighest(h.past);
    }
  }

  // ---------------------------------------------------------------- retention

  predicate Increasing(f: seq<nat>) {
    forall i, j :: 0 <= i < j < |f| ==> f[i] < f[j]
  }

  lemma FirstIsLeast(f: seq<nat>, i: nat)
    requires Increasing(f) && i < |f|
    ensures f[0] <= f[i]
  {
    if i > 0 {
      assert f[0] < f[i];
    }
  }

  lemma {:induction false} FinishedIncreasing(h: History)
    ensures Increasing(Finished(h)) && forall i :: 0 <= i < |Finished(h)| ==> 1 <= Finished(h)[i] <= Count(h)
  {
    if h.After? {
      FinishedIncreasing(h.past);
    }
  }

  // The first finished attempt and the `keep` latest; everything when keep <= 0.
  function Retained(f: seq<nat>, keep: int): (r: seq<nat>)
    ensures keep > 0 ==> |r| <= keep + 1
  {
    if keep <= 0 || |f| <= keep + 1 then f else [f[0]] + f[|f| - keep..]
  }

  function Numbers(f: seq<nat>): set<nat> {
    set k | k in f
  }

  // One call of the pruning, on the list extended by a newly finished attempt.
  function Prune(completed: seq<nat>, keep: int): seq<nat> {
    if keep <= 0 || |completed| <= keep + 1 then completed else [completed[0]] + completed[2..]
  }

  lemma PruneIsRetained(f: seq<nat>, x: nat, keep: int)
    ensures Prune(Retained(f, keep) + [x], keep) == Retained(f + [x], keep)
  {
    if keep > 0 && |f| == keep + 1 {
      assert (f + [x])[2..] == (f + [x])[|f + [x]| - keep..];
    }
  }

  lemma PruneDropsSecond(completed: seq<nat>, keep: int)
    requires keep > 0 && |completed| > keep + 1 && Increasing(completed)
    ensures Numbers(Prune(completed, keep)) == Numbers(completed) - {completed[1]}
  {
    var c, p := completed, Prune(completed, keep);
    forall k | k in c && k != c[1]
      ensures k in p
    {
      var i :| 0 <= i < |c| && c[i] == k;
      assert i >= 2 ==> p[i - 1] == k;
    }
  }

  lemma RetainedIncreasing(f: seq<nat>, keep: int)
    requires Increasing(f)
    ensures Increasing(Retained(f, keep))
    ensures forall k :: k in Retained(f, keep) ==> k in f
  {
    var r := Retained(f, keep);
    if r != f {
      assert forall i :: 1 <= i < |r| ==> r[i] == f[|f| - keep + i - 1];
    }
  }

  // What survives on the target when every removal succeeds.
  function Surviving(h: History, keep: int): set<nat> {
    Abandoned(h) + Numbers(Retained(Finished(h), keep))
  }

  // The directories on the target against those expected; `clean` when no removal failed.
  predicate LogsKept(dirs: set<nat>, clean: bool, expected: set<nat>) {
    expected <= dirs && (clean ==> dirs == expected)
  }

  lemma SurvivingAfterHung(h: History, keep: int)
    requires h.After? && h.kind == Hung
    ensures Surviving(h, keep) == Surviving(h.past, keep) + {Count(h)}
  {
  }

  // The list before pruning: what was retained and the attempt that just finished.
  lemma ExtendedList(h: History, keep: int)
    requires h.After?
    ensures
      var all := Retained(Finished(h.past), keep) + [Count(h)];
      Increasing(all) && forall i :: 0 <= i < |all| ==> all[i] !in Abandoned(h.past)
  {
    var r := Retained(Finished(h.past), keep);
    FinishedIncreasing(h.past);
    RetainedIncreasing(Finished(h.past), keep);
    forall i | 0 <= i < |r|
      ensures r[i] < Count(h) && r[i] !in Abandoned(h.past)
    {
      assert r[i] in r;
      FinishedOrAbandoned(h.past, r[i]);
    }
    FinishedOrAbandoned(h.past, Count(h));
  }

  lemma PruneKeepsList(h: History, keep: int)
    requires h.After? && h.kind != Hung
    ensures Prune(Retained(Finished(h.past), keep) + [Count(h)], keep) == Retained(Finished(h), keep)
  {
    PruneIsRetained(Finished(h.past), Count(h), keep);
  }

  lemma SurvivingAfterPrune(h: History, keep: int)
    requires h.After? && h.kind != Hung
    ensures
      var all := Retained(Finished(h.past), keep) + [Count(h)];
      var before := Surviving(h.past, keep) + {Count(h)};
      Surviving(h, keep) == if Prune(all, keep) == all then before else before - {all[1]}
  {
    var r := Retained(Finished(h.past), keep);
    var all := r + [Count(h)];
    PruneKeepsList(h, keep);
    ExtendedList(h, keep);
    assert Numbers(all) == Numbers(r) + {Count(h)};
    if keep > 0 && |all| > keep + 1 {
      PruneDropsSecond(all, keep);
    }
  }

  // Whether it finished or was abandoned, the first attempt's logs are never pruned.
  lemma {:induction false} FirstKept(h: History, keep: int)
    requires h.After?
    ensures 1 in Surviving(h, keep)
  {
    FinishedOrAbandoned(h, 1);
    if 1 in Finished(h) {
      var f := Finished(h);
      FinishedIncreasing(h);
      var i :| 0 <= i < |f| && f[i] == 1;
      FirstIsLeast(f, i);
      assert Retained(f, keep)[0] == 1;
    }
  }

  // The list starts with attempt 1 exactly when that one finished.
  lemma FirstEntryIff(h: History, keep: int)
    requires Finished(h) != []
    ensures Retained(Finished(h), keep)[0] == 1 <==> Kinds(h)[0] != Hung
  {
    var f := Finished(h);
    FinishedIncreasing(h);
    FinishedOrAbandoned(h, 1);
    if 1 in f {
      var i :| 0 <= i < |f| && f[i] == 1;
      FirstIsLeast(f, i);
    }
  }

  // Attempt 1 abandoned, attempt 2 finished: the list starts with attempt 2.
  lemma FirstEntryCanBeLater(res: Result, time: Time, keep: int)
    ensures Retained(Finished(After(After(NoAttempts, Hung, res, time), NotReady, res, time)), keep) == [2]
  {
    var first := After(NoAttempts, Hung, res, time);
    assert Count(first) == 1 && Finished(first) == [];
  }

  // ---------------------------------------------------------------- the wait

  datatype Params = Params(timeout: int, interval: int, attemptTimeout: int, retainLogs: int)
  datatype WaitError = TimedOut | Cancelled | CannotRun
  datatype Outcome = Outcome(attempts: nat, elapsed: int, lastKind: Kind, lastLogs: nat,
                             lastCompleted: Result, lastCompletedAttempt: nat)

  function Max(a: int, b: int): int {
    if a > b then a else b
  }

  // An attempt was abandoned only after the time it may take: the attempt timeout, if
  // there is one and the deadline is further away, and otherwise all until the deadline.
  predicate GivenItsTime(p: Params, start: int, h: History)
    requires h.After?
  {
    var left := start + p.timeout - h.time.begun;
    h.kind == Hung && !h.time.cancelled ==>
      if 0 < p.attemptTimeout < left then h.time.took >= p.attemptTimeout else h.time.took >= left
  }

  predicate AllGivenTheirTime(p: Params, start: int, h: History) {
    h.After? ==> GivenItsTime(p, start, h) && h.time.begun >= start && AllGivenTheirTime(p, start, h.past)
  }

  // A probe that would have finished in that time was not abandoned.
  lemma {:induction false} EveryAttemptGivenItsTime(p: Params, start: int, h: History, k: nat)
    requires AllGivenTheirTime(p, start, h) && k < Count(h)
    ensures Kinds(h)[k] == Hung && !Times(h)[k].cancelled ==>
      Times(h)[k].took >= p.attemptTimeout > 0 || Times(h)[k].begun + Times(h)[k].took >= start + p.timeout
  {
    if k < Count(h) - 1 {
      EveryAttemptGivenItsTime(p, start, h.past, k);
    }
  }

  function Times(h: History): (times: seq<Time>)
    ensures |times| == Count(h)
  {
    if h.NoAttempts? then [] else Times(h.past) + [h.time]
  }

  // What an outcome says about the attempts made.
  predicate Reports(out: Outcome, h: History) {
    && out.attempts == Count(h)
    && (h.After? ==> out.lastKind == h.kind) && out.lastLogs == Count(h)
    && out.lastCompletedAttempt == Count(LastCompleted(h))
    && out.lastCompleted == if LastCompleted(h).After? then LastCompleted(h).res else Result(0, false)
  }

  // The time that n whole intervals take.
  function Pace(n: nat, interval: int): int {
    if n == 0 then 0 else Pace(n - 1, interval) + interval
  }

  lemma PaceNext(n: nat, interval: int)
    ensures Pace(n + 1, interval) == Pace(n, interval) + interval
  {
  }

  lemma {:induction false} PaceIsProduct(n: nat, interval: int)
    ensures Pace(n, interval) == n * interval
  {
    if n > 0 {
      PaceIsProduct(n - 1, interval);
      assert (n - 1) * interval + interval == n * interval;
    }
  }

  // The books at the head of the loop: outcome, list of logs and target agree.
  predicate Settled(out: Outcome, h: History, completed: seq<nat>, dirs: set<nat>, clean: bool, keep: int) {
    && Undecided(h) && Reports(out, h)
    && completed == Retained(Finished(h), keep) && LogsKept(dirs, clean, Surviving(h, keep))
  }

  // What a wait that returned this has left behind. An attempt that ends the wait by its
  // own result is the only one not followed by a pruning.
  predicate Ended(out: Outcome, err: Option<WaitError>, h: History, dirs: set<nat>, clean: bool, keep: int) {
    && Reports(out, h)
    && match err
       case None =>
         h.After? && h.kind == Ready && Undecided(h.past) && LogsKept(dirs, clean, Surviving(h.past, keep) + {Count(h)})
       case Some(CannotRun) =>
         h.After? && h.kind == ExecError && h.past.NoAttempts? && LogsKept(dirs, clean, {1})
       case Some(_) =>
         Undecided(h) && LogsKept(dirs, clean, Surviving(h, keep))
  }

  // The wait succeeds exactly when the last probe was ready, which no earlier one was,
  // and fails on an execution error exactly when that came first.
  lemma EndedMeans(out: Outcome, err: Option<WaitError>, h: History, dirs: set<nat>, clean: bool, keep: int)
    requires Ended(out, err, h, dirs, clean, keep)
    ensures var ks := Kinds(h);
      && (err.None? <==> ks != [] && ks[|ks| - 1] == Ready)
      && (forall i :: 0 <= i < |ks| - 1 ==> ks[i] != Ready)
      && (err == Some(CannotRun) <==> ks != [] && ks[0] == ExecError)
      && (err == Some(CannotRun) ==> |ks| == 1)
  {
    UndecidedKinds(h);
    if h.After? {
      UndecidedKinds(h.past);
    }
  }

  class Target {
    var now: int
    var dirs: set<nat>          // log directories, named by attempt number
    ghost var hist: History
    ghost var overhead: nat     // time spent outside probe budgets and sleeps
    ghost var faults: nat       // removals that failed
    ghost var slept: int        // the sleeps asked for, in all
    ghost var aborted: bool     // the context was seen cancelled

    constructor (now: int)
      ensures hist == NoAttempts && dirs == {} && overhead == 0 && faults == 0 && slept == 0 && !aborted
    {
      this.now, dirs, hist, overhead, faults := now, {}, NoAttempts, 0, 0;
      slept, aborted := 0, false;
    }

    // A monotone clock: any time may pass between two statements.
    method Tick()
      modifies this`now, this`overhead
      ensures now - old(now) == overhead - old(overhead) >= 0
    {
      var d: nat :| d >= 0;
      now, overhead := now + d, overhead + d;
    }

    // What the select of a probe comes upon, and when. A timer never fires early; whatever
    // goes beyond the budget is overhead.
    method Select(budget: int) returns (e: Event)
      requires budget > 0
      modifies this`now, this`overhead, this`hist, this`aborted
      ensures old(now) <= now <= old(now) + budget + (overhead - old(overhead)) && overhead >= old(overhead)
      ensures e.TimerFired? ==> now >= old(now) + budget
      ensures hist == After(old(hist), KindOf(e), ResultOf(e), Time(old(now), now - old(now), e.Interrupted?))
      ensures aborted == (old(aborted) || e.Interrupted?)
    {
      var d: nat :| d >= 0;
      e := *;
      if e.TimerFired? {
        d := Max(d, budget);
      }
      hist := After(hist, KindOf(e), ResultOf(e), Time(now, d, e.Interrupted?));
      now, overhead := now + d, overhead + Max(0, d - budget);
      aborted := aborted || e.Interrupted?;
    }

    // The attempt goes into the history as what the select came upon.
    method RunProbe(attempt: nat, budget: int) returns (res: Result, kind: Kind, cancelled: bool)
      requires budget > 0
      modifies this`now, this`overhead, this`dirs, this`hist, this`aborted
      ensures old(now) <= now <= old(now) + budget + (overhead - old(overhead)) && overhead >= old(overhead)
      ensures dirs == old(dirs) + {attempt}
      ensures hist == After(old(hist), kind, res, Time(old(now), now - old(now), cancelled))
      ensures kind != Hung ==> kind == ClassifyProbe(res)
      ensures cancelled ==> kind == Hung
      ensures aborted == (old(aborted) || cancelled)
      ensures kind == Hung && !cancelled ==> now >= old(now) + budget
    {
      dirs := dirs + {attempt};
      var e := Select(budget);
      match e
      case Exited(r) =>
        return r, ClassifyProbe(r), false;
      case TimerFired =>
        return Result(0, false), Hung, false;
      case Interrupted =>
        return Result(0, false), Hung, true;
    }

    method Sleep(d: int) returns (cancelled: bool)
      requires d > 0
      modifies this`now, this`overhead, this`slept, this`aborted
      ensures slept == old(slept) + d && aborted == (old(aborted) || cancelled)
      ensures old(now) <= now <= old(now) + d + (overhead - old(overhead)) && overhead >= old(overhead)
      ensures !cancelled ==> now >= old(now) + d
    {
      var t: nat :| t >= 0;
      cancelled := *;
      if !cancelled {
        t := Max(t, d);
      }
      now, overhead := now + t, overhead + Max(0, t - d);
      slept, aborted := slept + d, aborted || cancelled;
    }

    method Remove(dir: nat) returns (ok: bool)
      modifies this`dirs, this`faults
      ensures dirs == if ok then old(dirs) - {dir} else old(dirs)
      ensures faults == old(faults) + if ok then 0 else 1
    {
      ok := *;
      if ok {
        dirs := dirs - {dir};
      } else {
        faults := faults + 1;
      }
    }

    // Failures to remove are not reported, the entry leaves the list all the same.
    method PruneAttemptLogs(completed: seq<nat>, keep: int) returns (retained: seq<nat>)
      modifies this`dirs, this`faults
      ensures retained == Prune(completed, keep)
      ensures retained == completed ==> dirs == old(dirs) && faults == old(faults)
      ensures retained != completed ==> dirs == old(dirs) - {completed[1]} || (dirs == old(dirs) && faults > old(faults))
      ensures faults >= old(faults)
    {
      if keep <= 0 || |completed| <= keep + 1 {
        return completed;
      }
      var victim := completed[1];
      var _ := Remove(victim);
      retained := completed[..1] + completed[2..];
      assert |retained| == |completed| - 1;
    }

    // One round up to the sleep. `stop` is what the wait returns, if it ends here.
    method Round(p: Params, start: int, attempt: nat, limit: int, soFar: Outcome, completed: seq<nat>)
      returns (out: Outcome, completed': seq<nat>, stop: Option<Option<WaitError>>)
      requires Settled(soFar, hist, completed, dirs, faults == 0, p.retainLogs)
      requires attempt == Count(hist) + 1 && limit > 0 && limit == start + p.timeout - now
      modifies this
      ensures hist.After? && hist.past == old(hist) && slept == old(slept)
      ensures hist.time.begun == old(now)
      ensures GivenItsTime(p, start, hist)
      ensures !old(aborted) ==> (stop == Some(Some(Cancelled)) <==> aborted)
      ensures p.attemptTimeout > 0 ==> now <= old(now) + p.attemptTimeout + (overhead - old(overhead))
      ensures old(now) <= now <= old(now) + limit + (overhead - old(overhead)) && overhead >= old(overhead)
      ensures out.elapsed == now - start
      ensures stop.None? ==> Settled(out, hist, completed', dirs, faults == 0, p.retainLogs)
      ensures stop.Some? ==> Ended(out, stop.value, hist, dirs, faults == 0, p.retainLogs) && stop.value != Some(TimedOut)
    {
      var budget := limit;
      if 0 < p.attemptTimeout < budget {
        budget := p.attemptTimeout;
      }
      var res, kind, cancelled := RunProbe(attempt, budget);
      out := soFar.(attempts := attempt, elapsed := now - start, lastKind := kind, lastLogs := attempt);
      completed' := completed;
      if kind != Hung {
        out := out.(lastCompleted := res, lastCompletedAttempt := attempt);
      } else {
        SurvivingAfterHung(hist, p.retainLogs);
      }
      if cancelled {
        return out, completed', Some(Some(Cancelled));
      }
      if kind == Ready {
        return out, completed', Some(None);
      }
      if kind == ExecError && attempt == 1 {
        assert Surviving(NoAttempts, p.retainLogs) + {1} == {1};
        return out, completed', Some(Some(CannotRun));
      }
      if kind != Hung {
        SurvivingAfterPrune(hist, p.retainLogs);
        PruneKeepsList(hist, p.retainLogs);
        completed' := PruneAttemptLogs(completed + [attempt], p.retainLogs);
      }
      stop := None;
    }

    method WaitForScript(p: Params) returns (out: Outcome, err: Option<WaitError>)
      requires p.interval > 0
      requires hist == NoAttempts && dirs == {} && overhead == 0 && faults == 0 && slept == 0 && !aborted
      modifies this
      ensures Ended(out, err, hist, dirs, faults == 0, p.retainLogs)
      ensures hist.After? ==> Pace(Count(hist) - 1, p.interval) < p.timeout
      ensures AllGivenTheirTime(p, old(now), hist)
      ensures out.elapsed == now - old(now) <= Max(0, p.timeout) + overhead
      ensures slept <= Pace(Count(hist), p.interval)
      ensures err == Some(Cancelled) <==> aborted
      ensures err == Some(TimedOut) ==> now - old(now) >= p.timeout
    {
      var start := now;
      var deadline := start + p.timeout;
      out := Outcome(0, 0, Ready, 0, Result(0, false), 0);
      var completed := [];
      var attempt := 1;
      while true
        invariant attempt == Count(hist) + 1
        invariant Settled(out, hist, completed, dirs, faults == 0, p.retainLogs)
        invariant start <= now && (Pace(Count(hist), p.interval) <= now - start || now >= deadline)
        invariant hist.After? ==> Pace(Count(hist) - 1, p.interval) < p.timeout
        invariant AllGivenTheirTime(p, start, hist)
        invariant now - start <= Max(0, p.timeout) + overhead
        invariant slept <= Pace(Count(hist), p.interval) && !aborted
        decreases deadline - now
      {
        Tick();
        var budget := deadline - now;
        if budget <= 0 {
          Tick();
          return out.(elapsed := now - start), Some(TimedOut);
        }
        ghost var n := Count(hist);
        var stop;
        out, completed, stop := Round(p, start, attempt, budget, out, completed);
        PaceNext(n, p.interval);
        assert Count(hist) == n + 1;
        if stop.Some? {
          return out, stop.value;
        }
        Tick();
        var remaining := deadline - now;
        if remaining <= 0 {
          Tick();
          return out.(elapsed := now - start), Some(TimedOut);
        }
        var sleep := if remaining < p.interval then remaining else p.interval;
        var interrupted := Sleep(sleep);
        if interrupted {
          Tick();
          return out.(elapsed := now - start), Some(Cancelled);
        }
        attempt := attempt + 1;
      }
    }
  }
}
