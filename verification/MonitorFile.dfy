// The pattern monitor of internal/cmd/monitor_file.go: a file is read in chunks
// of at most 64 bytes and every chunk is searched together with the one before it.
module MonitorFile {
  import opened Text

  type byte = b: int | 0 <= b < 256

  const CHUNK: nat := 64

  predicate NulFree(p: seq<byte>) {
    0 !in p
  }

  function Repeat(b: byte, n: nat): (s: seq<byte>)
    ensures |s| == n && forall i :: 0 <= i < n ==> s[i] == b
  {
    seq(n, _ => b)
  }

  // ---------------------------------------------------------------- one run

  // What one pass of the loop sees of the world: a cancelled context, a failing
  // system call, or a file size together with what a read at `pos` returned.
  datatype ReadResult = ReadFailed | Bytes(data: seq<byte>)
  datatype Poll = Cancelled | StatFailed | Observed(size: nat, seekOk: bool, read: ReadResult)

  predicate FitsBuffer(p: Poll) {
    p.Observed? && p.read.Bytes? ==> |p.read.data| <= CHUNK
  }

  // The loop's variables. `stream` records the bytes consumed since the file was
  // last read from its start; the program does not store it.
  datatype Scan = Scan(combined: seq<byte>, prev: seq<byte>, pos: nat, stream: seq<byte>)
  datatype Outcome = Found | Failed | Waiting(scan: Scan)

  predicate Fits(s: Scan) {
    |s.combined| == 2 * CHUNK && |s.prev| <= CHUNK
  }

  function Start(): (s: Scan)
    ensures Fits(s)
  {
    Scan(Repeat(0, 2 * CHUNK), [], 0, [])
  }

  function Rewind(s: Scan): Scan {
    s.(prev := [], pos := 0, stream := [])
  }

  // `combined` after both copies to its front.
  function Overlay(combined: seq<byte>, prev: seq<byte>, data: seq<byte>): (t: seq<byte>)
    requires |prev| + |data| <= |combined|
    ensures |t| == |combined|
    ensures forall i :: 0 <= i < |t| ==>
              t[i] == if i < |prev| then prev[i] else if i < |prev| + |data| then data[i - |prev|] else combined[i]
  {
    seq(|combined|, i requires 0 <= i < |combined| =>
      if i < |prev| then prev[i] else if i < |prev| + |data| then data[i - |prev|] else combined[i])
  }

  // Both copies into `combined`, then the copy of the chunk into `prev`.
  function Absorb(s: Scan, data: seq<byte>): (t: Scan)
    requires Fits(s) && |data| <= CHUNK
    ensures Fits(t)
  {
    Scan(Overlay(s.combined, s.prev, data), data, s.pos + |data|, s.stream + data)
  }

  function Step(s: Scan, poll: Poll, p: seq<byte>): (o: Outcome)
    requires Fits(s) && FitsBuffer(poll)
    ensures o.Waiting? ==> Fits(o.scan)
  {
    match poll
    case Cancelled => Failed
    case StatFailed => Failed
    case Observed(size, seekOk, read) =>
      if size == s.pos then Waiting(s)
      else if size < s.pos && !seekOk then Failed
      else
        var s := if size < s.pos then Rewind(s) else s;
        if read.ReadFailed? then Failed
        else if read.data == [] then Waiting(s)
        else
          var t := Absorb(s, read.data);
          if Contains(t.combined, p) then Found else Waiting(t)
  }

  function Run(s: Scan, polls: seq<Poll>, p: seq<byte>): (o: Outcome)
    requires Fits(s) && forall poll :: poll in polls ==> FitsBuffer(poll)
    ensures o.Waiting? ==> Fits(o.scan)
    decreases |polls|
  {
    if polls == [] then Waiting(s)
    else
      var o := Step(s, polls[0], p);
      if o.Waiting? then Run(o.scan, polls[1..], p) else o
  }

  lemma RunUnfold(s: Scan, polls: seq<Poll>, t: nat, p: seq<byte>)
    requires Fits(s) && t < |polls| && forall poll :: poll in polls ==> FitsBuffer(poll)
    ensures Run(s, polls[t..], p)
         == (var o := Step(s, polls[t], p); if o.Waiting? then Run(o.scan, polls[t + 1..], p) else o)
  {
    assert polls[t..][0] == polls[t] && polls[t..][1..] == polls[t + 1..];
  }

  // ---------------------------------------------------------------- what a run means

  // A non-empty read. `truncated`: since the read before it the file was found shorter than
  // what had been read, and was read from its start again.
  datatype Read = Read(truncated: bool, data: seq<byte>)

  predicate AreReads(rs: seq<Read>) {
    forall i :: 0 <= i < |rs| ==> 0 < |rs[i].data| <= CHUNK
  }

  function Take(s: Scan, r: Read): (t: Scan)
    requires Fits(s) && |r.data| <= CHUNK
    ensures Fits(t)
  {
    Absorb(if r.truncated then Rewind(s) else s, r.data)
  }

  // Some read makes the pattern appear in `combined`.
  predicate Hit(s: Scan, rs: seq<Read>, p: seq<byte>)
    requires Fits(s) && AreReads(rs)
    decreases |rs|
  {
    rs != [] && (Contains(Take(s, rs[0]).combined, p) || Hit(Take(s, rs[0]), rs[1..], p))
  }

  // What ends the monitor with an error: a cancelled context, a failed stat, a failed seek
  // after a truncation, a failed read. With nothing new in the file it neither seeks nor reads.
  predicate Fails(pos: nat, poll: Poll) {
    || poll.Cancelled?
    || poll.StatFailed?
    || (poll.size < pos && !poll.seekOk)
    || (poll.size != pos && poll.read.ReadFailed?)
  }

  // Where reading goes on: behind what was read, from the file's start if it got shorter.
  function Beyond(pos: nat, poll: Poll): nat
    requires !Fails(pos, poll)
  {
    if poll.size == pos then pos else (if poll.size < pos then 0 else pos) + |poll.read.data|
  }

  // The first failing poll; |polls| if none fails.
  function FirstFailure(pos: nat, polls: seq<Poll>): (k: nat)
    ensures k <= |polls|
    decreases |polls|
  {
    if polls == [] || Fails(pos, polls[0]) then 0
    else FirstFailure(Beyond(pos, polls[0]), polls[1..]) + 1
  }

  // The reads that the polls before the first failing one deliver. `pending`: there was a
  // truncation after which nothing has been read yet.
  function Delivered(pos: nat, pending: bool, polls: seq<Poll>): (rs: seq<Read>)
    requires forall poll :: poll in polls ==> FitsBuffer(poll)
    ensures AreReads(rs)
    decreases |polls|
  {
    if polls == [] || Fails(pos, polls[0]) then []
    else
      var poll, next := polls[0], Beyond(pos, polls[0]);
      var truncated := pending || poll.size < pos;
      if poll.size == pos || poll.read.data == [] then Delivered(next, truncated, polls[1..])
      else
        assert FitsBuffer(poll);
        [Read(truncated, poll.read.data)] + Delivered(next, false, polls[1..])
  }

  function Pending(s: Scan, pending: bool): (t: Scan)
    requires Fits(s)
    ensures Fits(t)
  {
    if pending then Rewind(s) else s
  }

  // One poll, as a failure, as a read or as neither.
  lemma StepMeans(s: Scan, pending: bool, poll: Poll, p: seq<byte>)
    requires Fits(s) && FitsBuffer(poll)
    ensures
      var now := Pending(s, pending);
      var o := Step(now, poll, p);
      if Fails(now.pos, poll) then o == Failed
      else
        var truncated := pending || poll.size < now.pos;
        if poll.size == now.pos || poll.read.data == [] then
          o == Waiting(Pending(s, truncated)) && Pending(s, truncated).pos == Beyond(now.pos, poll)
        else
          var t := Take(s, Read(truncated, poll.read.data));
          o == (if Contains(t.combined, p) then Found else Waiting(t)) && t.pos == Beyond(now.pos, poll)
  {
  }

  // A run finds the pattern if one of the reads delivered to it shows the pattern, and else
  // fails if some poll fails.
  lemma {:induction false} RunMeans(s: Scan, pending: bool, polls: seq<Poll>, p: seq<byte>)
    requires Fits(s) && forall poll :: poll in polls ==> FitsBuffer(poll)
    ensures
      var now := Pending(s, pending);
      var hit := Hit(s, Delivered(now.pos, pending, polls), p);
      && (Run(now, polls, p).Found? <==> hit)
      && (Run(now, polls, p).Failed? <==> !hit && FirstFailure(now.pos, polls) < |polls|)
    decreases |polls|
  {
    if polls != [] {
      var now, poll, rest := Pending(s, pending), polls[0], polls[1..];
      StepMeans(s, pending, poll, p);
      if !Fails(now.pos, poll) {
        var truncated, next := pending || poll.size < now.pos, Beyond(now.pos, poll);
        if poll.size == now.pos || poll.read.data == [] {
          RunMeans(s, truncated, rest, p);
        } else {
          var r := Read(truncated, poll.read.data);
          assert ([r] + Delivered(next, false, rest))[1..] == Delivered(next, false, rest);
          RunMeans(Take(s, r), false, rest, p);
        }
      }
    }
  }

  // ---------------------------------------------------------------- the loop

  // What the monitor promises: it finds the pattern exactly if one of the reads delivered to
  // it shows it, which on reads that never fill less is an occurrence, and it fails exactly
  // if it has not found it when a poll fails.
  ghost predicate Reports(polls: seq<Poll>, p: seq<byte>, found: bool, failed: bool)
    requires forall poll :: poll in polls ==> FitsBuffer(poll)
  {
    var rs := Delivered(0, false, polls);
    && (found <==> Hit(Start(), rs, p))
    && (failed <==> !found && FirstFailure(0, polls) < |polls|)
    && (found && |p| > 0 && NulFree(p) && NonShrinking(Sizes(rs)) ==> Occurs(Start(), rs, p))
  }

  lemma RunReports(polls: seq<Poll>, p: seq<byte>)
    requires forall poll :: poll in polls ==> FitsBuffer(poll)
    ensures Reports(polls, p, Run(Start(), polls, p).Found?, Run(Start(), polls, p).Failed?)
  {
    RunMeans(Start(), false, polls, p);
    HitOccurs(Delivered(0, false, polls), p);
  }

  // Go's copy(dst[at:], src[:n]).
  method Copy(dst: array<byte>, at: nat, src: array<byte>, n: nat)
    requires dst != src && at + n <= dst.Length && n <= src.Length
    modifies dst
    ensures forall i :: 0 <= i < dst.Length ==> dst[i] == if at <= i < at + n then src[i - at] else old(dst[i])
    ensures dst[at..at + n] == src[..n]
  {
    forall i | 0 <= i < n { dst[at + i] := src[i]; }
  }

  // File.Read into the whole of `buf`: the bytes delivered land at its front.
  method ReadInto(buf: array<byte>, data: seq<byte>) returns (n: nat)
    requires |data| <= buf.Length
    modifies buf
    ensures n == |data| && buf[..n] == data
  {
    n := |data|;
    forall i | 0 <= i < n { buf[i] := data[i]; }
  }

  // The copies of the previous and of the current chunk to the front of `combined`.
  method Combine(combined: array<byte>, prev: array<byte>, prevN: nat, curr: array<byte>, n: nat)
    requires combined != prev && combined != curr
    requires prevN <= prev.Length && n <= curr.Length && prevN + n <= combined.Length
    modifies combined
    ensures combined[..] == Overlay(old(combined[..]), prev[..prevN], curr[..n])
  {
    if prevN > 0 {
      Copy(combined, 0, prev, prevN);
    }
    Copy(combined, prevN, curr, n);
  }

  method MonitorFileFor(polls: seq<Poll>, lookFor: seq<byte>) returns (found: bool, failed: bool)
    requires forall poll :: poll in polls ==> FitsBuffer(poll)
    ensures Reports(polls, lookFor, found, failed)
  {
    var prev := new byte[CHUNK];
    var prevN := 0;
    var curr := new byte[CHUNK];
    var combined := new byte[2 * CHUNK](_ => 0);
    var pos := 0;
    ghost var s := Start();
    RunReports(polls, lookFor);
    assert combined[..] == s.combined;
    for t := 0 to |polls|
      invariant 0 <= prevN <= CHUNK && Fits(s)
      invariant combined[..] == s.combined && prev[..prevN] == s.prev && pos == s.pos
      invariant Run(Start(), polls, lookFor) == Run(s, polls[t..], lookFor)
    {
      var poll := polls[t];
      RunUnfold(s, polls, t, lookFor);
      if poll.Cancelled? || poll.StatFailed? {
        return false, true;
      }
      if poll.size == pos {
        continue;
      }
      if poll.size < pos {
        if !poll.seekOk {
          return false, true;
        }
        pos, prevN := 0, 0;
        s := Rewind(s);
      }
      if poll.read.ReadFailed? {
        return false, true;
      }
      var n := ReadInto(curr, poll.read.data);
      if n == 0 {
        continue;
      }
      pos := pos + n;
      Combine(combined, prev, prevN, curr, n);
      s := Absorb(s, poll.read.data);
      assert combined[..] == s.combined;
      if Contains(combined[..], lookFor) {
        return true, false;
      }
      Copy(prev, 0, curr, n);
      prevN := n;
    }
    return false, false;
  }

  // ---------------------------------------------------------------- completeness

  predicate LongReads(polls: seq<Poll>, p: seq<byte>) {
    forall poll :: poll in polls && poll.Observed? && poll.read.Bytes? && poll.read.data != [] ==>
      |poll.read.data| >= |p| - 1
  }

  // `prev` is the end of the stream.
  ghost predicate KeepsEnd(s: Scan) {
    |s.prev| <= |s.stream| && forall i :: 0 <= i < |s.prev| ==> s.prev[i] == s.stream[|s.stream| - |s.prev| + i]
  }

  // Everything consumed since the file start is free of `p`, and enough of its end is kept.
  ghost predicate Remembers(s: Scan, p: seq<byte>) {
    && Fits(s) && !Contains(s.stream, p)
    && KeepsEnd(s)
    && (s.prev == s.stream || |s.prev| >= |p| - 1)
  }

  // `combined` shows the end of what has been consumed.
  lemma AbsorbShows(s: Scan, data: seq<byte>, p: seq<byte>, i: nat)
    requires Fits(s) && KeepsEnd(s) && |data| <= CHUNK
    requires OccursAt(p, s.stream + data, i) && |s.stream| - |s.prev| <= i
    ensures Contains(Absorb(s, data).combined, p)
  {
    var combined, off := Absorb(s, data).combined, |s.stream| - |s.prev|;
    assert forall k :: 0 <= k < |p| ==> p[k] == combined[i - off + k];
    assert OccursAt(p, combined, i - off);
  }

  lemma AbsorbSeesNewOccurrence(s: Scan, data: seq<byte>, p: seq<byte>)
    requires Remembers(s, p) && 0 < |data| <= CHUNK && |p| > 0
    ensures Contains(s.stream + data, p) ==> Contains(Absorb(s, data).combined, p)
  {
    var whole := s.stream + data;
    if Contains(whole, p) {
      var i: nat :| i <= |whole| && OccursAt(p, whole, i);
      assert i + |p| <= |s.stream| ==> OccursAt(p, s.stream, i);
      AbsorbShows(s, data, p, i);
    }
  }

  lemma StepRemembers(s: Scan, poll: Poll, p: seq<byte>)
    requires Remembers(s, p) && FitsBuffer(poll) && LongReads([poll], p) && |p| > 0
    ensures Step(s, poll, p).Waiting? ==> Remembers(Step(s, poll, p).scan, p)
  {
    if Step(s, poll, p).Waiting? && poll.size != s.pos {
      var s' := if poll.size < s.pos then Rewind(s) else s;
      assert Remembers(s', p);
      if poll.read.data != [] {
        assert poll in [poll];
        AbsorbSeesNewOccurrence(s', poll.read.data, p);
      }
    }
  }

  // A run that is still waiting has missed nothing: `p` does not occur in the bytes
  // consumed since the start of the file or since its last truncation.
  lemma {:induction false} NothingMissed(s: Scan, polls: seq<Poll>, p: seq<byte>)
    requires forall poll :: poll in polls ==> FitsBuffer(poll)
    requires Remembers(s, p) && LongReads(polls, p) && |p| > 0
    ensures Run(s, polls, p).Waiting? ==> Remembers(Run(s, polls, p).scan, p)
    decreases |polls|
  {
    if polls != [] {
      assert polls[0] in polls;
      StepRemembers(s, polls[0], p);
      var o := Step(s, polls[0], p);
      if o.Waiting? {
        NothingMissed(o.scan, polls[1..], p);
      }
    }
  }

  lemma StartRemembers(p: seq<byte>)
    requires |p| > 0
    ensures Remembers(Start(), p)
  {
  }

  lemma {:induction false} RunSplits(s: Scan, first: seq<Poll>, rest: seq<Poll>, p: seq<byte>)
    requires Fits(s) && forall poll :: poll in first + rest ==> FitsBuffer(poll)
    requires forall poll :: poll in first ==> poll in first + rest
    requires forall poll :: poll in rest ==> poll in first + rest
    ensures Run(s, first + rest, p)
         == (var o := Run(s, first, p); if o.Waiting? then Run(o.scan, rest, p) else o)
    decreases |first|
  {
    if first == [] {
      assert first + rest == rest;
    } else {
      assert (first + rest)[1..] == first[1..] + rest && first[0] == (first + rest)[0];
      var o := Step(s, first[0], p);
      if o.Waiting? {
        assert forall poll :: poll in first[1..] + rest ==> poll in first + rest;
        RunSplits(o.scan, first[1..], rest, p);
      }
    }
  }

  // The read that consumes the last byte of an occurrence is the read that reports it.
  lemma ReportedByLastByte(polls: seq<Poll>, poll: Poll, p: seq<byte>)
    requires forall x :: x in polls + [poll] ==> FitsBuffer(x)
    requires LongReads(polls + [poll], p) && |p| > 0
    requires forall x :: x in polls ==> x in polls + [poll]
    requires Run(Start(), polls, p).Waiting?
    requires
      var s := Run(Start(), polls, p).scan;
      && poll.Observed? && poll.size > s.pos && poll.read.Bytes? && poll.read.data != []
      && Contains(s.stream + poll.read.data, p)
    ensures !Contains(Run(Start(), polls, p).scan.stream, p)
    ensures Run(Start(), polls + [poll], p) == Found
  {
    StartRemembers(p);
    NothingMissed(Start(), polls, p);
    assert poll in polls + [poll] && poll in [poll];
    RunSplits(Start(), polls, [poll], p);
    AbsorbSeesNewOccurrence(Run(Start(), polls, p).scan, poll.read.data, p);
  }

  // ---------------------------------------------------------------- runs as reads

  // Some read makes the pattern appear in what was consumed since the last truncation.
  predicate Occurs(s: Scan, rs: seq<Read>, p: seq<byte>)
    requires Fits(s) && AreReads(rs)
    decreases |rs|
  {
    rs != [] && (Contains(Take(s, rs[0]).stream, p) || Occurs(Take(s, rs[0]), rs[1..], p))
  }

  function PollsOf(pos: nat, rs: seq<Read>): (polls: seq<Poll>)
    requires AreReads(rs)
    ensures forall poll :: poll in polls ==> FitsBuffer(poll)
    decreases |rs|
  {
    if rs == [] then []
    else
      var again := rs[0].truncated && pos > 0;
      var n := |rs[0].data|;
      [Observed(if again then 0 else pos + n, true, Bytes(rs[0].data))] + PollsOf(if again then n else pos + n, rs[1..])
  }

  lemma {:induction false} RunOnReads(s: Scan, rs: seq<Read>, p: seq<byte>)
    requires Fits(s) && AreReads(rs) && (s.pos == 0 ==> s.prev == [] && s.stream == [])
    ensures Run(s, PollsOf(s.pos, rs), p).Found? <==> Hit(s, rs, p)
    decreases |rs|
  {
    if rs != [] {
      var t := Take(s, rs[0]);
      assert PollsOf(s.pos, rs)[1..] == PollsOf(t.pos, rs[1..]);
      assert s.pos == 0 ==> Rewind(s) == s;
      RunOnReads(t, rs[1..], p);
    }
  }

  // ---------------------------------------------------------------- soundness

  // A read as a length.
  datatype Size = Size(truncated: bool, n: nat)

  function Sizes(rs: seq<Read>): (sizes: seq<Size>)
    ensures |sizes| == |rs|
    ensures forall i :: 0 <= i < |sizes| ==> sizes[i] == Size(rs[i].truncated, |rs[i].data|)
  {
    seq(|rs|, i requires 0 <= i < |rs| => Size(rs[i].truncated, |rs[i].data|))
  }

  predicate AreSizes(sizes: seq<Size>) {
    forall i :: 0 <= i < |sizes| ==> 0 < sizes[i].n <= CHUNK
  }

  // How much of `combined` a read fills: itself and the read before it, if that still counts.
  function Extent(sizes: seq<Size>, i: nat): nat
    requires i < |sizes|
  {
    sizes[i].n + if i == 0 || sizes[i].truncated then 0 else sizes[i - 1].n
  }

  predicate NonShrinking(sizes: seq<Size>) {
    forall i :: 0 < i < |sizes| ==> Extent(sizes, i) >= Extent(sizes, i - 1)
  }

  // The same from the first read on, the read before it having filled `extent` and been
  // `last` long.
  predicate NeverShrinks(extent: nat, last: nat, rs: seq<Read>)
    decreases |rs|
  {
    rs != [] ==>
      var n := |rs[0].data|;
      var next := n + if rs[0].truncated then 0 else last;
      next >= extent && NeverShrinks(next, n, rs[1..])
  }

  lemma {:induction false} NonShrinkingFrom(rs: seq<Read>, k: nat)
    requires NonShrinking(Sizes(rs)) && 0 < k <= |rs|
    ensures NeverShrinks(Extent(Sizes(rs), k - 1), |rs[k - 1].data|, rs[k..])
    decreases |rs| - k
  {
    if k < |rs| {
      var sizes := Sizes(rs);
      assert Extent(sizes, k) >= Extent(sizes, k - 1);
      NonShrinkingFrom(rs, k + 1);
      assert rs[k..][0] == rs[k] && rs[k..][1..] == rs[k + 1..];
    }
  }

  lemma NonShrinkingReads(rs: seq<Read>)
    requires NonShrinking(Sizes(rs))
    ensures NeverShrinks(0, 0, rs)
  {
    if rs != [] {
      NonShrinkingFrom(rs, 1);
    }
  }

  // `combined` is still zero from `live` on.
  ghost predicate Clean(s: Scan, live: nat) {
    Fits(s) && KeepsEnd(s) && live <= 2 * CHUNK && forall i :: live <= i < 2 * CHUNK ==> s.combined[i] == 0
  }

  // The first n bytes of `combined` are the end of the stream.
  ghost predicate ShowsEnd(s: Scan, n: nat) {
    && n <= |s.combined| && n <= |s.stream|
    && forall i :: 0 <= i < n ==> s.combined[i] == s.stream[|s.stream| - n + i]
  }

  lemma AbsorbClean(s: Scan, live: nat, data: seq<byte>)
    requires Clean(s, live) && 0 < |data| <= CHUNK && |s.prev| + |data| >= live
    ensures Clean(Absorb(s, data), |s.prev| + |data|) && ShowsEnd(Absorb(s, data), |s.prev| + |data|)
  {
  }

  lemma CleanHitIsReal(s: Scan, live: nat, p: seq<byte>)
    requires Clean(s, live) && ShowsEnd(s, live) && NulFree(p) && |p| > 0 && Contains(s.combined, p)
    ensures Contains(s.stream, p)
  {
    var i: nat :| i <= |s.combined| && OccursAt(p, s.combined, i);
    assert p[|p| - 1] in p;
    assert i + |p| <= live;
    assert OccursAt(p, s.stream, |s.stream| - live + i);
  }

  function Filled(s: Scan, r: Read): nat {
    |r.data| + if r.truncated then 0 else |s.prev|
  }

  lemma TakeClean(s: Scan, live: nat, r: Read)
    requires Clean(s, live) && 0 < |r.data| <= CHUNK && Filled(s, r) >= live
    ensures Clean(Take(s, r), Filled(s, r)) && ShowsEnd(Take(s, r), Filled(s, r)) && Take(s, r).prev == r.data
  {
    AbsorbClean(if r.truncated then Rewind(s) else s, live, r.data);
  }

  // A run about to hit.
  ghost predicate CleanHit(s: Scan, live: nat, rs: seq<Read>, p: seq<byte>) {
    && AreReads(rs) && NulFree(p) && |p| > 0
    && Clean(s, live)
    && NeverShrinks(live, |s.prev|, rs)
    && Hit(s, rs, p)
  }

  lemma CleanHitNow(s: Scan, live: nat, rs: seq<Read>, p: seq<byte>)
    requires CleanHit(s, live, rs, p) && Contains(Take(s, rs[0]).combined, p)
    ensures Contains(Take(s, rs[0]).stream, p)
  {
    TakeClean(s, live, rs[0]);
    CleanHitIsReal(Take(s, rs[0]), Filled(s, rs[0]), p);
  }

  lemma CleanHitLater(s: Scan, live: nat, rs: seq<Read>, p: seq<byte>)
    requires CleanHit(s, live, rs, p) && !Contains(Take(s, rs[0]).combined, p)
    ensures CleanHit(Take(s, rs[0]), Filled(s, rs[0]), rs[1..], p)
  {
    TakeClean(s, live, rs[0]);
  }

  lemma {:induction false} SoundFrom(s: Scan, live: nat, rs: seq<Read>, p: seq<byte>)
    requires CleanHit(s, live, rs, p)
    ensures Occurs(s, rs, p)
    decreases |rs|
  {
    if Contains(Take(s, rs[0]).combined, p) {
      CleanHitNow(s, live, rs, p);
    } else {
      CleanHitLater(s, live, rs, p);
      SoundFrom(Take(s, rs[0]), Filled(s, rs[0]), rs[1..], p);
    }
  }

  lemma HitIsReal(rs: seq<Read>, p: seq<byte>)
    requires AreReads(rs) && NonShrinking(Sizes(rs))
    requires |p| > 0 && NulFree(p) && Hit(Start(), rs, p)
    ensures Occurs(Start(), rs, p)
  {
    NonShrinkingReads(rs);
    SoundFrom(Start(), 0, rs, p);
  }

  lemma HitOccurs(rs: seq<Read>, p: seq<byte>)
    requires AreReads(rs)
    ensures |p| > 0 && NulFree(p) && NonShrinking(Sizes(rs)) && Hit(Start(), rs, p) ==> Occurs(Start(), rs, p)
  {
    if |p| > 0 && NulFree(p) && NonShrinking(Sizes(rs)) && Hit(Start(), rs, p) {
      HitIsReal(rs, p);
    }
  }

  // Whatever is read in these sizes, what is reported occurs.
  ghost predicate SoundOn(s: Scan, sizes: seq<Size>)
    requires Fits(s)
  {
    forall rs: seq<Read>, p: seq<byte> ::
      AreReads(rs) && Sizes(rs) == sizes && |p| > 0 && NulFree(p) && Hit(s, rs, p) ==> Occurs(s, rs, p)
  }

  ghost predicate SoundFor(sizes: seq<Size>) {
    SoundOn(Start(), sizes)
  }

  function PlantedData(n: nat, at: int): (c: seq<byte>)
    requires n > 0
    ensures |c| == n
  {
    if at > 0 then Repeat(1, n) else if at == 0 then Repeat(1, n - 1) + [2] else Repeat(3, n)
  }

  // Reads of the given sizes whose bytes are 1 before read `at`, whose read `at` ends in a
  // 2, and which are 3 afterwards.
  function Planted(sizes: seq<Size>, at: int): (rs: seq<Read>)
    requires AreSizes(sizes)
    ensures AreReads(rs) && Sizes(rs) == sizes
    decreases |sizes|
  {
    if sizes == [] then []
    else
      [Read(sizes[0].truncated, PlantedData(sizes[0].n, at))] + Planted(sizes[1..], at - 1)
  }

  lemma PlantedFirst(sizes: seq<Size>, at: int)
    requires AreSizes(sizes) && sizes != []
    ensures
      var rs := Planted(sizes, at);
      rs[0] == Read(sizes[0].truncated, PlantedData(sizes[0].n, at)) && rs[1..] == Planted(sizes[1..], at - 1)
  {
  }

  predicate TwoOne(p: seq<byte>) {
    |p| == 2 && p[0] == 2 && p[1] == 1
  }

  // `combined` starts with n ones, and so does the last read.
  ghost predicate Ones(s: Scan, n: nat) {
    && Fits(s) && n <= 2 * CHUNK
    && (forall i :: 0 <= i < n ==> s.combined[i] == 1)
    && forall i :: 0 <= i < |s.prev| ==> s.prev[i] == 1
  }

  lemma TakeOnes(s: Scan, z: Size)
    requires Ones(s, 0) && 0 < z.n <= CHUNK
    ensures
      var r := Read(z.truncated, Repeat(1, z.n));
      Ones(Take(s, r), Filled(s, r)) && |Take(s, r).prev| == z.n
  {
  }

  lemma StaleHit(s: Scan, extent: nat, r: Read, p: seq<byte>)
    requires Ones(s, extent) && 0 < |r.data| <= CHUNK && Filled(s, r) < extent
    requires r.data[|r.data| - 1] == 2 && TwoOne(p)
    ensures Contains(Take(s, r).combined, p)
  {
    var t := Take(s, r);
    var k := Filled(s, r) - 1;
    assert t.combined[k] == 2 && t.combined[k + 1] == s.combined[k + 1];
    assert OccursAt(p, t.combined, k);
  }

  // Read `at`, counted from the one that comes now, fills less than the one before it; the
  // last read filled `extent`.
  ghost predicate ShrinksAt(s: Scan, extent: nat, sizes: seq<Size>, at: nat) {
    && AreSizes(sizes) && Ones(s, extent) && at < |sizes|
    && (at == 0 ==> sizes[0].n + (if sizes[0].truncated then 0 else |s.prev|) < extent)
    && (at == 1 ==> Extent(sizes, 1) < sizes[0].n + if sizes[0].truncated then 0 else |s.prev|)
    && (at >= 2 ==> Extent(sizes, at) < Extent(sizes, at - 1))
  }

  lemma ShrinksLater(s: Scan, extent: nat, sizes: seq<Size>, at: nat)
    requires ShrinksAt(s, extent, sizes, at) && at > 0
    ensures
      var r := Read(sizes[0].truncated, Repeat(1, sizes[0].n));
      ShrinksAt(Take(s, r), Filled(s, r), sizes[1..], at - 1)
  {
    TakeOnes(s, sizes[0]);
    assert at >= 2 ==> Extent(sizes[1..], at - 1) == Extent(sizes, at);
    assert at >= 3 ==> Extent(sizes[1..], at - 2) == Extent(sizes, at - 1);
  }

  lemma PlantedNow(s: Scan, extent: nat, sizes: seq<Size>, p: seq<byte>)
    requires ShrinksAt(s, extent, sizes, 0) && TwoOne(p)
    ensures Hit(s, Planted(sizes, 0), p)
  {
    PlantedFirst(sizes, 0);
    StaleHit(s, extent, Planted(sizes, 0)[0], p);
  }

  lemma PlantedLater(s: Scan, sizes: seq<Size>, at: nat, p: seq<byte>)
    requires Fits(s) && AreSizes(sizes) && sizes != [] && at > 0
    requires Hit(Take(s, Read(sizes[0].truncated, Repeat(1, sizes[0].n))), Planted(sizes[1..], at - 1), p)
    ensures Hit(s, Planted(sizes, at), p)
  {
    PlantedFirst(sizes, at);
  }

  lemma {:induction false} PlantedHit(s: Scan, extent: nat, sizes: seq<Size>, at: nat, p: seq<byte>)
    requires ShrinksAt(s, extent, sizes, at) && TwoOne(p)
    ensures Hit(s, Planted(sizes, at), p)
    decreases at
  {
    if at == 0 {
      PlantedNow(s, extent, sizes, p);
    } else {
      var r := Read(sizes[0].truncated, Repeat(1, sizes[0].n));
      ShrinksLater(s, extent, sizes, at);
      PlantedHit(Take(s, r), Filled(s, r), sizes[1..], at - 1, p);
      PlantedLater(s, sizes, at, p);
    }
  }

  // What has been consumed before read `at` is ones only; afterwards it has no 1 right
  // after a 2.
  ghost predicate Quiet(s: Scan, at: int, p: seq<byte>) {
    if at >= 0 then forall i :: 0 <= i < |s.stream| ==> s.stream[i] == 1 else !Contains(s.stream, p)
  }

  lemma QuietNext(s: Scan, z: Size, at: int, p: seq<byte>)
    requires Fits(s) && 0 < z.n <= CHUNK && Quiet(s, at, p) && TwoOne(p)
    ensures
      var t := Take(s, Read(z.truncated, PlantedData(z.n, at)));
      Quiet(t, at - 1, p) && !Contains(t.stream, p)
  {
    var before := if z.truncated then [] else s.stream;
    var c := PlantedData(z.n, at);
    var whole := before + c;
    forall i: nat | i + 2 <= |whole|
      ensures !OccursAt(p, whole, i)
    {
      assert at < 0 && i + 2 <= |before| ==> !OccursAt(p, before, i);
      assert p[0] == 2 && p[1] == 1;
    }
  }

  lemma {:induction false} PlantedQuiet(s: Scan, sizes: seq<Size>, at: int, p: seq<byte>)
    requires AreSizes(sizes) && Fits(s) && Quiet(s, at, p) && TwoOne(p)
    ensures !Occurs(s, Planted(sizes, at), p)
    decreases |sizes|
  {
    if sizes != [] {
      PlantedFirst(sizes, at);
      QuietNext(s, sizes[0], at, p);
      PlantedQuiet(Take(s, Planted(sizes, at)[0]), sizes[1..], at - 1, p);
    }
  }

  lemma ShrinksFromStart(sizes: seq<Size>, i: nat)
    requires AreSizes(sizes) && 0 < i < |sizes| && Extent(sizes, i) < Extent(sizes, i - 1)
    ensures ShrinksAt(Start(), 0, sizes, i)
  {
  }

  lemma TwoOneNulFree(p: seq<byte>)
    requires TwoOne(p)
    ensures NulFree(p)
  {
  }

  lemma NotSound(s: Scan, rs: seq<Read>, p: seq<byte>)
    requires Fits(s) && AreReads(rs) && |p| > 0 && NulFree(p) && Hit(s, rs, p) && !Occurs(s, rs, p)
    ensures !SoundOn(s, Sizes(rs))
  {
  }

  lemma PlantedIsWrong(s: Scan, sizes: seq<Size>, i: nat, p: seq<byte>)
    requires ShrinksAt(s, 0, sizes, i) && Quiet(s, i, p) && TwoOne(p)
    ensures !SoundOn(s, sizes)
  {
    var rs := Planted(sizes, i);
    PlantedHit(s, 0, sizes, i, p);
    PlantedQuiet(s, sizes, i, p);
    TwoOneNulFree(p);
    NotSound(s, rs, p);
  }

  lemma UnsoundIfShrinking(sizes: seq<Size>)
    requires AreSizes(sizes) && !NonShrinking(sizes)
    ensures !SoundFor(sizes)
  {
    var i :| 0 < i < |sizes| && Extent(sizes, i) < Extent(sizes, i - 1);
    ShrinksFromStart(sizes, i);
    PlantedIsWrong(Start(), sizes, i, [2, 1]);
  }

  // Bytes left over in `combined` are harmless for exactly those runs where no read and
  // its predecessor fill less of it than was filled before, truncations included.
  lemma SoundIffNonShrinking(sizes: seq<Size>)
    requires AreSizes(sizes)
    ensures SoundFor(sizes) <==> NonShrinking(sizes)
  {
    if NonShrinking(sizes) {
      forall rs: seq<Read>, p: seq<byte> |
        AreReads(rs) && Sizes(rs) == sizes && |p| > 0 && NulFree(p) && Hit(Start(), rs, p)
        ensures Occurs(Start(), rs, p)
      {
        HitIsReal(rs, p);
      }
    } else {
      UnsoundIfShrinking(sizes);
    }
  }

  // On a file that only grows: no read is shorter than the one two before it.
  lemma NonShrinkingWhenGrowing(sizes: seq<Size>)
    requires AreSizes(sizes) && forall i :: 0 <= i < |sizes| ==> !sizes[i].truncated
    ensures NonShrinking(sizes) <==> forall i :: 2 <= i < |sizes| ==> sizes[i].n >= sizes[i - 2].n
  {
    if NonShrinking(sizes) {
      forall i | 2 <= i < |sizes|
        ensures sizes[i].n >= sizes[i - 2].n
      {
        assert Extent(sizes, i) >= Extent(sizes, i - 1);
      }
    } else {
      var i :| 0 < i < |sizes| && Extent(sizes, i) < Extent(sizes, i - 1);
      assert i >= 2 && sizes[i].n < sizes[i - 2].n;
    }
  }

  // ---------------------------------------------------------------- exactness

  // Full reads of a file that only grows.
  predicate FullReads(rs: seq<Read>) {
    forall i :: 0 <= i < |rs| ==> !rs[i].truncated && |rs[i].data| == CHUNK
  }

  function Concat(rs: seq<Read>): seq<byte> {
    if rs == [] then [] else rs[0].data + Concat(rs[1..])
  }

  ghost predicate ExactFor(len: nat) {
    forall rs: seq<Read>, p: seq<byte> ::
      FullReads(rs) && |p| == len && NulFree(p) ==>
      (Hit(Start(), rs, p) <==> Contains(Concat(rs), p))
  }

  lemma ContainsPrefix(a: seq<byte>, b: seq<byte>, p: seq<byte>)
    requires Contains(a, p)
    ensures Contains(a + b, p)
  {
    var i: nat :| i <= |a| && OccursAt(p, a, i);
    assert OccursAt(p, a + b, i);
  }

  lemma AppendAssociative(a: seq<byte>, b: seq<byte>, c: seq<byte>)
    ensures a + (b + c) == (a + b) + c
  {
  }

  lemma {:induction false} OccursInAll(s: Scan, rs: seq<Read>, p: seq<byte>)
    requires Fits(s) && FullReads(rs) && Occurs(s, rs, p)
    ensures Contains(s.stream + Concat(rs), p)
    decreases |rs|
  {
    var c, rest := rs[0].data, Concat(rs[1..]);
    AppendAssociative(s.stream, c, rest);
    if Contains(s.stream + c, p) {
      ContainsPrefix(s.stream + c, rest, p);
    } else {
      OccursInAll(Take(s, rs[0]), rs[1..], p);
    }
  }

  lemma {:induction false} CompleteOnReads(s: Scan, rs: seq<Read>, p: seq<byte>)
    requires Remembers(s, p) && FullReads(rs) && 0 < |p| <= CHUNK + 1
    requires !Hit(s, rs, p)
    ensures !Contains(s.stream + Concat(rs), p)
    decreases |rs|
  {
    if rs == [] {
      assert s.stream + Concat(rs) == s.stream;
    } else {
      AbsorbSeesNewOccurrence(s, rs[0].data, p);
      AppendAssociative(s.stream, rs[0].data, Concat(rs[1..]));
      CompleteOnReads(Take(s, rs[0]), rs[1..], p);
    }
  }

  lemma FullReadsNonShrinking(rs: seq<Read>)
    requires FullReads(rs)
    ensures NonShrinking(Sizes(rs))
  {
    var sizes := Sizes(rs);
    forall i | 0 < i < |sizes|
      ensures Extent(sizes, i) >= Extent(sizes, i - 1)
    {
      assert sizes[i] == Size(false, CHUNK) && sizes[i - 1] == Size(false, CHUNK);
      assert i > 1 ==> sizes[i - 2] == Size(false, CHUNK);
    }
  }

  lemma ExactWithin65(rs: seq<Read>, p: seq<byte>)
    requires FullReads(rs) && 1 <= |p| <= CHUNK + 1 && NulFree(p)
    ensures Hit(Start(), rs, p) <==> Contains(Concat(rs), p)
  {
    assert Start().stream + Concat(rs) == Concat(rs);
    if Hit(Start(), rs, p) {
      FullReadsNonShrinking(rs);
      HitIsReal(rs, p);
      OccursInAll(Start(), rs, p);
    } else {
      StartRemembers(p);
      CompleteOnReads(Start(), rs, p);
    }
  }

  lemma TooFewOnes(s: seq<byte>, len: nat)
    requires 0 < len <= |s|
    requires (forall i :: 0 <= i <= |s| - len ==> s[i] != 1) || (forall i :: len - 1 <= i < |s| ==> s[i] != 1)
    ensures !Contains(s, Repeat(1, len))
  {
    forall i: nat | i + len <= |s|
      ensures !OccursAt(Repeat(1, len), s, i)
    {
      assert Repeat(1, len)[0] == 1 && Repeat(1, len)[len - 1] == 1;
    }
  }

  lemma NoHitInThree(r1: Read, r2: Read, r3: Read, p: seq<byte>)
    requires 0 < |r1.data| <= CHUNK && 0 < |r2.data| <= CHUNK && 0 < |r3.data| <= CHUNK
    requires
      var s1 := Take(Start(), r1);
      var s2 := Take(s1, r2);
      !Contains(s1.combined, p) && !Contains(s2.combined, p) && !Contains(Take(s2, r3).combined, p)
    ensures !Hit(Start(), [r1, r2, r3], p)
  {
    assert [r1, r2, r3][1..] == [r2, r3] && [r2, r3][1..] == [r3];
    assert !Hit(Take(Take(Start(), r1), r2), [r3], p);
    assert !Hit(Take(Start(), r1), [r2, r3], p);
  }

  lemma ConcatThree(r1: Read, r2: Read, r3: Read)
    ensures Concat([r1, r2, r3]) == r1.data + r2.data + r3.data
  {
    assert [r1, r2, r3][1..] == [r2, r3] && [r2, r3][1..] == [r3];
    assert Concat([r3]) == r3.data && Concat([r2, r3]) == r2.data + r3.data;
    AppendAssociative(r1.data, r2.data, r3.data);
  }

  lemma MissesLength66To128(len: nat)
    requires CHUNK + 2 <= len <= 2 * CHUNK
    ensures !ExactFor(len)
  {
    var y := len - CHUNK - 1;
    var r1, r2 := Read(false, Repeat(2, CHUNK - 1) + [1]), Read(false, Repeat(1, CHUNK));
    var r3 := Read(false, Repeat(1, y) + Repeat(2, CHUNK - y));
    var rs, p := [r1, r2, r3], Repeat(1, len);
    var s1 := Take(Start(), r1);
    var s2 := Take(s1, r2);
    var s3 := Take(s2, r3);
    TooFewOnes(s1.combined, len);
    TooFewOnes(s2.combined, len);
    TooFewOnes(s3.combined, len);
    NoHitInThree(r1, r2, r3, p);
    ConcatThree(r1, r2, r3);
    var whole := Concat(rs);
    assert OccursAt(p, whole, CHUNK - 1);
  }

  lemma {:induction false} OnesConcat(k: nat)
    ensures Concat(seq(k, _ => Read(false, Repeat(1, CHUNK)))) == Repeat(1, CHUNK * k)
  {
    if k > 0 {
      var rs := seq(k, _ => Read(false, Repeat(1, CHUNK)));
      assert rs[1..] == seq(k - 1, _ => Read(false, Repeat(1, CHUNK)));
      OnesConcat(k - 1);
    }
  }

  lemma {:induction false} TooLongToHit(s: Scan, rs: seq<Read>, p: seq<byte>)
    requires Fits(s) && AreReads(rs) && |p| > 2 * CHUNK
    ensures !Hit(s, rs, p)
    decreases |rs|
  {
    if rs != [] {
      TooLongToHit(Take(s, rs[0]), rs[1..], p);
    }
  }

  // Over full 64-byte reads the monitor is an exact substring search for patterns of
  // length 1 to 65 and for no other length.
  lemma ExactIffUpTo65(len: nat)
    ensures ExactFor(len) <==> 1 <= len <= CHUNK + 1
  {
    if len == 0 {
      var rs: seq<Read>, p: seq<byte> := [], [];
      assert OccursAt(p, Concat(rs), 0);
      assert !Hit(Start(), rs, p) && NulFree(p) && FullReads(rs);
    } else if len <= CHUNK + 1 {
      forall rs: seq<Read>, p: seq<byte> | FullReads(rs) && |p| == len && NulFree(p)
        ensures Hit(Start(), rs, p) <==> Contains(Concat(rs), p)
      {
        ExactWithin65(rs, p);
      }
    } else if len <= 2 * CHUNK {
      MissesLength66To128(len);
    } else {
      var rs, p := seq(len, _ => Read(false, Repeat(1, CHUNK))), Repeat(1, len);
      OnesConcat(len);
      var whole := Concat(rs);
      assert OccursAt(p, whole, 0);
      TooLongToHit(Start(), rs, p);
      assert FullReads(rs) && NulFree(p);
    }
  }
}
