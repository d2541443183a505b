// The line writer of internal/socket/tailer.go: time-stamped lines from any number of
// connections, a Sync every so many lines, and Close.
//
// The writer, Sync and Close may fail; how is a parameter of each call. The clock is the
// `stamp` parameter. Calls are atomic, since the source holds the mutex for all of them.
module Socket {
  import opened Text
  import opened Wrappers

  const SYNC_EVERY: nat := 100

  datatype Error = TailerClosed | WriteFailed | PartialWrite | SyncFailed | CloseFailed

  // What the writer does with one write: it leaves `missing` bytes out, and may return an error.
  datatype Write = Write(missing: nat, err: bool)

  function Body(stamp: string, line: string): string {
    "[" + stamp + "] " + line
  }

  function Record(stamp: string, line: string): (r: string)
    ensures r != ""
  {
    Body(stamp, line) + "\n"
  }

  // ---------------------------------------------------------------- what was written

  // One call of WriteLine: who made it, and how many bytes of the record reached the writer.
  datatype Attempt = Attempt(conn: nat, stamp: string, line: string, bytes: nat) {
    predicate Whole() {
      bytes == |Record(stamp, line)|
    }

    function Piece(): string {
      if bytes <= |Record(stamp, line)| then Record(stamp, line)[..bytes] else Record(stamp, line)
    }
  }

  datatype History = Start | After(before: History, last: Attempt)

  function Bytes(h: History): string {
    match h
    case Start => ""
    case After(before, a) => Bytes(before) + a.Piece()
  }

  // The lines connection c has handed over, in order.
  function Handed(h: History, c: nat): seq<string> {
    match h
    case Start => []
    case After(before, a) => if a.conn == c then Handed(before, c) + [a.line] else Handed(before, c)
  }

  // Those of them that were written whole.
  function Kept(h: History, c: nat): seq<string> {
    match h
    case Start => []
    case After(before, a) => if a.conn == c && a.Whole() then Kept(before, c) + [a.line] else Kept(before, c)
  }

  datatype Entry = Entry(stamp: string, line: string) | NoEntry

  // Everything that was written whole, of all connections.
  function Entries(h: History): seq<Entry> {
    match h
    case Start => []
    case After(before, a) => if a.Whole() then Entries(before) + [Entry(a.stamp, a.line)] else Entries(before)
  }

  // Whose they are.
  function Owners(h: History): seq<nat> {
    match h
    case Start => []
    case After(before, a) => if a.Whole() then Owners(before) + [a.conn] else Owners(before)
  }

  predicate OnlyFrom(h: History, connections: nat) {
    h.After? ==> h.last.conn < connections && OnlyFrom(h.before, connections)
  }

  // The lines of the entries that c owns, in order.
  function Owned(log: seq<Entry>, owners: seq<nat>, c: nat): seq<string>
    requires |owners| == |log|
    decreases |log|
  {
    if log == [] then []
    else
      var n := |log| - 1;
      var before := Owned(log[..n], owners[..n], c);
      if owners[n] == c && log[n].Entry? then before + [log[n].line] else before
  }

  // The log deals every entry to one of the parts, in order and without remainder.
  ghost predicate IsMerge(log: seq<Entry>, owners: seq<nat>, parts: seq<seq<string>>) {
    && |owners| == |log|
    && (forall i :: 0 <= i < |log| ==> log[i].Entry? && owners[i] < |parts|)
    && forall c :: 0 <= c < |parts| ==> Owned(log, owners, c) == parts[c]
  }

  lemma OwnedSnoc(log: seq<Entry>, owners: seq<nat>, e: Entry, owner: nat, c: nat)
    requires |owners| == |log| && e.Entry?
    ensures Owned(log + [e], owners + [owner], c)
         == Owned(log, owners, c) + if owner == c then [e.line] else []
  {
    assert (log + [e])[..|log|] == log && (owners + [owner])[..|log|] == owners;
  }

  lemma {:induction false} OwnedIsKept(h: History, c: nat)
    ensures |Owners(h)| == |Entries(h)| && Owned(Entries(h), Owners(h), c) == Kept(h, c)
  {
    if h.After? {
      OwnedIsKept(h.before, c);
      if h.last.Whole() {
        OwnedSnoc(Entries(h.before), Owners(h.before), Entry(h.last.stamp, h.last.line), h.last.conn, c);
      }
    }
  }

  lemma {:induction false} OwnersKnown(h: History, connections: nat)
    requires OnlyFrom(h, connections)
    ensures |Owners(h)| == |Entries(h)|
    ensures forall i :: 0 <= i < |Entries(h)| ==> Entries(h)[i].Entry? && Owners(h)[i] < connections
  {
    if h.After? {
      OwnersKnown(h.before, connections);
    }
  }

  predicate AllWhole(h: History) {
    h.After? ==> h.last.Whole() && AllWhole(h.before)
  }

  // Whole lines first, and then lines of which nothing was written.
  predicate Tidy(h: History) {
    AllWhole(h) || (h.After? && h.last.bytes == 0 && Tidy(h.before))
  }

  predicate Plain(h: History) {
    h.After? ==> PlainStamp(h.last.stamp) && '\n' !in h.last.line && Plain(h.before)
  }

  predicate PlainStamp(stamp: string) {
    '\n' !in stamp && ']' !in stamp
  }

  lemma {:induction false} KeptInOrder(h: History, c: nat)
    requires Tidy(h)
    ensures Kept(h, c) <= Handed(h, c)
    ensures AllWhole(h) ==> Kept(h, c) == Handed(h, c)
  {
    if h.After? {
      KeptInOrder(h.before, c);
    }
  }

  // ---------------------------------------------------------------- reading it back

  function ReadEntry(s: string): Entry {
    var i := Find(s, ']');
    if "[" <= s && 1 <= i && i + 1 < |s| && s[i + 1] == ' ' then Entry(s[1..i], s[i + 2..]) else NoEntry
  }

  function ReadLog(s: string): seq<Entry>
    decreases |s|
  {
    var i := Find(s, '\n');
    if i == |s| then [] else [ReadEntry(s[..i])] + ReadLog(s[i + 1..])
  }

  lemma ReadBody(stamp: string, line: string)
    requires ']' !in stamp
    ensures ReadEntry(Body(stamp, line)) == Entry(stamp, line)
  {
    var s := Body(stamp, line);
    FindIs(s, ']', |stamp| + 1);
    assert s[1..|stamp| + 1] == stamp && s[|stamp| + 3..] == line;
  }

  function Unlines(lines: seq<string>): string {
    if lines == [] then "" else lines[0] + "\n" + Unlines(lines[1..])
  }

  lemma {:induction false} UnlinesSnoc(lines: seq<string>, line: string)
    ensures Unlines(lines + [line]) == Unlines(lines) + (line + "\n")
  {
    if lines == [] {
      assert [line][1..] == [];
    } else {
      assert (lines + [line])[1..] == lines[1..] + [line];
      UnlinesSnoc(lines[1..], line);
    }
  }

  lemma CutFirst(line: string, rest: string)
    requires '\n' !in line
    ensures ReadLog(line + "\n" + rest) == [ReadEntry(line)] + ReadLog(rest)
  {
    var s := line + "\n" + rest;
    FindIs(s, '\n', |line|);
    assert s[..|line|] == line && s[|line| + 1..] == rest;
  }

  lemma {:induction false} ReadUnlines(lines: seq<string>)
    requires forall i :: 0 <= i < |lines| ==> '\n' !in lines[i]
    ensures |ReadLog(Unlines(lines))| == |lines|
    ensures forall i :: 0 <= i < |lines| ==> ReadLog(Unlines(lines))[i] == ReadEntry(lines[i])
  {
    if lines != [] {
      CutFirst(lines[0], Unlines(lines[1..]));
      ReadUnlines(lines[1..]);
    }
  }

  // The text of the entries, a line each.
  function Bodies(h: History): seq<string> {
    match h
    case Start => []
    case After(before, a) => if a.Whole() then Bodies(before) + [Body(a.stamp, a.line)] else Bodies(before)
  }

  lemma {:induction false} BytesAreBodies(h: History)
    requires Tidy(h)
    ensures Bytes(h) == Unlines(Bodies(h))
  {
    if h.After? {
      BytesAreBodies(h.before);
      if h.last.Whole() {
        UnlinesSnoc(Bodies(h.before), Body(h.last.stamp, h.last.line));
        assert h.last.Piece() == Record(h.last.stamp, h.last.line);
      } else {
        assert h.last.Piece() == "";
      }
    }
  }

  lemma {:induction false} BodiesRead(h: History)
    requires Plain(h)
    ensures |Bodies(h)| == |Entries(h)|
    ensures forall i :: 0 <= i < |Bodies(h)| ==> '\n' !in Bodies(h)[i] && ReadEntry(Bodies(h)[i]) == Entries(h)[i]
  {
    if h.After? {
      BodiesRead(h.before);
      ReadBody(h.last.stamp, h.last.line);
      assert '\n' !in Body(h.last.stamp, h.last.line);
    }
  }

  // As long as no line was torn, the text is the lines written whole, in the order of the
  // writes, and reads back as exactly those.
  lemma ReadsBack(h: History)
    requires Tidy(h) && Plain(h)
    ensures Bytes(h) == Unlines(Bodies(h)) && ReadLog(Bytes(h)) == Entries(h)
  {
    BytesAreBodies(h);
    BodiesRead(h);
    ReadUnlines(Bodies(h));
  }

  // ---------------------------------------------------------------- the gauge

  function Count(h: History): nat {
    match h
    case Start => 0
    case After(before, a) => if a.Whole() then Count(before) + 1 else Count(before)
  }

  // The gauge after n lines when nothing fails.
  function GaugeAfter(n: nat): nat {
    if n == 0 then SYNC_EVERY
    else if GaugeAfter(n - 1) > 0 then GaugeAfter(n - 1) - 1
    else SYNC_EVERY
  }

  predicate Paced(gauge: nat, h: History) {
    gauge == GaugeAfter(Count(h))
  }

  lemma PacedAfter(gauge: nat, h: History, a: Attempt)
    requires Paced(gauge, h) && a.Whole()
    ensures Paced(if gauge > 0 then gauge - 1 else SYNC_EVERY, After(h, a))
  {
  }

  // The file is synced after every 101 lines, not after every 100.
  lemma {:induction false} SyncsEvery101(n: nat)
    ensures GaugeAfter(n) == SYNC_EVERY - n % (SYNC_EVERY + 1)
  {
    if n > 0 {
      SyncsEvery101(n - 1);
    }
  }

  // ---------------------------------------------------------------- the tailer

  class Tailer {
    const isFile: bool
    var closed: bool
    var gauge: nat
    // what the writer has received, and for a file the part of it that is synced
    var text: string
    ghost var synced: string
    ghost var history: History
    // lines written since the last successful Sync
    ghost var unsynced: nat
    // Syncs of WriteLine that have failed since its last successful one
    ghost var overdue: nat
    // a Close has synced the file since then
    ghost var closeSynced: bool

    ghost predicate Valid()
      reads this
    {
      && text == Bytes(history)
      && synced <= text
      && (isFile ==>
           && (overdue > 0 ==> gauge == 0)
           && gauge + unsynced <= SYNC_EVERY + overdue
           && (!closeSynced ==> gauge + unsynced == SYNC_EVERY + overdue))
    }

    constructor (file: bool)
      ensures Valid() && isFile == file && !closed && history == Start && text == ""
      ensures overdue == 0 && !closeSynced && (file ==> gauge == SYNC_EVERY)
      ensures InStep(this) && Untorn(this)
    {
      isFile := file;
      closed := false;
      gauge := if file then SYNC_EVERY else 0;
      text, synced, history := "", "", Start;
      unsynced, overdue, closeSynced := 0, 0, false;
    }

    method WriteLine(ghost conn: nat, stamp: string, line: string, write: Write, syncFails: bool) returns (err: Option<Error>)
      requires Valid()
      modifies this
      ensures Valid() && closed == old(closed)
      ensures history.After? && history.before == old(history)
      ensures history.last.conn == conn && history.last.stamp == stamp && history.last.line == line
      // closed: nothing changes
      ensures old(closed) ==> err == Some(TailerClosed) && history.last.bytes == 0 && gauge == old(gauge)
      ensures old(closed) ==> text == old(text) && unsynced == old(unsynced) && synced == old(synced)
      ensures old(closed) ==> overdue == old(overdue) && closeSynced == old(closeSynced)
      // a failed or short write leaves what it wrote, and no more
      ensures !old(closed) ==>
                var size := |Record(stamp, line)|;
                history.last.bytes == if write.missing <= size then size - write.missing else 0
      ensures !old(closed) && write.missing == 0 ==> history.last.Whole()
      ensures !old(closed) && write != Write(0, false) ==>
                err == Some(if write.err then WriteFailed else PartialWrite) && gauge == old(gauge)
                && unsynced == old(unsynced)
      // a full write counts, and comes with a Sync when the gauge is down to 0
      ensures !old(closed) && write == Write(0, false) ==>
                err == if isFile && old(gauge) == 0 && syncFails then Some(SyncFailed) else None
      ensures err.None? && isFile ==> gauge == if old(gauge) > 0 then old(gauge) - 1 else SYNC_EVERY
      ensures err.None? && isFile && old(gauge) == 0 ==> synced == text && unsynced == 0
      ensures err.None? && !(isFile && old(gauge) == 0) ==> synced == old(synced) && unsynced == old(unsynced) + 1
      ensures err == Some(SyncFailed) ==>
                gauge == 0 && overdue == old(overdue) + 1 && unsynced == old(unsynced) + 1 && synced == old(synced)
      ensures !syncFails && old(overdue) == 0 ==> overdue == 0
      ensures closeSynced ==> old(closeSynced)
    {
      if closed {
        history := After(history, Attempt(conn, stamp, line, 0));
        return Some(TailerClosed);
      }
      var record := Record(stamp, line);
      var n := if write.missing <= |record| then |record| - write.missing else 0;
      text := text + record[..n];
      history := After(history, Attempt(conn, stamp, line, n));
      if write.err {
        return Some(WriteFailed);
      } else if n != |record| {
        return Some(PartialWrite);
      }
      unsynced := unsynced + 1;
      if !isFile {
        return None;
      }
      if gauge > 0 {
        gauge := gauge - 1;
        return None;
      }
      if syncFails {
        overdue := overdue + 1;
        return Some(SyncFailed);
      }
      synced, unsynced, overdue, closeSynced := text, 0, 0, false;
      gauge := SYNC_EVERY;
      err := None;
    }

    // A successful Close of a file leaves nothing unsynced exactly when its Sync succeeded
    // or there was nothing to sync: the failure of that Sync is only logged.
    method Close(syncFails: bool, closeFails: bool) returns (err: Option<Error>)
      requires Valid()
      modifies `closed, `synced, `unsynced, `closeSynced
      ensures Valid()
      ensures err.None? <==> closed
      ensures err.None? <==> old(closed) || !isFile || !closeFails
      ensures err.Some? ==> err == Some(CloseFailed)
      ensures closed && !old(closed) && isFile ==> (synced == text <==> !syncFails || old(synced) == text)
      ensures old(closed) ==> synced == old(synced) && unsynced == old(unsynced)
      ensures closeSynced ==> old(closeSynced) || (isFile && !old(closed))
      ensures !closeFails && !old(closeSynced) && !syncFails && isFile && !old(closed) ==> unsynced == 0
      ensures err == Some(CloseFailed) && syncFails ==> closeSynced == old(closeSynced)
    {
      if closed {
        return None;
      }
      if !isFile {
        closed := true;
        return None;
      }
      if !syncFails {
        synced, unsynced, closeSynced := text, 0, true;
      }
      if closeFails {
        return Some(CloseFailed);
      }
      closed := true;
      err := None;
    }
  }
  // ---------------------------------------------------------------- the connections

  function DropCR(s: string): string {
    if s != "" && s[|s| - 1] == '\r' then s[..|s| - 1] else s
  }

  // The lines a connection's scanner yields for the bytes it reads.
  function ScanLines(s: string): seq<string>
    decreases |s|
  {
    if s == "" then []
    else
      var i := Find(s, '\n');
      if i == |s| then [DropCR(s)] else [DropCR(s[..i])] + ScanLines(s[i + 1..])
  }

  lemma {:induction false} ScannedPlain(s: string, k: nat)
    requires k < |ScanLines(s)|
    ensures '\n' !in ScanLines(s)[k]
    decreases |s|
  {
    var i := Find(s, '\n');
    if k == 0 {
      assert '\n' !in s[..i];
    } else {
      ScannedPlain(s[i + 1..], k - 1);
    }
  }

  predicate EndsInCR(s: string) {
    s != "" && s[|s| - 1] == '\r'
  }

  // The lines with what was dropped after each put back.
  function Glue(lines: seq<string>, endings: seq<string>): string
    requires |lines| == |endings|
  {
    if lines == [] then "" else lines[0] + endings[0] + Glue(lines[1..], endings[1..])
  }

  // What may have been dropped after a line: its newline, which only the last line may
  // lack, and the "\r" right before the newline or before the end of the bytes.
  predicate Dropped(line: string, ending: string, last: bool) {
    && '\n' !in line
    && (ending == "\n" || ending == "\r\n" || (last && (ending == "\r" || (ending == "" && line != ""))))
    && (ending == "\n" || ending == "" ==> !EndsInCR(line))
  }

  predicate AllDropped(lines: seq<string>, endings: seq<string>)
    requires |lines| == |endings|
  {
    forall i :: 0 <= i < |lines| ==> Dropped(lines[i], endings[i], i == |lines| - 1)
  }

  // The lines, each with its ending put back, make up the bytes in order.
  predicate MakeUp(s: string, lines: seq<string>, endings: seq<string>) {
    |lines| == |endings| && s == Glue(lines, endings) && AllDropped(lines, endings)
  }

  lemma MakeUpRest(s: string, lines: seq<string>, endings: seq<string>)
    requires MakeUp(s, lines, endings) && |lines| > 1
    ensures
      var i := Find(s, '\n');
      && i < |s| && lines[0] == DropCR(s[..i])
      && MakeUp(s[i + 1..], lines[1..], endings[1..])
  {
    var line, ending := lines[0], endings[0];
    assert Dropped(line, ending, false);
    var i := |line| + |ending| - 1;
    FindIs(s, '\n', i);
    assert s[i + 1..] == Glue(lines[1..], endings[1..]);
    assert ending == "\n" ==> s[..i] == line;
    assert ending == "\r\n" ==> s[..i] == line + "\r" && DropCR(line + "\r") == line;
  }

  lemma MakeUpOne(s: string, line: string, ending: string)
    requires Dropped(line, ending, true) && s == line + ending
    ensures ScanLines(s) == [line]
  {
    if ending == "" || ending == "\r" {
      assert '\n' !in s;
      assert ending == "" ==> s == line;
      assert ending == "\r" ==> s[..|s| - 1] == line;
    } else {
      var i := |s| - 1;
      FindIs(s, '\n', i);
      assert s[i + 1..] == "";
      assert s[..i] == if ending == "\n" then line else line + "\r";
    }
  }

  lemma {:induction false} ScanIsTheOnly(s: string, lines: seq<string>, endings: seq<string>)
    requires MakeUp(s, lines, endings)
    ensures lines == ScanLines(s)
    decreases |lines|
  {
    if |lines| == 1 {
      assert s == lines[0] + endings[0] && Dropped(lines[0], endings[0], true);
      MakeUpOne(s, lines[0], endings[0]);
    } else if |lines| > 1 {
      MakeUpRest(s, lines, endings);
      ScanIsTheOnly(s[Find(s, '\n') + 1..], lines[1..], endings[1..]);
    }
  }

  // The ending of a line that has its newline.
  function Ended(line: string): string {
    if EndsInCR(line) then "\r\n" else "\n"
  }

  lemma EndedFits(line: string)
    requires '\n' !in line
    ensures Dropped(DropCR(line), Ended(line), false)
    ensures DropCR(line) + Ended(line) == line + "\n"
  {
  }

  // What the scanner drops after each line.
  function Endings(s: string): seq<string>
    decreases |s|
  {
    if s == "" then []
    else
      var i := Find(s, '\n');
      if i == |s| then [if EndsInCR(s) then "\r" else ""]
      else [Ended(s[..i])] + Endings(s[i + 1..])
  }

  lemma MakeUpMore(line: string, ending: string, rest: string, lines: seq<string>, endings: seq<string>)
    requires Dropped(line, ending, false) && MakeUp(rest, lines, endings)
    ensures MakeUp(line + ending + rest, [line] + lines, [ending] + endings)
  {
    var all, ends := [line] + lines, [ending] + endings;
    assert all[1..] == lines && ends[1..] == endings;
    forall k | 0 <= k < |all|
      ensures Dropped(all[k], ends[k], k == |all| - 1)
    {
      if k > 0 {
        assert all[k] == lines[k - 1] && ends[k] == endings[k - 1];
      }
    }
  }

  lemma {:induction false} ScanMakesUp(s: string)
    ensures MakeUp(s, ScanLines(s), Endings(s))
    decreases |s|
  {
    var i := Find(s, '\n');
    if s != "" && i < |s| {
      ScanMakesUp(s[i + 1..]);
      EndedFits(s[..i]);
      assert s == s[..i] + "\n" + s[i + 1..];
      MakeUpMore(DropCR(s[..i]), Ended(s[..i]), s[i + 1..], ScanLines(s[i + 1..]), Endings(s[i + 1..]));
    }
  }

  // No byte is lost or moved: what a connection hands over is the only sequence of lines
  // that makes up the bytes it reads.
  lemma ScanLinesIff(s: string, lines: seq<string>)
    ensures lines == ScanLines(s) <==> exists endings :: MakeUp(s, lines, endings)
  {
    ScanMakesUp(s);
    if endings :| MakeUp(s, lines, endings) {
      ScanIsTheOnly(s, lines, endings);
    }
  }

  // One turn of a connection's loop, or a call of Close.
  datatype Step =
    | Line(conn: nat, stamp: string, write: Write, syncFails: bool)
    | CloseCall(syncFails: bool, closeFails: bool)

  predicate LegalStep(step: Step, n: nat) {
    step.Line? ==> step.conn < n && PlainStamp(step.stamp)
  }

  predicate WritesSucceed(step: Step) {
    step.Line? ==> step.write == Write(0, false)
  }

  predicate SyncsSucceed(step: Step) {
    !step.syncFails && (step.CloseCall? ==> !step.closeFails)
  }

  // Connection c has handed over the first next[c] lines of what it reads.
  ghost predicate HandedOver(h: History, streams: seq<string>, next: seq<nat>) {
    && |next| == |streams| && OnlyFrom(h, |streams|)
    && forall c :: 0 <= c < |streams| ==>
         next[c] <= |ScanLines(streams[c])| && Handed(h, c) == ScanLines(streams[c])[..next[c]]
  }

  lemma OneMoreHandedOver(h: History, streams: seq<string>, next: seq<nat>, a: Attempt)
    requires HandedOver(h, streams, next) && a.conn < |streams|
    requires next[a.conn] < |ScanLines(streams[a.conn])| && a.line == ScanLines(streams[a.conn])[next[a.conn]]
    ensures HandedOver(After(h, a), streams, next[a.conn := next[a.conn] + 1])
  {
    var lines := ScanLines(streams[a.conn]);
    assert lines[..next[a.conn] + 1] == lines[..next[a.conn]] + [a.line];
  }

  ghost predicate Serving(t: Tailer, streams: seq<string>, next: seq<nat>)
    reads t
  {
    t.Valid() && Plain(t.history) && HandedOver(t.history, streams, next)
  }

  ghost predicate Untorn(t: Tailer)
    reads t
  {
    Tidy(t.history) && (!t.closed ==> AllWhole(t.history))
  }

  ghost predicate InStep(t: Tailer)
    reads t
  {
    t.isFile ==>
      if t.closed then t.synced == t.text
      else t.overdue == 0 && !t.closeSynced && Paced(t.gauge, t.history)
  }

  function Min(a: nat, b: nat): nat {
    if a < b then a else b
  }

  // Connection c hands over its next line, if there is one left.
  function Advanced(streams: seq<string>, next: seq<nat>, c: nat): seq<nat>
    requires |next| == |streams|
  {
    if c < |next| then next[c := Min(next[c] + 1, |ScanLines(streams[c])|)] else next
  }

  // What is handed over after the steps: every turn of a connection advances it.
  function Turns(streams: seq<string>, next: seq<nat>, steps: seq<Step>): (after: seq<nat>)
    requires |next| == |streams|
    ensures |after| == |streams|
  {
    if steps == [] then next
    else
      var before, last := Turns(streams, next, steps[..|steps| - 1]), steps[|steps| - 1];
      if last.Line? then Advanced(streams, before, last.conn) else before
  }

  // Some step closes the tailer.
  predicate Closes(steps: seq<Step>, isFile: bool) {
    exists s :: s in steps && ClosesNow(s, isFile)
  }

  predicate ClosesNow(s: Step, isFile: bool) {
    s.CloseCall? && (!isFile || !s.closeFails)
  }

  lemma StepsNext(streams: seq<string>, next: seq<nat>, steps: seq<Step>, i: nat, isFile: bool)
    requires |next| == |streams| && i < |steps|
    ensures Turns(streams, next, steps[..i + 1])
         == if steps[i].Line? then Advanced(streams, Turns(streams, next, steps[..i]), steps[i].conn)
            else Turns(streams, next, steps[..i])
    ensures Closes(steps[..i + 1], isFile) <==> Closes(steps[..i], isFile) || ClosesNow(steps[i], isFile)
  {
    assert steps[..i + 1][..i] == steps[..i];
    assert forall s :: s in steps[..i + 1] <==> s in steps[..i] || s == steps[i];
  }

  method ServeLine(t: Tailer, streams: seq<string>, next: seq<nat>, step: Step) returns (after: seq<nat>)
    requires Serving(t, streams, next) && LegalStep(step, |streams|) && step.Line?
    modifies t
    ensures Serving(t, streams, after) && t.closed == old(t.closed)
    ensures after == Advanced(streams, next, step.conn)
    ensures t.closed ==> t.text == old(t.text) && t.synced == old(t.synced)
    ensures WritesSucceed(step) && old(Untorn(t)) ==> Untorn(t)
    ensures WritesSucceed(step) && SyncsSucceed(step) && old(InStep(t)) ==> InStep(t)
  {
    after := next;
    var c := step.conn;
    var lines := ScanLines(streams[c]);
    if next[c] < |lines| {
      ScannedPlain(streams[c], next[c]);
      ghost var before, gauge := t.history, t.gauge;
      var _ := t.WriteLine(c, step.stamp, lines[next[c]], step.write, step.syncFails);
      OneMoreHandedOver(before, streams, next, t.history.last);
      if t.history.last.Whole() && Paced(gauge, before) {
        PacedAfter(gauge, before, t.history.last);
      }
      after := next[c := next[c] + 1];
    }
  }

  // Any interleaving of any connections with any calls of Close, from any state.
  method Serve(t: Tailer, streams: seq<string>, next: seq<nat>, steps: seq<Step>) returns (after: seq<nat>)
    requires Serving(t, streams, next) && forall i :: 0 <= i < |steps| ==> LegalStep(steps[i], |streams|)
    modifies t
    // Every turn of a connection hands over its next line.
    ensures Serving(t, streams, after)
    ensures after == Turns(streams, next, steps)
    ensures t.closed <==> old(t.closed) || Closes(steps, t.isFile)
    ensures old(t.closed) ==> t.text == old(t.text) && t.synced == old(t.synced)
    ensures (forall s :: s in steps ==> WritesSucceed(s)) && old(Untorn(t)) ==> Untorn(t)
    ensures (forall s :: s in steps ==> WritesSucceed(s) && SyncsSucceed(s)) && old(InStep(t)) ==> InStep(t)
  {
    after := next;
    for i := 0 to |steps|
      invariant Serving(t, streams, after)
      invariant after == Turns(streams, next, steps[..i])
      invariant t.closed <==> old(t.closed) || Closes(steps[..i], t.isFile)
      invariant old(t.closed) ==> t.text == old(t.text) && t.synced == old(t.synced)
      invariant (forall s :: s in steps ==> WritesSucceed(s)) && old(Untorn(t)) ==> Untorn(t)
      invariant (forall s :: s in steps ==> WritesSucceed(s) && SyncsSucceed(s)) && old(InStep(t)) ==> InStep(t)
    {
      var step := steps[i];
      assert step in steps;
      StepsNext(streams, next, steps, i, t.isFile);
      if step.Line? {
        after := ServeLine(t, streams, after, step);
      } else {
        var _ := t.Close(step.syncFails, step.closeFails);
      }
    }
    assert steps[..|steps|] == steps;
  }

  function AllKept(h: History, connections: nat): (parts: seq<seq<string>>)
    ensures |parts| == connections && forall c :: 0 <= c < connections ==> parts[c] == Kept(h, c)
  {
    seq(connections, c requires 0 <= c < connections => Kept(h, c))
  }

  // With untorn writes the text is whole lines, and they are a merge of a prefix of each
  // connection's lines; of all that were handed over, while the tailer is open.
  lemma UntornIsMerge(t: Tailer, streams: seq<string>, next: seq<nat>)
      returns (owners: seq<nat>, parts: seq<seq<string>>)
    requires Serving(t, streams, next) && Untorn(t)
    ensures t.text == Unlines(Bodies(t.history))
    ensures |parts| == |streams| && IsMerge(ReadLog(t.text), owners, parts)
    ensures forall c :: 0 <= c < |streams| ==> parts[c] <= ScanLines(streams[c])
    ensures forall c :: 0 <= c < |streams| && !t.closed ==> parts[c] == ScanLines(streams[c])[..next[c]]
  {
    owners, parts := Owners(t.history), AllKept(t.history, |streams|);
    ReadsBack(t.history);
    OwnersKnown(t.history, |streams|);
    forall c | 0 <= c < |streams|
      ensures parts[c] <= ScanLines(streams[c])
      ensures Owned(Entries(t.history), owners, c) == parts[c]
      ensures !t.closed ==> parts[c] == ScanLines(streams[c])[..next[c]]
    {
      KeptInOrder(t.history, c);
      OwnedIsKept(t.history, c);
    }
  }

  // After every write, when nothing failed: the gauge and the unsynced lines make 100, and
  // the last Sync came with the last line whose number is a multiple of 101.
  lemma InStepMeans(t: Tailer)
    requires t.Valid() && InStep(t) && t.isFile && !t.closed
    ensures t.gauge + t.unsynced == SYNC_EVERY
    ensures t.unsynced == Count(t.history) % (SYNC_EVERY + 1)
  {
    SyncsEvery101(Count(t.history));
  }
}
