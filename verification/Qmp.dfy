// The QMP monitor of internal/qmp/socket.go as a transition system: callers that
// serialise on a mutex, one listener goroutine that splits the wire into responses
// and events, the server, and whoever consumes events or disconnects.
module Qmp {
  import opened Wrappers

  // One execution of Run; also names the command it sends.
  type Call = nat

  // A line from the server. Garbage does not parse; a line without an event name is
  // taken to be a response.
  datatype Line = Garbage | Json(event: string, answers: Call)

  // The response itself (a result or a QEMU error), or a failure to get one.
  datatype Outcome = Response(to: Call) | Failure

  datatype CallState = Locking | Locked | Waiting | Got(outcome: Outcome) | Returned(outcome: Outcome)

  datatype Listener = Scanning | Parsed(event: string) | SendingResponse(to: Call)
                    | SendingEvent(event: string) | SendingError | Finished

  datatype State = State(
    mu: Option<Call>,
    calls: map<Call, CallState>,
    inbox: seq<Call>,   // commands the server has not answered yet
    wire: seq<Line>,    // lines the listener has not read yet
    listener: Listener,
    listeners: nat,
    disconnected: bool,
    received: seq<string>)

  datatype Action =
    | Run(c: Call)
    | Lock(c: Call)
    | Write(c: Call, ok: bool)
    | Receive(c: Call)
    | Unlock(c: Call)
    | Answer
    | Emit(event: string)
    | Noise
    | Listen
    | ScanEnds(err: bool)
    | ConsumeEvent
    | Subscribe
    | Disconnect
    | Drain

  function Init(): State {
    State(None, map[], [], [], Scanning, 0, false, [])
  }

  predicate In(s: State, c: Call, st: CallState) {
    c in s.calls && s.calls[c] == st
  }

  // An action that is not enabled leaves the state as it is.
  function Step(s: State, a: Action): State {
    match a
    case Run(c) => if c in s.calls then s else s.(calls := s.calls[c := Locking])
    case Lock(c) => if In(s, c, Locking) && s.mu.None? then s.(mu := Some(c), calls := s.calls[c := Locked]) else s
    case Write(c, ok) =>
      if !In(s, c, Locked) then s
      else if ok && !s.disconnected then s.(inbox := s.inbox + [c], calls := s.calls[c := Waiting])
      else s.(calls := s.calls[c := Got(Failure)])
    case Receive(c) =>
      if !In(s, c, Waiting) then s
      else (match s.listener
            case SendingResponse(to) => s.(listener := Scanning, calls := s.calls[c := Got(Response(to))])
            case SendingError => s.(listener := Finished, calls := s.calls[c := Got(Failure)])
            case Finished => s.(calls := s.calls[c := Got(Failure)])
            case _ => s)
    case Unlock(c) =>
      if c in s.calls && s.calls[c].Got? then
        s.(mu := None, calls := s.calls[c := Returned(s.calls[c].outcome)])
      else s
    case Answer => if s.inbox == [] then s else s.(inbox := s.inbox[1..], wire := s.wire + [Json("", s.inbox[0])])
    case Emit(event) => if event == "" then s else s.(wire := s.wire + [Json(event, 0)])
    case Noise => s.(wire := s.wire + [Garbage])
    case Listen => ListenStep(s)
    case ScanEnds(err) => if s.listener.Scanning? then s.(listener := if err then SendingError else Finished) else s
    case ConsumeEvent =>
      if s.listener.SendingEvent? then s.(listener := Scanning, received := s.received + [s.listener.event]) else s
    case Subscribe => s.(listeners := s.listeners + 1)
    case Disconnect => s.(listeners := 0, disconnected := true)
    case Drain =>
      if !s.disconnected then s
      else if s.listener.SendingResponse? then s.(listener := Scanning)
      else if s.listener.SendingError? then s.(listener := Finished)
      else s
  }

  // The loop of `listen` between its channel operations.
  function ListenStep(s: State): State {
    match s.listener
    case Scanning =>
      if s.wire == [] then s
      else
        var t := s.(wire := s.wire[1..]);
        var line := s.wire[0];
        if line.Garbage? then t
        else if line.event == "" then t.(listener := SendingResponse(line.answers))
        else t.(listener := Parsed(line.event))
    case Parsed(event) => s.(listener := if s.listeners == 0 then Scanning else SendingEvent(event))
    case _ => s
  }

  function Steps(s: State, schedule: seq<Action>): State
    decreases |schedule|
  {
    if schedule == [] then s else Steps(Step(s, schedule[0]), schedule[1..])
  }

  // ---------------------------------------------------------------- the invariant

  function Responses(wire: seq<Line>): seq<Call> {
    if wire == [] then []
    else (if wire[0].Json? && wire[0].event == "" then [wire[0].answers] else []) + Responses(wire[1..])
  }

  // Commands on their way: being delivered, on the wire, or at the server.
  function InFlight(s: State): seq<Call> {
    (if s.listener.SendingResponse? then [s.listener.to] else []) + Responses(s.wire) + s.inbox
  }

  predicate Listening(s: State) {
    !s.listener.SendingError? && !s.listener.Finished?
  }

  predicate Holding(st: CallState) {
    st.Locked? || st.Waiting? || st.Got?
  }

  ghost predicate Invariant(s: State) {
    && (forall c :: c in s.calls ==> (Holding(s.calls[c]) <==> s.mu == Some(c)))
    && (s.mu.Some? ==> s.mu.value in s.calls)
    && (forall c :: c in s.calls && (s.calls[c].Got? || s.calls[c].Returned?) && s.calls[c].outcome.Response? ==>
          s.calls[c].outcome.to == c)
    && (Listening(s) ==>
          if s.mu.Some? && s.calls[s.mu.value].Waiting?
          then InFlight(s) == [s.mu.value] || (s.disconnected && InFlight(s) == [])
          else InFlight(s) == [])
  }

  lemma {:induction false} ResponsesSnoc(wire: seq<Line>, line: Line)
    ensures Responses(wire + [line])
         == Responses(wire) + if line.Json? && line.event == "" then [line.answers] else []
  {
    if wire != [] {
      assert (wire + [line])[1..] == wire[1..] + [line];
      ResponsesSnoc(wire[1..], line);
    }
  }

  lemma ReceiveKeeps(s: State, c: Call)
    requires Invariant(s)
    ensures Invariant(Step(s, Receive(c)))
  {
    var t := Step(s, Receive(c));
    if In(s, c, Waiting) && s.listener.SendingResponse? {
      assert InFlight(s)[0] == s.listener.to;
      assert InFlight(t) == InFlight(s)[1..];
    }
  }

  lemma WriteKeeps(s: State, c: Call, ok: bool)
    requires Invariant(s)
    ensures Invariant(Step(s, Write(c, ok)))
    ensures In(s, c, Locked) && ok && !s.disconnected ==> InFlight(Step(s, Write(c, ok))) == InFlight(s) + [c]
  {
    var t := Step(s, Write(c, ok));
    if In(s, c, Locked) && ok && !s.disconnected {
      assert InFlight(t) == InFlight(s) + [c];
    } else {
      assert InFlight(t) == InFlight(s);
    }
  }

  lemma LockKeeps(s: State, a: Action)
    requires Invariant(s) && (a.Run? || a.Lock? || a.Unlock?)
    ensures Invariant(Step(s, a))
  {
    assert InFlight(Step(s, a)) == InFlight(s);
  }

  lemma CallerKeeps(s: State, a: Action)
    requires Invariant(s) && (a.Run? || a.Lock? || a.Write? || a.Receive? || a.Unlock?)
    ensures Invariant(Step(s, a))
  {
    match a
    case Write(c, ok) => WriteKeeps(s, c, ok);
    case Receive(c) => ReceiveKeeps(s, c);
    case _ => LockKeeps(s, a);
  }

  // What the invariant says only depends on these parts of the state.
  lemma SameParts(s: State, t: State)
    requires Invariant(s) && t.calls == s.calls && t.mu == s.mu && t.disconnected == s.disconnected
    requires (Listening(t) ==> Listening(s)) && InFlight(t) == InFlight(s)
    ensures Invariant(t)
  {
  }

  lemma AnswerInFlight(s: State)
    ensures InFlight(Step(s, Answer)) == InFlight(s)
  {
    if s.inbox != [] {
      ResponsesSnoc(s.wire, Json("", s.inbox[0]));
      var sending := if s.listener.SendingResponse? then [s.listener.to] else [];
      assert sending + (Responses(s.wire) + [s.inbox[0]]) + s.inbox[1..] == sending + Responses(s.wire) + s.inbox;
    }
  }

  lemma OtherLineInFlight(s: State, a: Action)
    requires a.Emit? || a.Noise?
    ensures InFlight(Step(s, a)) == InFlight(s)
  {
    ResponsesSnoc(s.wire, if a.Emit? then Json(a.event, 0) else Garbage);
    assert Responses(s.wire) + [] == Responses(s.wire);
  }

  lemma ServerKeeps(s: State, a: Action)
    requires Invariant(s) && (a.Answer? || a.Emit? || a.Noise?)
    ensures Invariant(Step(s, a)) && InFlight(Step(s, a)) == InFlight(s)
  {
    if a.Answer? {
      AnswerInFlight(s);
    } else {
      OtherLineInFlight(s, a);
    }
    SameParts(s, Step(s, a));
  }

  lemma ListenInFlight(s: State)
    ensures InFlight(ListenStep(s)) == InFlight(s)
  {
    if s.listener.Scanning? && s.wire != [] {
      var line, rest := s.wire[0], s.wire[1..];
      assert Responses(s.wire) == (if line.Json? && line.event == "" then [line.answers] else []) + Responses(rest);
    }
  }

  lemma ListenParts(s: State)
    ensures var t := ListenStep(s);
      t.calls == s.calls && t.mu == s.mu && t.disconnected == s.disconnected && (Listening(t) ==> Listening(s))
  {
  }

  lemma ListenKeeps(s: State)
    requires Invariant(s)
    ensures Invariant(ListenStep(s)) && InFlight(ListenStep(s)) == InFlight(s)
  {
    ListenInFlight(s);
    ListenParts(s);
    SameParts(s, ListenStep(s));
  }

  lemma DrainKeeps(s: State)
    requires Invariant(s)
    ensures Invariant(Step(s, Drain))
  {
    if s.disconnected && s.listener.SendingResponse? {
      assert InFlight(Step(s, Drain)) == InFlight(s)[1..];
    }
  }

  lemma ListenerKeeps(s: State, a: Action)
    requires Invariant(s)
    requires a.Listen? || a.ScanEnds? || a.ConsumeEvent? || a.Subscribe? || a.Disconnect? || a.Drain?
    ensures Invariant(Step(s, a))
  {
    if a.Listen? {
      ListenKeeps(s);
    } else if a.Drain? {
      DrainKeeps(s);
    } else if Listening(Step(s, a)) {
      assert InFlight(Step(s, a)) == InFlight(s);
    }
  }

  lemma {:induction false} InvariantAlways(s: State, schedule: seq<Action>)
    requires Invariant(s)
    ensures Invariant(Steps(s, schedule))
    decreases |schedule|
  {
    if schedule != [] {
      var a := schedule[0];
      if a.Run? || a.Lock? || a.Write? || a.Receive? || a.Unlock? {
        CallerKeeps(s, a);
      } else if a.Answer? || a.Emit? || a.Noise? {
        ServerKeeps(s, a);
      } else {
        ListenerKeeps(s, a);
      }
      InvariantAlways(Step(s, a), schedule[1..]);
    }
  }

  // ---------------------------------------------------------------- pairing

  // In every interleaving a response handed to a call answers that call's own command,
  // no two calls hold the monitor, and while the listener lives at most one command is
  // on its way, the one of the waiting call.
  lemma Pairing(schedule: seq<Action>, c: Call, d: Call)
    ensures
      var s := Steps(Init(), schedule);
      && (c in s.calls && (s.calls[c].Got? || s.calls[c].Returned?) ==>
            s.calls[c].outcome == Response(c) || s.calls[c].outcome == Failure)
      && (c in s.calls && d in s.calls && Holding(s.calls[c]) && Holding(s.calls[d]) ==> c == d)
      && (Listening(s) ==> |InFlight(s)| <= 1)
      && (Listening(s) && c in InFlight(s) ==> In(s, c, Waiting))
  {
    InvariantAlways(Init(), schedule);
  }

  lemma StepsSnoc(s: State, schedule: seq<Action>, a: Action)
    ensures Steps(s, schedule + [a]) == Step(Steps(s, schedule), a)
  {
    StepsConcat(s, schedule, [a]);
    assert Steps(Steps(s, schedule), [a]) == Steps(Step(Steps(s, schedule), a), []);
  }

  // A new call locks the monitor and writes its command.
  lemma OneCall(schedule: seq<Action>, s: State, c: Call) returns (next: seq<Action>)
    requires Steps(Init(), schedule) == s && c !in s.calls && s.mu.None? && !s.disconnected
    ensures Steps(Init(), next) == s.(mu := Some(c), inbox := s.inbox + [c], calls := s.calls[c := Waiting])
  {
    StepsSnoc(Init(), schedule, Run(c));
    var a := schedule + [Run(c)];
    StepsSnoc(Init(), a, Lock(c));
    StepsSnoc(Init(), a + [Lock(c)], Write(c, true));
    next := a + [Lock(c)] + [Write(c, true)];
    var t := Step(Step(Step(s, Run(c)), Lock(c)), Write(c, true));
    assert t.calls == s.calls[c := Waiting];
  }

  // That bound needs a listener: as long as the stream has not ended it always holds.
  lemma {:induction false} ListeningUnlessEnded(s: State, schedule: seq<Action>)
    requires Listening(s) && forall a :: a in schedule ==> !a.ScanEnds?
    ensures Listening(Steps(s, schedule))
    decreases |schedule|
  {
    if schedule != [] {
      assert schedule[0] in schedule;
      ListeningUnlessEnded(Step(s, schedule[0]), schedule[1..]);
    }
  }

  lemma OneOutstandingUnlessEnded(schedule: seq<Action>)
    requires forall a :: a in schedule ==> !a.ScanEnds?
    ensures |InFlight(Steps(Init(), schedule))| <= 1
  {
    ListeningUnlessEnded(Init(), schedule);
    InvariantAlways(Init(), schedule);
  }

  // While the listener lives, a command is written with nothing else in flight.
  lemma WritesAlone(schedule: seq<Action>, c: Call)
    requires
      var s := Steps(Init(), schedule);
      In(s, c, Locked) && !s.disconnected && Listening(s)
    ensures InFlight(Steps(Init(), schedule)) == [] && InFlight(Steps(Init(), schedule + [Write(c, true)])) == [c]
  {
    InvariantAlways(Init(), schedule);
    WriteKeeps(Steps(Init(), schedule), c, true);
    StepsSnoc(Init(), schedule, Write(c, true));
  }

  // The commands that are written in the course of a schedule.
  function Written(s: State, schedule: seq<Action>): seq<Call>
    decreases |schedule|
  {
    if schedule == [] then []
    else
      var a, rest := schedule[0], Written(Step(s, schedule[0]), schedule[1..]);
      if a.Write? && a.ok && In(s, a.c, Locked) && !s.disconnected then [a.c] + rest else rest
  }

  // One step after the stream has ended: nothing in flight is lost any more.
  lemma EndedStep(s: State, a: Action)
    requires !Listening(s)
    ensures !Listening(Step(s, a))
    ensures InFlight(Step(s, a)) == InFlight(s) + Written(s, [a])
  {
    assert [a][1..] == [];
    match a
    case Answer => AnswerInFlight(s);
    case Emit(_) => OtherLineInFlight(s, a);
    case Noise => OtherLineInFlight(s, a);
    case _ =>
  }

  // What is in flight after the end is what was then and what has been written since.
  lemma {:induction false} EndedInFlight(s: State, schedule: seq<Action>)
    requires !Listening(s)
    ensures InFlight(Steps(s, schedule)) == InFlight(s) + Written(s, schedule)
    decreases |schedule|
  {
    if schedule != [] {
      var a := schedule[0];
      EndedStep(s, a);
      assert [a][1..] == [];
      EndedInFlight(Step(s, a), schedule[1..]);
    }
  }

  // A schedule that reaches the end of the stream ends it at one of its steps.
  lemma {:induction false} EndsSomewhere(s: State, schedule: seq<Action>) returns (k: nat)
    requires Listening(s) && !Listening(Steps(s, schedule))
    ensures k < |schedule| && schedule[k].ScanEnds? && Steps(s, schedule[..k]).listener.Scanning?
    decreases |schedule|
  {
    var t := Step(s, schedule[0]);
    if Listening(t) {
      k := EndsSomewhere(t, schedule[1..]);
      assert schedule[..k + 1][1..] == schedule[1..][..k];
      k := k + 1;
    } else {
      k := 0;
    }
  }

  // When the stream ends while `s`: at most one command is outstanding afterwards exactly
  // when none is written any more, or one is and no call was waiting for its response.
  lemma OutstandingAfterEndIff(pre: seq<Action>, err: bool, post: seq<Action>)
    requires Steps(Init(), pre).listener.Scanning?
    ensures
      var s := Steps(Init(), pre);
      var since := Written(Step(s, ScanEnds(err)), post);
      && Steps(Init(), pre + [ScanEnds(err)] + post) == Steps(Step(s, ScanEnds(err)), post)
      && (|InFlight(Steps(Init(), pre + [ScanEnds(err)] + post))| <= 1
          <==> since == [] || (|since| == 1 && forall c :: In(s, c, Waiting) ==> c !in InFlight(s)))
  {
    var s := Steps(Init(), pre);
    var t := Step(s, ScanEnds(err));
    InvariantAlways(Init(), pre);
    StepsSnoc(Init(), pre, ScanEnds(err));
    StepsConcat(Init(), pre + [ScanEnds(err)], post);
    EndedInFlight(t, post);
    assert InFlight(t) == InFlight(s);
    if InFlight(s) != [] {
      assert s.mu.value in InFlight(s) && In(s, s.mu.value, Waiting);
    }
  }

  // Once reading has failed the bound on outstanding commands is gone: the next call
  // still gets its command written before it finds the response stream closed.
  lemma TwoOutstandingAfterScanError()
    ensures exists schedule ::
      var s := Steps(Init(), schedule);
      !Listening(s) && |InFlight(s)| == 2
  {
    var a := OneCall([], Init(), 0);
    StepsSnoc(Init(), a, ScanEnds(true));
    StepsSnoc(Init(), a + [ScanEnds(true)], Receive(0));
    StepsSnoc(Init(), a + [ScanEnds(true)] + [Receive(0)], Unlock(0));
    var b := a + [ScanEnds(true)] + [Receive(0)] + [Unlock(0)];
    var next := OneCall(b, Steps(Init(), b), 1);
    assert InFlight(Steps(Init(), next)) == [0, 1];
  }

  // ---------------------------------------------------------------- events

  // Nobody listens, nothing is ever offered on the event channel.
  lemma {:induction false} NoListenerNoEvent(s: State, schedule: seq<Action>)
    requires s.listeners == 0 && !s.listener.SendingEvent? && Subscribe !in schedule
    ensures
      var t := Steps(s, schedule);
      t.listeners == 0 && !t.listener.SendingEvent? && t.received == s.received
    decreases |schedule|
  {
    if schedule != [] {
      NoListenerNoEvent(Step(s, schedule[0]), schedule[1..]);
    }
  }

  lemma NoEventUnsubscribed(schedule: seq<Action>)
    requires Subscribe !in schedule
    ensures !Steps(Init(), schedule).listener.SendingEvent? && Steps(Init(), schedule).received == []
  {
    NoListenerNoEvent(Init(), schedule);
  }

  function Listens(n: nat): seq<Action> {
    if n == 0 then [] else [Listen] + Listens(n - 1)
  }

  lemma {:induction false} StepsConcat(s: State, a: seq<Action>, b: seq<Action>)
    ensures Steps(s, a + b) == Steps(Steps(s, a), b)
    decreases |a|
  {
    if a == [] {
      assert a + b == b;
    } else {
      assert (a + b)[1..] == a[1..] + b;
      StepsConcat(Step(s, a[0]), a[1..], b);
    }
  }

  // The first line on the wire that parses, Garbage if there is none.
  function First(wire: seq<Line>): Line {
    if wire == [] then Garbage else if wire[0].Json? then wire[0] else First(wire[1..])
  }

  predicate IsEvent(line: Line) {
    line.Json? && line.event != ""
  }

  // Between the listener and the next response there is no event it has to deliver.
  predicate Unblocked(s: State) {
    match s.listener
    case Scanning => s.listeners == 0 || !IsEvent(First(s.wire))
    case Parsed(_) => s.listeners == 0
    case SendingResponse(_) => true
    case _ => false
  }

  lemma ListensNext(s: State, n: nat)
    ensures Steps(s, Listens(n + 1)) == Steps(ListenStep(s), Listens(n))
  {
    assert Listens(n + 1)[0] == Listen && Listens(n + 1)[1..] == Listens(n);
  }

  // Listener steps alone get to the first response.
  lemma {:induction false} ReachResponse(s: State, c: Call) returns (n: nat)
    requires Unblocked(s)
    requires s.listener == SendingResponse(c) || (!s.listener.SendingResponse? && |Responses(s.wire)| > 0 && Responses(s.wire)[0] == c)
    ensures n <= 2 * |s.wire| + if s.listener.Parsed? then 1 else 0
    ensures
      var t := Steps(s, Listens(n));
      t.listener == SendingResponse(c) && t.calls == s.calls
    decreases |s.wire|, s.listener.Parsed?
  {
    if s.listener == SendingResponse(c) {
      n := 0;
    } else {
      var k := ReachResponse(ListenStep(s), c);
      n := k + 1;
      ListensNext(s, k);
    }
  }

  // With no listener, events never hold up a response: once the server has answered, the
  // listener's own steps and one rendezvous give the waiting call its response, in at
  // most two steps a line and one more.
  lemma EventsDelayNothing(s: State, c: Call)
    requires Invariant(s) && In(s, c, Waiting) && Listening(s)
    requires s.listeners == 0 && !s.listener.SendingEvent? && !s.disconnected && s.inbox == []
    ensures exists n: nat | n <= 2 * |s.wire| + 1 :: In(Steps(s, Listens(n) + [Receive(c)]), c, Got(Response(c)))
  {
    var n := Respond(s, c);
  }

  lemma Respond(s: State, c: Call) returns (n: nat)
    requires Invariant(s) && In(s, c, Waiting) && !s.disconnected && s.inbox == [] && Unblocked(s)
    ensures n <= 2 * |s.wire| + 1 && In(Steps(s, Listens(n) + [Receive(c)]), c, Got(Response(c)))
  {
    assert InFlight(s) == [c];
    if s.listener.SendingResponse? {
      assert InFlight(s)[0] == s.listener.to;
    } else {
      assert InFlight(s) == Responses(s.wire);
    }
    n := ReachResponse(s, c);
    StepsSnoc(s, Listens(n), Receive(c));
  }

  // The other way round: an event in the way that nobody consumes stays in the way.
  predicate Stuck(s: State, c: Call) {
    && !Unblocked(s) && c in s.calls
    && (s.calls[c] == Waiting || s.calls[c] == Got(Failure) || s.calls[c] == Returned(Failure))
  }

  lemma {:induction false} FirstSnoc(wire: seq<Line>, line: Line)
    ensures First(wire + [line]) == if First(wire).Json? then First(wire) else line
  {
    if wire != [] {
      assert (wire + [line])[1..] == wire[1..] + [line];
      FirstSnoc(wire[1..], line);
    }
  }

  predicate Unattended(schedule: seq<Action>) {
    forall a :: a in schedule ==> !a.ConsumeEvent? && !a.Disconnect?
  }

  lemma StuckStays(s: State, a: Action, c: Call)
    requires Stuck(s, c) && !a.ConsumeEvent? && !a.Disconnect?
    ensures Stuck(Step(s, a), c)
  {
    match a
    case Answer => if s.inbox != [] { FirstSnoc(s.wire, Json("", s.inbox[0])); }
    case Emit(event) => FirstSnoc(s.wire, Json(event, 0));
    case Noise => FirstSnoc(s.wire, Garbage);
    case _ =>
  }

  lemma {:induction false} StuckAlways(s: State, schedule: seq<Action>, c: Call)
    requires Stuck(s, c) && Unattended(schedule)
    ensures Stuck(Steps(s, schedule), c)
    decreases |schedule|
  {
    if schedule != [] {
      assert schedule[0] in schedule;
      StuckStays(s, schedule[0], c);
      StuckAlways(Step(s, schedule[0]), schedule[1..], c);
    }
  }

  // A schedule in which nobody consumes events or disconnects and c returns its response.
  ghost predicate Answered(s: State, schedule: seq<Action>, c: Call) {
    Unattended(schedule) && In(Steps(s, schedule), c, Returned(Response(c)))
  }

  lemma {:induction false} InListens(n: nat, a: Action)
    ensures a in Listens(n) ==> a == Listen
  {
    if n > 0 {
      InListens(n - 1, a);
    }
  }

  lemma RespondOnceAnswered(s: State, c: Call)
    requires Invariant(s) && In(s, c, Waiting) && !s.disconnected && s.inbox == [] && Unblocked(s)
    ensures exists schedule :: Answered(s, schedule, c)
  {
    var n := Respond(s, c);
    var schedule := Listens(n) + [Receive(c)] + [Unlock(c)];
    StepsSnoc(s, Listens(n) + [Receive(c)], Unlock(c));
    forall a | a in schedule
      ensures !a.ConsumeEvent? && !a.Disconnect?
    {
      InListens(n, a);
    }
    assert Answered(s, schedule, c);
  }

  // With nobody consuming events, a waiting call can return its response if and only if
  // nobody listens for them or none is in front of it. (Neither matters once the response
  // itself is being delivered.)
  lemma CanBeAnsweredIff(s: State, c: Call)
    requires Invariant(s) && In(s, c, Waiting) && !s.disconnected
    ensures (exists schedule :: Answered(s, schedule, c)) <==> Unblocked(s)
  {
    if !Unblocked(s) {
      forall schedule
        ensures !Answered(s, schedule, c)
      {
        if Unattended(schedule) {
          StuckAlways(s, schedule, c);
        }
      }
    } else if s.inbox == [] {
      RespondOnceAnswered(s, c);
    } else {
      var t := Step(s, Answer);
      assert InFlight(s) == [c];
      assert |InFlight(s)| >= |s.inbox|;
      ServerKeeps(s, Answer);
      FirstSnoc(s.wire, Json("", s.inbox[0]));
      RespondOnceAnswered(t, c);
      var schedule :| Answered(t, schedule, c);
      assert ([Answer] + schedule)[1..] == schedule;
      assert Answered(s, [Answer] + schedule, c);
    }
  }

  // With a subscriber that does not consume, everything stops: no schedule without
  // ConsumeEvent moves the listener, so no waiting call ever completes, and a
  // Disconnect that drains the response stream never sees it closed.
  lemma {:induction false} UnconsumedEventBlocks(s: State, schedule: seq<Action>, c: Call)
    requires s.listener.SendingEvent? && ConsumeEvent !in schedule && In(s, c, Waiting)
    ensures
      var t := Steps(s, schedule);
      t.listener == s.listener && In(t, c, Waiting)
    decreases |schedule|
  {
    if schedule != [] {
      UnconsumedEventBlocks(Step(s, schedule[0]), schedule[1..], c);
    }
  }
  // A schedule with an event consumer, in which nobody disconnects and c returns its response.
  ghost predicate AnsweredConsuming(s: State, schedule: seq<Action>, c: Call) {
    Disconnect !in schedule && In(Steps(s, schedule), c, Returned(Response(c)))
  }

  lemma ConsumingNext(s: State, a: Action, schedule: seq<Action>, c: Call)
    requires !a.Disconnect? && AnsweredConsuming(Step(s, a), schedule, c)
    ensures AnsweredConsuming(s, [a] + schedule, c)
  {
    assert ([a] + schedule)[1..] == schedule;
  }

  // How many lines and half-handled lines are in front of the listener.
  function Backlog(s: State): nat {
    3 * |s.wire| + match s.listener case Parsed(_) => 2 case SendingEvent(_) => 1 case _ => 0
  }

  lemma {:induction false} ConsumeUpTo(s: State, c: Call) returns (schedule: seq<Action>)
    requires Invariant(s) && In(s, c, Waiting) && Listening(s) && s.inbox == []
    requires InFlight(s) == [c]
    ensures AnsweredConsuming(s, schedule, c)
    decreases Backlog(s)
  {
    if s.listener.SendingResponse? {
      assert InFlight(s)[0] == s.listener.to;
      schedule := [Receive(c), Unlock(c)];
      assert schedule[1..] == [Unlock(c)];
      var t := Step(s, Receive(c));
      assert Steps(t, [Unlock(c)]) == Steps(Step(t, Unlock(c)), []);
    } else {
      var a := if s.listener.SendingEvent? then ConsumeEvent else Listen;
      ListenerKeeps(s, a);
      ListenInFlight(s);
      assert InFlight(Step(s, a)) == [c];
      var rest := ConsumeUpTo(Step(s, a), c);
      ConsumingNext(s, a, rest, c);
      schedule := [a] + rest;
    }
  }

  // With a consumer nothing is in the way: as long as the stream has not ended, every
  // waiting call can return its own response, whatever is subscribed and however many
  // events are in front of it.
  lemma ConsumerUnblocks(s: State, c: Call)
    requires Invariant(s) && In(s, c, Waiting) && Listening(s) && !s.disconnected
    ensures exists schedule :: AnsweredConsuming(s, schedule, c)
  {
    assert InFlight(s) == [c];
    if s.inbox == [] {
      var schedule := ConsumeUpTo(s, c);
    } else {
      var t := Step(s, Answer);
      assert |InFlight(s)| >= |s.inbox|;
      ServerKeeps(s, Answer);
      var rest := ConsumeUpTo(t, c);
      ConsumingNext(s, Answer, rest, c);
    }
  }

  // A new call gets its response, when the mutex is free and no event is in the way.
  lemma NewCallReturns(schedule: seq<Action>, c: Call)
    requires
      var s := Steps(Init(), schedule);
      c !in s.calls && s.mu.None? && !s.disconnected && Unblocked(s)
    ensures exists more :: In(Steps(Init(), more), c, Returned(Response(c)))
  {
    var s := Steps(Init(), schedule);
    var next := OneCall(schedule, s, c);
    var t := Steps(Init(), next);
    InvariantAlways(Init(), next);
    CanBeAnsweredIff(t, c);
    var more :| Answered(t, more, c);
    StepsConcat(Init(), next, more);
    assert In(Steps(Init(), next + more), c, Returned(Response(c)));
  }

  // ---------------------------------------------------------------- after the end

  // A read error is delivered before the stream is closed: it waits for the first call
  // that receives, or for a drain.
  lemma {:induction false} ScanErrorWaits(s: State, schedule: seq<Action>)
    requires s.listener.SendingError? && forall a :: a in schedule ==> !a.Receive? && !a.Drain?
    ensures Steps(s, schedule).listener.SendingError?
    decreases |schedule|
  {
    if schedule != [] {
      assert schedule[0] in schedule;
      ScanErrorWaits(Step(s, schedule[0]), schedule[1..]);
    }
  }

  lemma ScanErrorDelivered(s: State, schedule: seq<Action>)
    requires s.listener.Scanning? && forall a :: a in schedule ==> !a.Receive? && !a.Drain?
    ensures Steps(s, [ScanEnds(true)] + schedule).listener.SendingError?
    ensures Steps(s, [ScanEnds(false)] + schedule).listener.Finished?
  {
    assert ([ScanEnds(true)] + schedule)[1..] == schedule && ([ScanEnds(false)] + schedule)[1..] == schedule;
    ScanErrorWaits(Step(s, ScanEnds(true)), schedule);
    StaysFinished(Step(s, ScanEnds(false)), schedule);
  }

  lemma {:induction false} StaysFinished(s: State, schedule: seq<Action>)
    requires s.listener.Finished?
    ensures Steps(s, schedule).listener.Finished?
    decreases |schedule|
  {
    if schedule != [] {
      StaysFinished(Step(s, schedule[0]), schedule[1..]);
    }
  }

  // A call that receives from the ended stream gets a failure, and keeps it; afterwards the
  // stream is closed.
  lemma ClosedStreamFails(s: State, c: Call)
    requires !Listening(s) && In(s, c, Waiting)
    ensures In(Step(s, Receive(c)), c, Got(Failure)) && Step(s, Receive(c)).listener.Finished?
    ensures In(Steps(s, [Receive(c), Unlock(c)]), c, Returned(Failure))
  {
    var t := Step(s, Receive(c));
    assert [Receive(c), Unlock(c)][1..] == [Unlock(c)];
    assert Steps(t, [Unlock(c)]) == Steps(Step(t, Unlock(c)), []);
  }

  // A call that has the mutex gets rid of it.
  lemma HolderReturns(s: State, c: Call) returns (more: seq<Action>)
    requires Invariant(s) && !Listening(s) && s.mu == Some(c)
    ensures
      var t := Steps(s, more);
      && Invariant(t) && !Listening(t) && t.mu.None? && t.calls.Keys == s.calls.Keys
      && c in t.calls && t.calls[c].Returned?
      && (!s.calls[c].Got? ==> t.calls[c] == Returned(Failure))
      && forall d :: d in s.calls && d != c ==> t.calls[d] == s.calls[d]
  {
    more := if s.calls[c].Locked? then [Write(c, false), Unlock(c)]
            else if s.calls[c].Waiting? then [Receive(c), Unlock(c)]
            else [Run(c), Unlock(c)];
    var t := Step(s, more[0]);
    assert more[1..] == [Unlock(c)];
    assert Steps(t, [Unlock(c)]) == Steps(Step(t, Unlock(c)), []);
    InvariantAlways(s, more);
  }

  lemma NewHolderReturns(s: State, c: Call) returns (more: seq<Action>)
    requires Invariant(s) && !Listening(s) && s.mu.None? && In(s, c, Locking)
    ensures In(Steps(s, more), c, Returned(Failure))
  {
    var t := Step(s, Lock(c));
    LockKeeps(s, Lock(c));
    var rest := HolderReturns(t, c);
    more := [Lock(c)] + rest;
    assert more[1..] == rest;
  }

  // Once the stream has ended, every call that has been made can return, by steps of
  // callers alone; with a failure unless it had its outcome before.
  lemma EveryCallReturns(schedule: seq<Action>, c: Call)
    requires !Listening(Steps(Init(), schedule)) && c in Steps(Init(), schedule).calls
    ensures exists more ::
      var st := Steps(Init(), schedule).calls[c];
      && c in Steps(Init(), schedule + more).calls
      && Steps(Init(), schedule + more).calls[c]
         == Returned(if st.Got? || st.Returned? then st.outcome else Failure)
  {
    var s := Steps(Init(), schedule);
    InvariantAlways(Init(), schedule);
    var more := Finish(s, c);
    StepsConcat(Init(), schedule, more);
  }

  lemma Finish(s: State, c: Call) returns (more: seq<Action>)
    requires Invariant(s) && !Listening(s) && c in s.calls
    ensures
      var st := s.calls[c];
      In(Steps(s, more), c, Returned(if st.Got? || st.Returned? then st.outcome else Failure))
  {
    if s.calls[c].Returned? {
      more := [];
    } else if s.calls[c].Got? {
      more := [Unlock(c)];
      assert Steps(s, more) == Steps(Step(s, Unlock(c)), []);
    } else if s.mu == Some(c) {
      more := HolderReturns(s, c);
    } else if s.mu.None? {
      more := NewHolderReturns(s, c);
    } else {
      var first := HolderReturns(s, s.mu.value);
      var rest := NewHolderReturns(Steps(s, first), c);
      StepsConcat(s, first, rest);
      more := first + rest;
    }
  }

  // ---------------------------------------------------------------- disconnecting

  // The listener delivers an event or is about to.
  predicate HasEvent(s: State) {
    s.listener.SendingEvent? || (s.listener.Parsed? && s.listeners > 0)
  }

  lemma {:induction false} HasEventAlways(s: State, schedule: seq<Action>)
    requires HasEvent(s) && Unattended(schedule)
    ensures HasEvent(Steps(s, schedule))
    decreases |schedule|
  {
    if schedule != [] {
      assert schedule[0] in schedule;
      HasEventAlways(Step(s, schedule[0]), schedule[1..]);
    }
  }

  ghost predicate Drained(s: State, schedule: seq<Action>) {
    Unattended(schedule) && Steps(s, schedule).listener.Finished?
  }

  // A Disconnect that drains the response stream can see it closed, with nobody consuming
  // events, if and only if the listener has no event to deliver.
  lemma DrainCanEndIff(s: State)
    requires s.disconnected
    ensures (exists schedule :: Drained(s, schedule)) <==> !HasEvent(s)
  {
    if HasEvent(s) {
      forall schedule
        ensures !Drained(s, schedule)
      {
        if Unattended(schedule) {
          HasEventAlways(s, schedule);
        }
      }
    } else {
      var first := if s.listener.Parsed? then Listen else Drain;
      var t := Step(s, first);
      assert [first, ScanEnds(false)][1..] == [ScanEnds(false)];
      assert Steps(t, [ScanEnds(false)]) == Step(t, ScanEnds(false));
      assert Drained(s, [first, ScanEnds(false)]);
    }
  }

  // Nothing is written once the monitor is disconnected, and it stays so.
  lemma {:induction false} NothingWrittenAfterDisconnect(s: State, schedule: seq<Action>)
    requires s.disconnected
    ensures Steps(s, schedule).disconnected && Written(s, schedule) == []
    decreases |schedule|
  {
    if schedule != [] {
      NothingWrittenAfterDisconnect(Step(s, schedule[0]), schedule[1..]);
    }
  }

  lemma DisconnectStopsWriting(s: State, schedule: seq<Action>)
    ensures Written(s, [Disconnect] + schedule) == [] && Steps(s, [Disconnect] + schedule).disconnected
  {
    assert ([Disconnect] + schedule)[1..] == schedule;
    NothingWrittenAfterDisconnect(Step(s, Disconnect), schedule);
  }

  // ---------------------------------------------------------------- no event is lost

  function EventsOn(wire: seq<Line>): seq<string> {
    if wire == [] then []
    else if IsEvent(wire[0]) then [wire[0].event] + EventsOn(wire[1..])
    else EventsOn(wire[1..])
  }

  // Received, at the listener, or on the wire.
  function Events(s: State): seq<string> {
    s.received + (if s.listener.Parsed? || s.listener.SendingEvent? then [s.listener.event] else []) + EventsOn(s.wire)
  }

  function Emitted(schedule: seq<Action>): seq<string> {
    if schedule == [] then []
    else if schedule[0].Emit? && schedule[0].event != "" then [schedule[0].event] + Emitted(schedule[1..])
    else Emitted(schedule[1..])
  }

  lemma {:induction false} EventsOnSnoc(wire: seq<Line>, line: Line)
    ensures EventsOn(wire + [line]) == EventsOn(wire) + if IsEvent(line) then [line.event] else []
  {
    if wire != [] {
      assert (wire + [line])[1..] == wire[1..] + [line];
      EventsOnSnoc(wire[1..], line);
    }
  }

  lemma WireKeepsEvents(s: State, a: Action)
    requires a.Answer? || a.Emit? || a.Noise?
    ensures Events(Step(s, a)) == Events(s) + Emitted([a])
  {
    assert [a][1..] == [];
    match a
    case Answer => if s.inbox != [] { EventsOnSnoc(s.wire, Json("", s.inbox[0])); }
    case Emit(event) => EventsOnSnoc(s.wire, Json(event, 0));
    case Noise => EventsOnSnoc(s.wire, Garbage);
  }

  lemma ListenKeepsEvents(s: State)
    requires s.listeners > 0
    ensures Events(ListenStep(s)) == Events(s)
  {
    if s.listener.Scanning? && s.wire != [] {
      assert s.received + [] + EventsOn(s.wire) == s.received + EventsOn(s.wire);
    }
  }

  lemma EventStep(s: State, a: Action)
    requires s.listeners > 0 && !a.Disconnect?
    ensures Step(s, a).listeners > 0 && Events(Step(s, a)) == Events(s) + Emitted([a])
  {
    assert [a][1..] == [];
    if a.Answer? || a.Emit? || a.Noise? {
      WireKeepsEvents(s, a);
    } else if a.Listen? {
      ListenKeepsEvents(s);
    } else {
      assert Events(Step(s, a)) == Events(s);
    }
  }

  // From a subscription on, every event that is emitted is received once and in order, or
  // is still at the listener or on the wire; unless somebody disconnects.
  lemma {:induction false} EveryEventOnce(s: State, schedule: seq<Action>)
    requires s.listeners > 0 && Disconnect !in schedule
    ensures Events(Steps(s, schedule)) == Events(s) + Emitted(schedule)
    decreases |schedule|
  {
    if schedule != [] {
      var a, rest := schedule[0], schedule[1..];
      EventStep(s, a);
      assert [a][1..] == [];
      EveryEventOnce(Step(s, a), rest);
      assert Emitted(schedule) == Emitted([a]) + Emitted(rest);
    }
  }

  lemma EventsFromSubscription(schedule: seq<Action>)
    requires Disconnect !in schedule
    ensures Events(Steps(Init(), [Subscribe] + schedule)) == Emitted(schedule)
    ensures Steps(Init(), [Subscribe] + schedule).received <= Emitted(schedule)
  {
    assert ([Subscribe] + schedule)[1..] == schedule;
    var s := Step(Init(), Subscribe);
    EveryEventOnce(s, schedule);
    assert Events(s) == [];
    var t := Steps(s, schedule);
    assert t.received <= Events(t);
  }
}
