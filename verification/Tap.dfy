// A TAP interface that a mover daemon (main_tap_mover_linux_amd64.go) moves into a
// network namespace while the provider (internal/provider/tap_resource.go) reads it.
module Tap {
  import opened Text
  import opened Wrappers

  // ---------------------------------------------------------------- the kernel

  // An address as `ip addr show` lists it.
  datatype Addr = Addr(text: string, v6: bool)

  // The interface; `netns` is None in the default namespace.
  datatype Link = Link(netns: Option<string>, master: Option<string>, addrs: seq<Addr>, up: bool)

  // A move takes the link out of its bridge, flushes its addresses and leaves it down.
  datatype Command = MoveTo(netns: string) | SetMaster(master: string) | AddAddress(addr: string) | SetState(state: string)

  predicate LeadingZero(mask: string) {
    |mask| > 1 && mask[0] == '0'
  }

  function WithoutZeros(mask: string): string {
    if LeadingZero(mask) then WithoutZeros(mask[1..]) else mask
  }

  // The prefix length of an IPv4 address is listed as a number.
  function Listed(addr: string): Addr {
    var i := Find(addr, '/');
    if ':' in addr then Addr(addr, true)
    else if i == |addr| then Addr(addr, false)
    else Addr(addr[..i + 1] + WithoutZeros(addr[i + 1..]), false)
  }

  predicate PlainIPv4(addr: string) {
    ':' !in addr && (Find(addr, '/') < |addr| ==> !LeadingZero(addr[Find(addr, '/') + 1..]))
  }

  lemma {:induction false} WithoutZerosShrinks(mask: string)
    ensures if LeadingZero(mask) then |WithoutZeros(mask)| < |mask| else WithoutZeros(mask) == mask
  {
    if LeadingZero(mask) {
      WithoutZerosShrinks(mask[1..]);
    }
  }

  // Only leading zeros go, and never the last digit.
  lemma {:induction false} WithoutZerosIs(mask: string, k: nat)
    requires k < |mask| && (forall i :: 0 <= i < k ==> mask[i] == '0') && (mask[k] != '0' || k == |mask| - 1)
    ensures WithoutZeros(mask) == mask[k..]
  {
    if k > 0 {
      WithoutZerosIs(mask[1..], k - 1);
    }
  }

  lemma ListedAsGivenIff(addr: string)
    ensures Listed(addr) == Addr(addr, false) <==> PlainIPv4(addr)
    ensures FirstOf([Listed(addr)]) == Some(addr) <==> PlainIPv4(addr)
  {
    var i := Find(addr, '/');
    if i < |addr| {
      WithoutZerosShrinks(addr[i + 1..]);
      assert addr == addr[..i + 1] + addr[i + 1..];
    }
    assert [Listed(addr)][1..] == [];
  }

  // `nomaster` is the one other word that `ip link set` takes in place of a state.
  function Apply(l: Link, c: Command): Link {
    match c
    case MoveTo(netns) => Link(Some(netns), None, [], false)
    case SetMaster(master) => l.(master := Some(master))
    case AddAddress(addr) => l.(addrs := l.addrs + [Listed(addr)])
    case SetState(state) =>
      if state == "up" then l.(up := true)
      else if state == "down" then l.(up := false)
      else if state == "nomaster" then l.(master := None)
      else l
  }

  predicate IsState(state: string) {
    state == "up" || state == "down"
  }

  // A command can succeed only on a well-formed argument; it may always fail.
  predicate CanSucceed(c: Command) {
    match c
    case MoveTo(netns) => netns != ""
    case SetMaster(master) => master != ""
    case AddAddress(addr) => addr != ""
    case SetState(state) => IsState(state) || state == "nomaster"
  }

  function ApplyAll(l: Link, cs: seq<Command>): Link
    decreases |cs|
  {
    if cs == [] then l else ApplyAll(Apply(l, cs[0]), cs[1..])
  }

  // ---------------------------------------------------------------- the mover

  // What the user asked for.
  datatype Request = Request(master: Option<string>, state: Option<string>, addr: Option<string>)
  // The daemon's configuration, where "" means not specified.
  datatype Config = Config(netns: string, master: string, state: string, addr: string)

  function GetOrEmpty(o: Option<string>): string {
    if o.Some? then o.value else ""
  }

  function NonEmpty(s: string): Option<string> {
    if s == "" then None else Some(s)
  }

  function ConfigOf(netns: string, r: Request): Config {
    Config(netns, GetOrEmpty(r.master), GetOrEmpty(r.state), GetOrEmpty(r.addr))
  }

  function Program(cfg: Config): seq<Command> {
    [MoveTo(cfg.netns)]
    + (if cfg.master != "" then [SetMaster(cfg.master)] else [])
    + (if cfg.addr != "" then [AddAddress(cfg.addr)] else [])
    + (if cfg.state != "" then [SetState(cfg.state)] else [])
  }

  // In the namespace with the requested master, address and state.
  predicate Configured(cfg: Config, l: Link) {
    && l.netns == Some(cfg.netns)
    && l.master == NonEmpty(cfg.master)
    && l.addrs == (if cfg.addr == "" then [] else [Listed(cfg.addr)])
    && (cfg.state != "" ==> StateOf(l) == Some(cfg.state))
  }

  // What the whole program leaves.
  function Final(cfg: Config): Link {
    Link(Some(cfg.netns), if cfg.state == "nomaster" then None else NonEmpty(cfg.master),
         if cfg.addr == "" then [] else [Listed(cfg.addr)], cfg.state == "up")
  }

  // What creating the link in place leaves. Without a state it stays down.
  function InPlace(r: Request): Link {
    Link(None, if r.state == Some("nomaster") then None else r.master,
         if r.addr.Some? then [Listed(r.addr.value)] else [], r.state == Some("up"))
  }

  // Every command for it can succeed.
  predicate Creatable(r: Request) {
    && r.master != Some("") && r.addr != Some("")
    && (r.state.Some? ==> IsState(r.state.value) || r.state.value == "nomaster")
  }

  // Every command of the program can succeed.
  predicate Movable(cfg: Config) {
    cfg.netns != "" && (cfg.state == "" || IsState(cfg.state) || cfg.state == "nomaster")
  }

  lemma MovableIff(cfg: Config)
    ensures Movable(cfg) <==> forall c :: c in Program(cfg) ==> CanSucceed(c)
  {
    var p := Program(cfg);
    assert p[0] == MoveTo(cfg.netns) && p[0] in p;
    if cfg.state != "" {
      assert p[|p| - 1] == SetState(cfg.state) && p[|p| - 1] in p;
    }
    forall c | c in p
      ensures CanSucceed(c) || c == MoveTo(cfg.netns) || c == SetState(cfg.state)
      ensures c.SetState? ==> cfg.state != ""
    {
    }
  }

  lemma ApplyFirst(l: Link, c: Command, present: bool, rest: seq<Command>)
    ensures ApplyAll(l, (if present then [c] else []) + rest) == ApplyAll(if present then Apply(l, c) else l, rest)
  {
    assert ([c] + rest)[1..] == rest && [] + rest == rest;
  }

  lemma {:induction false} ApplyLast(l: Link, cs: seq<Command>, c: Command)
    ensures ApplyAll(l, cs + [c]) == Apply(ApplyAll(l, cs), c)
    decreases |cs|
  {
    if cs == [] {
      assert ([] + [c])[1..] == [];
    } else {
      assert (cs + [c])[1..] == cs[1..] + [c];
      ApplyLast(Apply(l, cs[0]), cs[1..], c);
    }
  }

  // The program moves first, so what was set on the link before does not matter. It
  // leaves exactly what was requested if and only if the state is one or was left open.
  lemma ProgramConfigures(l: Link, cfg: Config)
    ensures ApplyAll(l, Program(cfg)) == Final(cfg)
    ensures Configured(cfg, Final(cfg)) <==> cfg.state == "" || IsState(cfg.state)
  {
    var p4 := (if cfg.state != "" then [SetState(cfg.state)] else []) + [];
    var p3 := (if cfg.addr != "" then [AddAddress(cfg.addr)] else []) + p4;
    var p2 := (if cfg.master != "" then [SetMaster(cfg.master)] else []) + p3;
    assert Program(cfg) == [MoveTo(cfg.netns)] + p2;
    var l1 := Apply(l, MoveTo(cfg.netns));
    var l2 := if cfg.master != "" then Apply(l1, SetMaster(cfg.master)) else l1;
    var l3 := if cfg.addr != "" then Apply(l2, AddAddress(cfg.addr)) else l2;
    ApplyFirst(l, MoveTo(cfg.netns), true, p2);
    ApplyFirst(l1, SetMaster(cfg.master), cfg.master != "", p3);
    ApplyFirst(l2, AddAddress(cfg.addr), cfg.addr != "", p4);
    ApplyFirst(l3, SetState(cfg.state), cfg.state != "", []);
    assert cfg.addr != "" ==> [] + [Listed(cfg.addr)] == [Listed(cfg.addr)];
  }

  // ---------------------------------------------------------------- the interleaving

  datatype Status = Moved | Failed
  datatype Mover = Waiting | Doing(todo: seq<Command>) | Exited

  // A Read under way: the status it read decides where it looks for the link.
  datatype Reader = Idle | HasStatus(moved: bool) | HasLink(moved: bool, link: Link)
                  | Kept | Dropped

  // `saved` is what Terraform's state holds.
  datatype World = World(link: Link, mover: Mover, status: Option<Status>, writes: nat, reader: Reader, saved: Request)

  datatype Action = LinkEvent | GiveUp | RunNext(ok: bool) | Finish
                  | ReadStatus | ShowLink | ShowAddr | ShowFails

  function WriteStatus(w: World, s: Status): World {
    w.(mover := Exited, status := Some(s), writes := w.writes + 1)
  }

  function Namespace(cfg: Config, moved: bool): Option<string> {
    if moved then Some(cfg.netns) else None
  }

  function StateOf(l: Link): Option<string> {
    Some(if l.up then "up" else "down")
  }

  // The first IPv4 address; no other family is looked for.
  function FirstOf(addrs: seq<Addr>): Option<string> {
    if addrs == [] then None else if !addrs[0].v6 then Some(addrs[0].text) else FirstOf(addrs[1..])
  }

  // Each step of the mover is one command or one write; a Read is three steps.
  function Step(cfg: Config, w: World, a: Action): World {
    match a
    case LinkEvent => if w.mover.Waiting? then w.(mover := Doing(Program(cfg))) else w
    case GiveUp => if w.mover.Waiting? then WriteStatus(w, Failed) else w
    case RunNext(ok) =>
      if w.mover.Doing? && w.mover.todo != [] then
        var c := w.mover.todo[0];
        if ok && CanSucceed(c) then w.(link := Apply(w.link, c), mover := Doing(w.mover.todo[1..]))
        else WriteStatus(w, Failed)
      else w
    case Finish => if w.mover == Doing([]) then WriteStatus(w, Moved) else w
    case ReadStatus =>
      if w.reader.HasStatus? || w.reader.HasLink? then w else w.(reader := HasStatus(w.status == Some(Moved)))
    case ShowLink =>
      if !w.reader.HasStatus? then w
      else if w.link.netns != Namespace(cfg, w.reader.moved) then w.(reader := Dropped)
      else w.(reader := HasLink(w.reader.moved, w.link))
    // Any other failure of a look is an error of the Read, and leaves the state alone.
    case ShowFails => if w.reader.HasStatus? || w.reader.HasLink? then w.(reader := Idle) else w
    case ShowAddr =>
      if !w.reader.HasLink? then w
      else if w.link.netns != Namespace(cfg, w.reader.moved) then w.(reader := Dropped)
      else if !w.reader.moved then w.(reader := Kept)
      else w.(reader := Kept,
              saved := Request(w.reader.link.master, StateOf(w.reader.link), FirstOf(w.link.addrs)))
  }

  function Steps(cfg: Config, w: World, schedule: seq<Action>): World
    decreases |schedule|
  {
    if schedule == [] then w else Steps(cfg, Step(cfg, w, schedule[0]), schedule[1..])
  }

  function Start(l: Link, r: Request): World {
    World(l, Waiting, None, 0, Idle, r)
  }

  // A state nobody asked for is filled in.
  predicate Faithful(saved: Request, r: Request) {
    && saved.master == r.master && saved.addr == r.addr
    && (r.state.Some? ==> saved.state == r.state)
  }

  // What a Read saves once the link is where it belongs.
  function ReadBack(l: Link): Request {
    Request(l.master, StateOf(l), FirstOf(l.addrs))
  }

  // Requests that are read back: no empty text, an up or a down, a plain IPv4 address.
  predicate Readable(r: Request) {
    && r.master != Some("")
    && (r.state.Some? ==> IsState(r.state.value))
    && (r.addr.Some? ==> r.addr.value != "" && PlainIPv4(r.addr.value))
  }

  lemma ReadBackIff(netns: string, r: Request)
    requires Movable(ConfigOf(netns, r))
    ensures Faithful(ReadBack(Final(ConfigOf(netns, r))), r) <==> Readable(r)
  {
    if r.addr.Some? {
      ListedAsGivenIff(r.addr.value);
    }
  }

  lemma InPlaceReadBackIff(r: Request)
    requires Creatable(r)
    ensures Faithful(ReadBack(InPlace(r)), r) <==> Readable(r)
  {
    if r.addr.Some? {
      ListedAsGivenIff(r.addr.value);
    }
  }

  // The mover's half: what is done and what is still to do add up to the request.
  ghost predicate MoverInvariant(cfg: Config, w: World) {
    && w.writes == (if w.mover.Exited? then 1 else 0)
    && (w.status.Some? <==> w.mover.Exited?)
    && (w.mover.Doing? ==>
          && ApplyAll(w.link, w.mover.todo) == Final(cfg)
          && (Movable(cfg) || exists c :: c in w.mover.todo && !CanSucceed(c)))
    && (w.status == Some(Moved) ==> w.link == Final(cfg) && Movable(cfg))
  }

  // The reader's half: having read "moved" it can rely on it.
  predicate ReaderInvariant(cfg: Config, r: Request, w: World) {
    && (w.reader.HasStatus? && w.reader.moved ==> w.status == Some(Moved))
    && (w.reader.HasLink? && w.reader.moved ==> w.status == Some(Moved) && w.reader.link == w.link)
    && (w.saved == r || (w.status == Some(Moved) && w.saved == ReadBack(Final(cfg))))
  }

  predicate IsMoverAction(a: Action) {
    a.LinkEvent? || a.GiveUp? || a.RunNext? || a.Finish?
  }

  lemma MoverKeeps(cfg: Config, r: Request, w: World, a: Action)
    requires MoverInvariant(cfg, w) && ReaderInvariant(cfg, r, w) && IsMoverAction(a)
    ensures MoverInvariant(cfg, Step(cfg, w, a)) && ReaderInvariant(cfg, r, Step(cfg, w, a))
  {
    ProgramConfigures(w.link, cfg);
    MovableIff(cfg);
  }

  lemma ReaderKeeps(cfg: Config, r: Request, w: World, a: Action)
    requires MoverInvariant(cfg, w) && ReaderInvariant(cfg, r, w) && !IsMoverAction(a)
    ensures MoverInvariant(cfg, Step(cfg, w, a)) && ReaderInvariant(cfg, r, Step(cfg, w, a))
  {
  }

  lemma {:induction false} InvariantAlways(cfg: Config, r: Request, w: World, schedule: seq<Action>)
    requires MoverInvariant(cfg, w) && ReaderInvariant(cfg, r, w)
    ensures MoverInvariant(cfg, Steps(cfg, w, schedule)) && ReaderInvariant(cfg, r, Steps(cfg, w, schedule))
    decreases |schedule|
  {
    if schedule != [] {
      if IsMoverAction(schedule[0]) {
        MoverKeeps(cfg, r, w, schedule[0]);
      } else {
        ReaderKeeps(cfg, r, w, schedule[0]);
      }
      InvariantAlways(cfg, r, Step(cfg, w, schedule[0]), schedule[1..]);
    }
  }

  // In every interleaving: the mover writes at most one status, one exactly when it has
  // exited; "moved" is written only for a link that the whole program was run on, and that
  // is configured as requested exactly when the state is one or was left open; and a Read
  // leaves the request in the state or what the configured link shows.
  lemma MoverAndReads(netns: string, created: Link, r: Request, schedule: seq<Action>)
    ensures
      var cfg := ConfigOf(netns, r);
      var w := Steps(cfg, Start(created, r), schedule);
      && w.writes == (if w.mover.Exited? then 1 else 0)
      && (w.status == Some(Moved) ==> (Configured(cfg, w.link) <==> cfg.state == "" || IsState(cfg.state)))
      && (w.saved == r || (w.status == Some(Moved) && w.saved == ReadBack(w.link)))
  {
    var cfg := ConfigOf(netns, r);
    ProgramConfigures(created, cfg);
    InvariantAlways(cfg, r, Start(created, r), schedule);
  }

  // Where the mover fails: it gives up waiting, or a command fails.
  predicate FailsAt(w: World, a: Action) {
    || (a.GiveUp? && w.mover.Waiting?)
    || (a.RunNext? && w.mover.Doing? && w.mover.todo != [] && !(a.ok && CanSucceed(w.mover.todo[0])))
  }

  predicate FailsSomewhere(cfg: Config, w: World, schedule: seq<Action>)
    decreases |schedule|
  {
    schedule != [] && (FailsAt(w, schedule[0]) || FailsSomewhere(cfg, Step(cfg, w, schedule[0]), schedule[1..]))
  }

  // An error is reported exactly if the mover has failed.
  lemma {:induction false} FailedIff(cfg: Config, w: World, schedule: seq<Action>)
    requires MoverInvariant(cfg, w)
    ensures Steps(cfg, w, schedule).status == Some(Failed)
      <==> w.status == Some(Failed) || FailsSomewhere(cfg, w, schedule)
    decreases |schedule|
  {
    if schedule != [] {
      var t := Step(cfg, w, schedule[0]);
      assert t.status == Some(Failed) <==> w.status == Some(Failed) || FailsAt(w, schedule[0]);
      if IsMoverAction(schedule[0]) {
        MoverKeeps(cfg, w.saved, Resting(w), schedule[0]);
      }
      assert MoverInvariant(cfg, t);
      FailedIff(cfg, t, schedule[1..]);
    }
  }

  // The same world with no Read under way.
  function Resting(w: World): World {
    w.(reader := Idle)
  }

  // The mover's word is final.
  lemma {:induction false} ExitedStays(cfg: Config, w: World, schedule: seq<Action>)
    requires w.mover.Exited?
    ensures var t := Steps(cfg, w, schedule);
      t.mover.Exited? && t.status == w.status && t.writes == w.writes && t.link == w.link
    decreases |schedule|
  {
    if schedule != [] {
      ExitedStays(cfg, Step(cfg, w, schedule[0]), schedule[1..]);
    }
  }

  predicate Reading(r: Reader) {
    r.HasStatus? || r.HasLink?
  }

  // Between Reads neither the state nor the outcome of the last one changes.
  lemma {:induction false} RestsBetweenReads(cfg: Config, w: World, schedule: seq<Action>)
    requires !Reading(w.reader) && ReadStatus !in schedule
    ensures Steps(cfg, w, schedule).reader == w.reader && Steps(cfg, w, schedule).saved == w.saved
    decreases |schedule|
  {
    if schedule != [] {
      RestsBetweenReads(cfg, Step(cfg, w, schedule[0]), schedule[1..]);
    }
  }

  // A look that fails ends the Read: it neither saves nor drops anything.
  lemma FailedLookEndsRead(cfg: Config, w: World, schedule: seq<Action>)
    requires Reading(w.reader) && ReadStatus !in schedule
    ensures var t := Steps(cfg, w, [ShowFails] + schedule);
      t.reader.Idle? && t.saved == w.saved
  {
    assert ([ShowFails] + schedule)[1..] == schedule;
    RestsBetweenReads(cfg, Step(cfg, w, ShowFails), schedule);
  }

  ghost predicate KeptFaithfully(netns: string, created: Link, r: Request, schedule: seq<Action>) {
    var w := Steps(ConfigOf(netns, r), Start(created, r), schedule);
    w.reader.Kept? ==> Faithful(w.saved, r)
  }

  lemma {:induction false} StepsConcat(cfg: Config, w: World, a: seq<Action>, b: seq<Action>)
    ensures Steps(cfg, w, a + b) == Steps(cfg, Steps(cfg, w, a), b)
    decreases |a|
  {
    if a == [] {
      assert a + b == b;
    } else {
      assert (a + b)[1..] == a[1..] + b;
      StepsConcat(cfg, Step(cfg, w, a[0]), a[1..], b);
    }
  }

  // All commands left to do can succeed, one after the other.
  lemma {:induction false} RunAll(cfg: Config, w: World) returns (schedule: seq<Action>)
    requires w.mover.Doing? && forall c :: c in w.mover.todo ==> CanSucceed(c)
    ensures Steps(cfg, w, schedule) == w.(link := ApplyAll(w.link, w.mover.todo), mover := Doing([]))
    decreases |w.mover.todo|
  {
    if w.mover.todo == [] {
      schedule := [];
    } else {
      var rest := RunAll(cfg, Step(cfg, w, RunNext(true)));
      schedule := [RunNext(true)] + rest;
      assert schedule[1..] == rest;
    }
  }

  const READ: seq<Action> := [ReadStatus, ShowLink, ShowAddr]

  lemma MovedRead(cfg: Config, w: World) returns (t: World)
    requires w.status == Some(Moved) && w.link.netns == Some(cfg.netns) && (w.reader.Idle? || w.reader.Kept?)
    ensures t == Steps(cfg, w, READ) && t == w.(reader := Kept, saved := ReadBack(w.link))
  {
    var w1 := Step(cfg, w, ReadStatus);
    var w2 := Step(cfg, w1, ShowLink);
    t := Step(cfg, w2, ShowAddr);
    assert [ShowLink, ShowAddr][1..] == [ShowAddr];
    assert READ[1..] == [ShowLink, ShowAddr];
    assert Steps(cfg, w2, [ShowAddr]) == Steps(cfg, t, []) == t;
    assert Steps(cfg, w1, [ShowLink, ShowAddr]) == t;
  }

  // Mover and a Read one after the other.
  lemma MoveThenRead(netns: string, created: Link, r: Request) returns (schedule: seq<Action>)
    requires Movable(ConfigOf(netns, r))
    ensures
      var w := Steps(ConfigOf(netns, r), Start(created, r), schedule);
      w.reader.Kept? && w.saved == ReadBack(Final(ConfigOf(netns, r)))
  {
    var cfg := ConfigOf(netns, r);
    var w1 := Step(cfg, Start(created, r), LinkEvent);
    MovableIff(cfg);
    ProgramConfigures(created, cfg);
    var run := RunAll(cfg, w1);
    var w2 := Steps(cfg, w1, run);
    var w3 := Step(cfg, w2, Finish);
    var w4 := MovedRead(cfg, w3);
    var last := [Finish] + READ;
    assert last[1..] == READ && Steps(cfg, w2, last) == w4;
    StepsConcat(cfg, w1, run, last);
    schedule := [LinkEvent] + (run + last);
    assert schedule[1..] == run + last;
  }

  // Every Read that keeps the resource finds the request, in every interleaving, exactly
  // for the requests that can be read back and for those that are never moved.
  lemma ReadsFaithfulIff(netns: string, created: Link, r: Request)
    ensures (forall schedule :: KeptFaithfully(netns, created, r, schedule))
      <==> Readable(r) || !Movable(ConfigOf(netns, r))
  {
    var cfg := ConfigOf(netns, r);
    if Movable(cfg) {
      ReadBackIff(netns, r);
    }
    if Readable(r) || !Movable(cfg) {
      forall schedule
        ensures KeptFaithfully(netns, created, r, schedule)
      {
        InvariantAlways(cfg, r, Start(created, r), schedule);
      }
    } else {
      var schedule := MoveThenRead(netns, created, r);
      assert !KeptFaithfully(netns, created, r, schedule);
    }
  }

  // ---------------------------------------------------------------- limits

  // A Read after the move keeps the resource, and finds the request if and only if that
  // can be read back.
  lemma MovedReadFaithfulIff(netns: string, r: Request, w: World)
    requires MoverInvariant(ConfigOf(netns, r), w) && w.status == Some(Moved) && w.reader.Idle?
    ensures
      var t := Steps(ConfigOf(netns, r), w, READ);
      t.reader.Kept? && (Faithful(t.saved, r) <==> Readable(r))
  {
    ReadBackIff(netns, r);
    var _ := MovedRead(ConfigOf(netns, r), w);
  }

  // A Read that saw "moved" always finds the link; any other Read drops the resource from
  // the state exactly when the link has left the default namespace by the time it looks.
  lemma DropsIff(netns: string, r: Request, w: World, a: Action)
    requires MoverInvariant(ConfigOf(netns, r), w) && ReaderInvariant(ConfigOf(netns, r), r, w)
    requires (a.ShowLink? && w.reader.HasStatus?) || (a.ShowAddr? && w.reader.HasLink?)
    ensures Step(ConfigOf(netns, r), w, a).reader.Dropped? <==> !w.reader.moved && w.link.netns.Some?
  {
  }

  // That does happen to a resource in good health: the move can fall between the two
  // looks of a Read, and the link then goes unmanaged.
  lemma ReadCanDropHealthyTap(netns: string, created: Link, r: Request)
    requires created.netns.None? && netns != ""
    ensures exists schedule ::
      var w := Steps(ConfigOf(netns, r), Start(created, r), schedule);
      w.reader.Dropped? && w.mover.Doing? && w.link.netns == Some(netns)
  {
    var cfg := ConfigOf(netns, r);
    var w0 := Start(created, r);
    var w1 := Step(cfg, w0, ReadStatus);
    var w2 := Step(cfg, w1, LinkEvent);
    var w3 := Step(cfg, w2, RunNext(true));
    var w4 := Step(cfg, w3, ShowLink);
    assert Steps(cfg, w3, [ShowLink]) == w4;
    var s2 := [RunNext(true), ShowLink];
    assert s2[1..] == [ShowLink] && Steps(cfg, w2, s2) == w4;
    var s3 := [LinkEvent] + s2;
    assert s3[1..] == s2 && Steps(cfg, w1, s3) == w4;
    var s4 := [ReadStatus] + s3;
    assert s4[1..] == s3 && Steps(cfg, w0, s4) == w4;
  }

  // ---------------------------------------------------------------- the programs

  class TAP {
    var link: Link
    var status: Option<Status>
    ghost var writes: nat
    ghost var failures: nat // commands that failed
    ghost var looks: nat    // `ip ... show` commands

    constructor (link: Link)
      ensures this.link == link && status.None? && writes == 0 && failures == 0 && looks == 0
    {
      this.link, status, writes, failures, looks := link, None, 0, 0, 0;
    }

    method RunIP(c: Command) returns (ok: bool)
      modifies this`link, this`failures
      ensures link == if ok then Apply(old(link), c) else old(link)
      ensures ok ==> CanSucceed(c)
      ensures failures == old(failures) + if ok then 0 else 1
    {
      ok := *;
      ok := ok && CanSucceed(c);
      if ok {
        link := Apply(link, c);
      } else {
        failures := failures + 1;
      }
    }

    // `ip ... show`
    method Show() returns (ok: bool)
      modifies this`failures, this`looks
      ensures failures == old(failures) + (if ok then 0 else 1) && looks == old(looks) + 1
    {
      ok, looks := *, looks + 1;
      if !ok {
        failures := failures + 1;
      }
    }

    method WriteStatusFile(s: Status)
      modifies this`status, this`writes
      ensures status == Some(s) && writes == old(writes) + 1
    {
      status, writes := Some(s), writes + 1;
    }

    // The daemon after its link event; `done` are the commands that succeeded.
    method MoveTAP(cfg: Config) returns (ghost done: seq<Command>)
      modifies this
      ensures writes == old(writes) + 1 && status.Some?
      ensures link == ApplyAll(old(link), done)
      ensures status == Some(Moved) ==> done == Program(cfg) && link == Final(cfg)
      ensures status == Some(Moved) ==> (Configured(cfg, link) <==> cfg.state == "" || IsState(cfg.state))
      ensures status == Some(Failed) ==> done < Program(cfg)
      ensures failures == old(failures) + if status == Some(Moved) then 0 else 1
    {
      ghost var p := Program(cfg);
      ProgramConfigures(link, cfg);
      done := [];
      var ok := RunIP(MoveTo(cfg.netns));
      if !ok {
        WriteStatusFile(Failed);
        return;
      }
      ApplyLast(old(link), done, MoveTo(cfg.netns));
      done := done + [MoveTo(cfg.netns)];
      if cfg.master != "" {
        ok := RunIP(SetMaster(cfg.master));
        if !ok {
          WriteStatusFile(Failed);
          return;
        }
        ApplyLast(old(link), done, SetMaster(cfg.master));
        done := done + [SetMaster(cfg.master)];
      }
      if cfg.addr != "" {
        ok := RunIP(AddAddress(cfg.addr));
        if !ok {
          WriteStatusFile(Failed);
          return;
        }
        ApplyLast(old(link), done, AddAddress(cfg.addr));
        done := done + [AddAddress(cfg.addr)];
      }
      if cfg.state != "" {
        ok := RunIP(SetState(cfg.state));
        if !ok {
          WriteStatusFile(Failed);
          return;
        }
        ApplyLast(old(link), done, SetState(cfg.state));
        done := done + [SetState(cfg.state)];
      }
      WriteStatusFile(Moved);
    }

    // Create without a namespace: the link is configured and read back in place.
    method CreateInPlace(r: Request) returns (saved: Option<Request>)
      requires link == Link(None, None, [], false)
      modifies this`link, this`failures, this`looks
      ensures saved.Some? ==> looks == old(looks) + 2
      ensures saved.Some? <==> failures == old(failures)
      ensures saved.Some? ==> link == InPlace(r)
      ensures saved.Some? ==> saved.value == ReadBack(link) && (Faithful(saved.value, r) <==> Readable(r))
      ensures link.netns.None?
    {
      if r.master.Some? {
        var ok := RunIP(SetMaster(r.master.value));
        if !ok {
          return None;
        }
      }
      if r.state.Some? {
        var ok := RunIP(SetState(r.state.value));
        if !ok {
          return None;
        }
      }
      if r.addr.Some? {
        var ok := RunIP(AddAddress(r.addr.value));
        if !ok {
          return None;
        }
      }
      var shown := Show();
      if shown {
        shown := Show();
      }
      if !shown {
        return None;
      }
      assert link == InPlace(r);
      InPlaceReadBackIff(r);
      saved := Some(ReadBack(link));
    }
  }
}
