// Connection ownership in internal/exec/ssh.go: a lazily dialed target client, the
// jump clients it is tunnelled through, an SFTP session, and agent forwarding.
module SshConnection {
  import opened Text
  import opened Wrappers

  type Conn = nat

  // What the remote side sees. Ready marks the moment a connection is handed out.
  datatype Event = AgentRequested(c: Conn) | Ready(c: Conn) | Command(c: Conn) | Closed(c: Conn)

  function Requests(log: seq<Event>, c: Conn): nat {
    if log == [] then 0
    else Requests(log[..|log| - 1], c) + if log[|log| - 1] == AgentRequested(c) then 1 else 0
  }

  // The discipline of one executor: an agent request is made at most once per connection
  // and before it is handed out, and commands use open connections that were handed out.
  predicate Allowed(past: seq<Event>, e: Event, agent: bool) {
    match e
    case AgentRequested(c) => agent && Requests(past, c) == 0 && Ready(c) !in past
    case Ready(c) => Requests(past, c) == if agent then 1 else 0
    case Command(c) => Ready(c) in past && Closed(c) !in past
    case Closed(c) => true
  }

  predicate Disciplined(log: seq<Event>, agent: bool) {
    forall i :: 0 <= i < |log| ==> Allowed(log[..i], log[i], agent)
  }

  // The log has grown, by no command.
  predicate NoCommandSince(before: seq<Event>, after: seq<Event>) {
    before <= after && forall i :: |before| <= i < |after| ==> !after[i].Command?
  }

  lemma NoCommandSinceBoth(a: seq<Event>, b: seq<Event>, c: seq<Event>)
    requires NoCommandSince(a, b) && NoCommandSince(b, c)
    ensures NoCommandSince(a, c)
  {
  }

  lemma DisciplinedSnoc(log: seq<Event>, e: Event, agent: bool)
    requires Disciplined(log, agent) && Allowed(log, e, agent)
    ensures Disciplined(log + [e], agent)
  {
    var next := log + [e];
    forall i | 0 <= i < |next|
      ensures Allowed(next[..i], next[i], agent)
    {
      assert next[..i] == if i < |log| then log[..i] else log;
    }
  }

  lemma {:induction false} RequestedOnce(log: seq<Event>, agent: bool, c: Conn)
    requires Disciplined(log, agent)
    ensures Requests(log, c) <= 1 && (!agent ==> Requests(log, c) == 0)
    ensures Ready(c) in log ==> Requests(log, c) == if agent then 1 else 0
    decreases |log|
  {
    if log != [] {
      var past, e := log[..|log| - 1], log[|log| - 1];
      assert forall i :: 0 <= i < |past| ==> past[..i] == log[..i];
      RequestedOnce(past, agent, c);
      assert log == past + [e] && Allowed(past, e, agent);
    }
  }

  lemma {:induction false} NoRequests(log: seq<Event>, c: Conn)
    requires forall e :: e in log ==> e.c != c
    ensures Requests(log, c) == 0
    decreases |log|
  {
    if log != [] {
      assert log[|log| - 1] in log;
      NoRequests(log[..|log| - 1], c);
    }
  }

  // Forwarding is requested exactly once on every connection a command ever ran on,
  // and that request comes before the command.
  lemma RequestedBeforeCommands(log: seq<Event>, agent: bool, k: nat)
    requires Disciplined(log, agent) && agent && k < |log| && log[k].Command?
    ensures Requests(log, log[k].c) == 1 && Requests(log[..k], log[k].c) == 1
  {
    var c, past := log[k].c, log[..k];
    assert Allowed(past, log[k], agent);
    assert forall i :: 0 <= i < k ==> past[..i] == log[..i];
    RequestedOnce(past, agent, c);
    RequestedOnce(log, agent, c);
    assert Ready(c) in log;
  }

  // ---------------------------------------------------------------- the network

  class Network {
    var open: set<Conn>
    var via: map<Conn, Conn>
    var next: Conn
    var log: seq<Event>
    var handlers: set<Conn> // connections that answer agent channels
    var sessions: set<Conn> // connections with an open SFTP session
    ghost var faults: nat // steps of connecting that failed
    ghost var closeErrors: nat // errors from closing

    // Every open connection that is tunnelled runs through an open connection.
    ghost predicate Supported()
      reads this
    {
      && (forall c :: c in open || c in handlers || c in sessions ==> c < next)
      && (forall e :: e in log ==> e.c < next)
      && forall c {:trigger via[c]} :: c in open && c in via ==> via[c] in open
    }

    constructor ()
      ensures Supported() && open == {} && log == [] && faults == 0 && closeErrors == 0
      ensures handlers == {} && sessions == {}
    {
      open, via, next, log, faults, closeErrors, handlers, sessions := {}, map[], 0, [], 0, 0, {}, {};
    }

    method Dial(through: Option<Conn>) returns (r: Option<Conn>)
      requires Supported() && (through.Some? ==> through.value in open)
      modifies this
      ensures Supported() && log == old(log) && closeErrors == old(closeErrors) && handlers == old(handlers) && sessions == old(sessions)
      ensures r.None? ==> open == old(open) && via == old(via) && next == old(next)
      ensures faults == old(faults) + if r.None? then 1 else 0
      ensures r.Some? ==> r.value == old(next) && next == r.value + 1 && open == old(open) + {r.value}
      ensures r.Some? ==> via == if through.Some? then old(via)[r.value := through.value] else old(via) - {r.value}
    {
      var refused: bool := *;
      if refused {
        faults := faults + 1;
        return None;
      }
      var c := next;
      next, open := next + 1, open + {c};
      via := if through.Some? then via[c := through.value] else via - {c};
      r := Some(c);
    }

    // A step that may fail without a trace.
    method Attempt() returns (ok: bool)
      modifies this`faults
      ensures faults == old(faults) + if ok then 0 else 1
    {
      ok := *;
      if !ok {
        faults := faults + 1;
      }
    }

    // Closing a connection that still carries another one would break Supported, and its
    // SFTP session goes first.
    method Close(c: Conn) returns (failed: bool)
      requires Supported() && c in open && c !in sessions && forall d :: d in open && d in via ==> via[d] != c
      modifies this`open, this`log, this`closeErrors
      ensures Supported() && open == old(open) - {c} && log == old(log) + [Closed(c)]
      ensures closeErrors == old(closeErrors) + if failed then 1 else 0
    {
      open, log := open - {c}, log + [Closed(c)];
      failed := *;
      closeErrors := closeErrors + if failed then 1 else 0;
    }

    // One handler per connection.
    method InstallHandler(c: Conn) returns (ok: bool)
      requires Supported() && c in open && c !in handlers
      modifies this`handlers, this`faults
      ensures Supported() && handlers == old(handlers) + if ok then {c} else {}
      ensures faults == old(faults) + if ok then 0 else 1
    {
      ok := Attempt();
      handlers := handlers + if ok then {c} else {};
    }

    method OpenSession(c: Conn) returns (ok: bool)
      requires Supported() && c in open && c !in sessions
      modifies this`sessions, this`faults
      ensures Supported() && sessions == old(sessions) + if ok then {c} else {}
      ensures faults == old(faults) + if ok then 0 else 1
    {
      ok := Attempt();
      sessions := sessions + if ok then {c} else {};
    }

    method CloseSession(c: Conn) returns (failed: bool)
      requires Supported() && c in open && c in sessions
      modifies this`sessions, this`closeErrors
      ensures Supported() && sessions == old(sessions) - {c}
      ensures closeErrors == old(closeErrors) + if failed then 1 else 0
    {
      sessions := sessions - {c};
      failed := *;
      closeErrors := closeErrors + if failed then 1 else 0;
    }

    // Agent channels are asked for only where they are answered; what is handed out has a
    // session.
    method Record(e: Event)
      requires Supported() && e.c in open
      requires (e.AgentRequested? ==> e.c in handlers) && (e.Ready? ==> e.c in sessions)
      modifies this`log
      ensures Supported() && log == old(log) + [e]
    {
      log := log + [e];
    }
  }

  // ---------------------------------------------------------------- the executor

  // Connections in dial order, each tunnelled through the one before it.
  ghost predicate Chain(cs: seq<Conn>, via: map<Conn, Conn>) {
    && (forall i, j :: 0 <= i < j < |cs| ==> cs[i] < cs[j])
    && (|cs| > 0 ==> cs[0] !in via)
    && forall i :: 0 < i < |cs| ==> cs[i] in via && via[cs[i]] == cs[i - 1]
  }

  function Members(cs: seq<Conn>): set<Conn> {
    set c | c in cs
  }

  lemma ChainSnoc(cs: seq<Conn>, via: map<Conn, Conn>, via': map<Conn, Conn>, c: Conn)
    requires Chain(cs, via) && forall d :: d in cs ==> d < c
    requires via' == if cs == [] then via - {c} else via[c := cs[|cs| - 1]]
    ensures Chain(cs + [c], via') && Members(cs + [c]) == Members(cs) + {c}
  {
    assert forall i :: 0 <= i < |cs| ==> cs[i] in cs;
  }

  lemma ChainInit(cs: seq<Conn>, via: map<Conn, Conn>)
    requires Chain(cs, via) && cs != []
    ensures
      var last, init := cs[|cs| - 1], cs[..|cs| - 1];
      && Chain(init, via) && Members(init) == Members(cs) - {last} && last in Members(cs)
      && forall d :: d in Members(cs) && d in via ==> via[d] != last
  {
    var last, init := cs[|cs| - 1], cs[..|cs| - 1];
    forall d | d in Members(cs)
      ensures (d in init || d == last) && (d in via ==> via[d] != last)
    {
      var i :| 0 <= i < |cs| && cs[i] == d;
      assert i > 0 ==> cs[i - 1] < cs[i] <= last;
    }
  }

  class SSHExecutor {
    const jumps: nat        // number of jump hosts
    const agentSocket: bool // whether an agent socket is configured
    const net: Network
    var client: Option<Conn>
    var jumpClients: seq<Conn>
    var sftp: Option<Conn>  // the client an SFTP session runs on
    var done: bool

    ghost function Held(): seq<Conn>
      reads this
    {
      jumpClients + if client.Some? then [client.value] else []
    }

    // `cs` are the open connections, in dial order.
    ghost predicate Holding(cs: seq<Conn>)
      reads net
    {
      && net.Supported() && Disciplined(net.log, agentSocket)
      && net.open == Members(cs) && Chain(cs, net.via)
      && forall e :: e in net.log && e.Closed? ==> e.c !in net.open
    }

    // The same before anything has happened on any of them.
    ghost predicate Dialed(cs: seq<Conn>)
      reads net
    {
      Holding(cs) && net.sessions == {} && net.handlers !! net.open && forall e :: e in net.log ==> e.c !in net.open
    }

    // The open connections are exactly the ones held in the fields.
    ghost predicate Valid()
      reads this, net
    {
      && Holding(Held())
      && sftp == client && (client.None? ==> jumpClients == []) && (client.Some? ==> |jumpClients| == jumps)
      && (client.Some? ==> Ready(client.value) in net.log)
      && net.sessions == if sftp.Some? then {sftp.value} else {}
    }

    constructor (jumps: nat, agentSocket: bool)
      ensures Valid() && fresh(net) && client.None? && !done
      ensures this.jumps == jumps && this.agentSocket == agentSocket
    {
      this.jumps, this.agentSocket := jumps, agentSocket;
      net := new Network();
      client, jumpClients, sftp, done := None, [], None, false;
    }

    method CloseLast(ghost cs: seq<Conn>, c: Conn) returns (failed: bool)
      requires Holding(cs + [c]) && c !in net.sessions
      modifies net`open, net`log, net`closeErrors
      ensures Holding(cs) && net.log == old(net.log) + [Closed(c)] && c !in net.open
      ensures net.closeErrors == old(net.closeErrors) + if failed then 1 else 0
    {
      ChainInit(cs + [c], net.via);
      assert (cs + [c])[..|cs|] == cs;
      DisciplinedSnoc(net.log, Closed(c), agentSocket);
      failed := net.Close(c);
    }

    // Innermost tunnel first. Close reports the first failure, the other callers ignore it.
    method CloseClients(clients: seq<Conn>) returns (failed: bool)
      requires Holding(clients) && net.sessions == {}
      modifies net`open, net`log, net`closeErrors
      ensures Holding([]) && NoCommandSince(old(net.log), net.log)
      ensures net.closeErrors >= old(net.closeErrors) && (failed <==> net.closeErrors > old(net.closeErrors))
    {
      var i := |clients|;
      failed := false;
      assert clients[..i] == clients;
      while i > 0
        invariant 0 <= i <= |clients| && Holding(clients[..i]) && NoCommandSince(old(net.log), net.log)
        invariant net.closeErrors >= old(net.closeErrors) && (failed <==> net.closeErrors > old(net.closeErrors))
      {
        i := i - 1;
        TakeNext(clients, i);
        var cerr := CloseLast(clients[..i], clients[i]);
        failed := failed || cerr;
      }
    }

    method OpenThrough(ghost cs: seq<Conn>, through: Option<Conn>) returns (r: Option<Conn>)
      requires Dialed(cs) && through == if cs == [] then None else Some(cs[|cs| - 1])
      modifies net
      ensures r.None? ==> Dialed(cs)
      ensures r.Some? ==> Dialed(cs + [r.value]) && r.value !in cs
      ensures net.log == old(net.log)
      ensures net.faults == old(net.faults) + if r.None? then 1 else 0
    {
      r := net.Dial(through);
      if r.Some? {
        ChainSnoc(cs, old(net.via), net.via, r.value);
      }
    }

    // One hop: a connection and the SSH handshake over it, which closes it when it fails.
    method Tunnel(ghost cs: seq<Conn>, through: Option<Conn>) returns (r: Option<Conn>)
      requires Dialed(cs) && through == if cs == [] then None else Some(cs[|cs| - 1])
      modifies net
      ensures r.None? ==> Dialed(cs)
      ensures r.Some? ==> Dialed(cs + [r.value])
      ensures NoCommandSince(old(net.log), net.log)
      ensures net.faults == old(net.faults) + if r.None? then 1 else 0
    {
      var conn := OpenThrough(cs, through);
      if conn.None? {
        return None;
      }
      var handshake := net.Attempt();
      if !handshake {
        var _ := CloseLast(cs, conn.value);
        return None;
      }
      r := conn;
    }

    method Dial() returns (r: Option<(Conn, seq<Conn>)>)
      requires Dialed([])
      modifies net
      ensures r.None? ==> Holding([]) && net.sessions == {}
      ensures r.Some? ==> |r.value.1| == jumps && Dialed(r.value.1 + [r.value.0])
      ensures NoCommandSince(old(net.log), net.log)
      ensures net.faults == old(net.faults) + if r.None? then 1 else 0
    {
      var jumpClients: seq<Conn> := [];
      for i := 0 to jumps
        invariant |jumpClients| == i && Dialed(jumpClients) && net.faults == old(net.faults)
        invariant NoCommandSince(old(net.log), net.log)
      {
        var hop := Tunnel(jumpClients, if i == 0 then None else Some(jumpClients[i - 1]));
        if hop.None? {
          var _ := CloseClients(jumpClients);
          return None;
        }
        jumpClients := jumpClients + [hop.value];
      }
      var target := Tunnel(jumpClients, if jumps == 0 then None else Some(jumpClients[jumps - 1]));
      if target.None? {
        var _ := CloseClients(jumpClients);
        return None;
      }
      r := Some((target.value, jumpClients));
    }

    // A request may fail before it is sent (no session) or be refused.
    method RequestAgentForwarding(c: Conn, ghost cs: seq<Conn>) returns (ok: bool)
      requires Holding(cs) && c in cs && agentSocket && c in net.handlers
      requires Requests(net.log, c) == 0 && Ready(c) !in net.log
      modifies net`log, net`faults
      ensures Holding(cs) && Ready(c) !in net.log
      ensures net.faults == old(net.faults) + if ok then 0 else 1
      ensures net.log == old(net.log) || net.log == old(net.log) + [AgentRequested(c)]
      ensures ok ==> Requests(net.log, c) == 1
    {
      var session := net.Attempt();
      if !session {
        return false;
      }
      DisciplinedSnoc(net.log, AgentRequested(c), agentSocket);
      net.Record(AgentRequested(c));
      assert net.log[..|net.log| - 1] == old(net.log);
      ok := net.Attempt();
    }

    method ConnFailed(target: Conn, jumpClients: seq<Conn>)
      requires Holding(jumpClients + [target]) && net.sessions == {}
      modifies net`open, net`log, net`closeErrors
      ensures Holding([]) && NoCommandSince(old(net.log), net.log)
    {
      var _ := CloseLast(jumpClients, target);
      var _ := CloseClients(jumpClients);
    }

    method HandOut(c: Conn, ghost cs: seq<Conn>)
      requires Holding(cs) && c in cs && c in net.sessions && Requests(net.log, c) == if agentSocket then 1 else 0
      modifies net`log
      ensures Holding(cs) && net.log == old(net.log) + [Ready(c)]
    {
      DisciplinedSnoc(net.log, Ready(c), agentSocket);
      net.Record(Ready(c));
    }

    // Both halves of agent forwarding, where it is configured.
    method ForwardAgent(target: Conn, ghost cs: seq<Conn>) returns (ok: bool)
      requires Holding(cs) && target in cs && Requests(net.log, target) == 0 && Ready(target) !in net.log
      requires target !in net.handlers
      modifies net`log, net`faults, net`handlers
      ensures Holding(cs) && NoCommandSince(old(net.log), net.log)
      ensures ok ==> Requests(net.log, target) == if agentSocket then 1 else 0
      ensures net.faults == old(net.faults) + if ok then 0 else 1
    {
      ok := true;
      if agentSocket {
        ok := net.InstallHandler(target);
        if ok {
          ok := RequestAgentForwarding(target, cs);
        }
      }
    }

    // Agent forwarding and the SFTP session of a new connection; if a step fails, nothing
    // is left open.
    method Prepare(target: Conn, jumpClients: seq<Conn>) returns (ok: bool)
      requires Dialed(jumpClients + [target])
      modifies net`open, net`log, net`closeErrors, net`faults, net`handlers, net`sessions
      ensures if ok then Holding(jumpClients + [target]) && Ready(target) in net.log else Holding([])
      ensures net.sessions == if ok then {target} else {}
      ensures NoCommandSince(old(net.log), net.log)
      ensures net.faults == old(net.faults) + if ok then 0 else 1
    {
      ghost var cs := jumpClients + [target];
      assert cs[|jumpClients|] == target && target in cs && target in net.open;
      NoRequests(net.log, target);
      ok := ForwardAgent(target, cs);
      ghost var log := net.log;
      if ok {
        ok := net.OpenSession(target);
      }
      if ok {
        HandOut(target, cs);
      } else {
        ConnFailed(target, jumpClients);
      }
      NoCommandSinceBoth(old(net.log), log, net.log);
    }

    method Connect() returns (r: Option<Conn>)
      requires Valid()
      modifies this`client, this`jumpClients, this`sftp, net
      ensures Valid() && r == client
      ensures old(client).Some? ==> client == old(client) && jumpClients == old(jumpClients) && net.log == old(net.log)
      ensures client.None? ==> net.open == {}
      ensures NoCommandSince(old(net.log), net.log)
      ensures r.Some? <==> net.faults == old(net.faults)
      ensures net.faults >= old(net.faults)
    {
      if client.Some? && sftp.Some? {
        return client;
      }
      assert Held() == [];
      var dialed := Dial();
      if dialed.None? {
        return None;
      }
      var (target, jumpClients) := dialed.value;
      var ok := Prepare(target, jumpClients);
      if !ok {
        return None;
      }
      this.client, this.jumpClients, this.sftp := Some(target), jumpClients, Some(target);
      assert Held() == jumpClients + [target];
      r := Some(target);
    }

    method Issue(c: Conn, ghost cs: seq<Conn>)
      requires Holding(cs) && c in cs && Ready(c) in net.log
      modifies net`log
      ensures Holding(cs) && net.log == old(net.log) + [Command(c)]
    {
      assert c in net.open;
      DisciplinedSnoc(net.log, Command(c), agentSocket);
      net.Record(Command(c));
    }

    // A session may be refused on a good connection.
    method RunCommand() returns (ok: bool)
      requires Valid()
      modifies this`client, this`jumpClients, this`sftp, net
      ensures Valid() && (ok ==> client.Some?)
      ensures ok <==> net.faults == old(net.faults)
      ensures net.faults >= old(net.faults)
      // One command runs, the last thing to happen, or none does.
      ensures ok ==> net.log != [] && net.log[|net.log| - 1] == Command(client.value)
      ensures NoCommandSince(old(net.log), if ok then net.log[..|net.log| - 1] else net.log)
    {
      var c := Connect();
      if c.None? {
        return false;
      }
      ok := net.Attempt();
      if ok {
        Issue(c.value, Held());
      }
    }

    method Close() returns (failed: bool)
      requires Valid()
      modifies this, net`open, net`log, net`closeErrors, net`sessions
      ensures Valid() && done && client.None? && net.open == {} && net.sessions == {}
      // An error is reported exactly if some part of it, the SFTP session included, fails.
      ensures failed <==> net.closeErrors > old(net.closeErrors)
    {
      assert client.None? ==> Held() == jumpClients;
      done, failed := true, false;
      if sftp.Some? {
        failed := net.CloseSession(sftp.value);
        sftp := None;
      }
      if client.Some? {
        var cerr := CloseLast(jumpClients, client.value);
        failed, client := failed || cerr, None;
      }
      var jerr := CloseClients(jumpClients);
      failed, jumpClients := failed || jerr, [];
      assert Held() == [];
    }
  }

  // Every sequence of uses, with any step of any of them failing, and so the state after
  // each of them: the connections are owned, and the last use did what it is for unless
  // some step failed.
  datatype Use = Connecting | Running | Closing

  method UseExecutor(e: SSHExecutor, uses: seq<Use>)
    requires e.Valid()
    modifies e, e.net
    ensures e.Valid() && |e.net.open| <= e.jumps + 1 && Disciplined(e.net.log, e.agentSocket)
    ensures uses != [] ==> After(uses[|uses| - 1], e) || e.net.faults > old(e.net.faults)
    ensures uses != [] && uses[|uses| - 1].Closing? ==> e.client.None? && e.net.open == {}
  {
    for i := 0 to |uses|
      invariant e.Valid() && e.net.faults >= old(e.net.faults)
      invariant i > 0 ==> After(uses[i - 1], e) || e.net.faults > old(e.net.faults)
      invariant i > 0 && uses[i - 1].Closing? ==> e.client.None? && e.net.open == {}
    {
      match uses[i]
      case Connecting => var _ := e.Connect();
      case Running => var _ := e.RunCommand();
      case Closing => var _ := e.Close();
    }
    MembersSize(e.Held());
  }

  ghost predicate After(use: Use, e: SSHExecutor)
    reads e, e.net
  {
    match use
    case Connecting => e.client.Some? && Ready(e.client.value) in e.net.log
    case Running => e.client.Some? && e.net.log != [] && e.net.log[|e.net.log| - 1] == Command(e.client.value)
    case Closing => e.client.None? && e.net.open == {}
  }

  lemma {:induction false} MembersSize(cs: seq<Conn>)
    ensures |Members(cs)| <= |cs|
    decreases |cs|
  {
    if cs != [] {
      var init, last := cs[..|cs| - 1], cs[|cs| - 1];
      assert Members(cs) == Members(init) + {last};
      MembersSize(init);
    }
  }
}
