/** What holds of a session over whole runs, and runs that reach the states where the handlers go wrong. */
module SessionLaws {
  import opened Results
  import opened Session

  // ---------- the end of the player's connection ----------

  /** The connection is closed, or a later closing is under way. */
  predicate Ending(s: State) {
    s.closing || s.phase == Closed
  }

  lemma StepKeepsEnding(config: seq<string>, s: State, e: Event)
    requires Ending(s)
    ensures Ending(Step(config, s, e))
    ensures e.CloseLater? ==> Step(config, s, e).phase == Closed
  {
    StepForward(config, s, e);
    hide LoggedIn, Disconnect, Connect, ConnectToNextFallback, BreakServer, CloseServer, SocketFailed, LoginRefused,
         Kicked, Marks, Forward;
    if s.closing && !e.CloseLater? { StepKeepsClosing(config, s, e); }
  }

  lemma StepKeepsClosing(config: seq<string>, s: State, e: Event)
    requires s.closing && !e.CloseLater?
    ensures Step(config, s, e).closing
  {
    hide LoggedIn, Disconnect, Connect, ConnectToNextFallback, BreakServer, CloseServer, SocketFailed, LoginRefused,
         Kicked, Marks;
  }

  lemma {:induction false} RunKeepsEnding(config: seq<string>, s: State, events: seq<Event>)
    requires Ending(s)
    ensures Ending(Run(config, s, events))
  {
    if events != [] {
      RunKeepsEnding(config, s, events[..|events| - 1]);
      StepKeepsEnding(config, Run(config, s, events[..|events| - 1]), events[|events| - 1]);
    }
  }

  /** A disconnected player's connection is closed by the timer, whatever happens before that. */
  lemma DisconnectCloses(config: seq<string>, s: State, events: seq<Event>)
    ensures Run(config, Disconnect(s), events + [CloseLater]).phase == Closed
    ensures Disconnect(s).sent == if s.phase == Login || s.phase == Playing then s.sent + [Disconnected] else s.sent
  {
    RunKeepsEnding(config, Disconnect(s), events);
    StepKeepsEnding(config, Run(config, Disconnect(s), events), CloseLater);
    assert (events + [CloseLater])[..|events|] == events;
  }

  /** A player's connection that breaks is closed at once, or by the timer if one is running. */
  lemma BrokenPlayerCloses(config: seq<string>, s: State, events: seq<Event>)
    ensures var t := CloseChannel(s);
            && t == s.(phase := t.phase)
            && (t.phase == Closed <==> !s.closing || s.phase == Closed)
            && Run(config, t, events + [CloseLater]).phase == Closed
  {
    RunKeepsEnding(config, CloseChannel(s), events);
    StepKeepsEnding(config, Run(config, CloseChannel(s), events), CloseLater);
    assert (events + [CloseLater])[..|events|] == events;
  }

  // ---------- dimension switches in the log ----------

  lemma {:induction false} LastMark(sent: seq<Out>) returns (k: nat)
    requires Marks(sent) != []
    ensures k < |sent| && Marked(sent[k]) && sent[k] == Marks(sent)[|Marks(sent)| - 1]
    ensures forall m | k < m < |sent| :: !Marked(sent[m])
  {
    var n := |sent| - 1;
    if Marked(sent[n]) {
      k := n;
    } else {
      k := LastMark(sent[..n]);
      assert forall m | k < m < n :: sent[m] == sent[..n][m];
    }
  }

  lemma {:induction false} MarkedIsMark(sent: seq<Out>, i: nat)
    requires i < |sent| && Marked(sent[i])
    ensures Marks(sent) != []
  {
    if i < |sent| - 1 { MarkedIsMark(sent[..|sent| - 1], i); }
  }

  lemma {:induction false} SpacedInLog(sent: seq<Out>, i: nat, j: nat)
    requires SwitchesSpaced(Marks(sent))
    requires i < j < |sent| && sent[i].DimensionSwitch? && sent[j].DimensionSwitch?
    ensures exists k | i < k < j :: sent[k].JoinGame? || sent[k].Respawn?
  {
    var n := |sent| - 1;
    var init := sent[..n];
    var (marks, before) := (Marks(sent), Marks(init));
    assert forall m | 0 <= m < |before| :: marks[m] == before[m];
    if j < n {
      SpacedInLog(init, i, j);
      var k :| i < k < j && (init[k].JoinGame? || init[k].Respawn?);
      assert sent[k] == init[k];
    } else {
      assert init[i] == sent[i];
      MarkedIsMark(init, i);
      var k := LastMark(init);
      assert marks == before + [sent[n]];
      assert marks[|before| - 1] == before[|before| - 1] && marks[|before|].DimensionSwitch?;
      assert !init[k].DimensionSwitch?;
      assert init[k] == sent[k];
    }
  }

  /** Over every run, between two dimension switches the client has been sent a Join Game or its Respawn. */
  lemma DimensionSwitchesAreSpaced(config: seq<string>, events: seq<Event>, i: nat, j: nat)
    requires var sent := Run(config, Initial(config), events).sent;
             i < j < |sent| && sent[i].DimensionSwitch? && sent[j].DimensionSwitch?
    ensures var sent := Run(config, Initial(config), events).sent;
            exists k | i < k < j :: sent[k].JoinGame? || sent[k].Respawn?
  {
    WorldsOfRun(config, events);
    SpacedInLog(Run(config, Initial(config), events).sent, i, j);
  }

  // ---------- the server connections ----------

  /** A connection is dialed at most once, and moves from handshaking over login and playing to closed. */
  predicate ServerForward(a: Server, b: Server) {
    && a.name == b.name
    && (a.dialed ==> b.dialed)
    && (a.phase == b.phase || b.phase == Closed
        || (a.phase == Handshaking && !a.dialed && b.phase == Login && b.dialed)
        || (a.phase == Login && b.phase == Playing))
    && (a.phase == Closed ==> b == a)
  }

  /** Each attempt has its connection. */
  predicate Named(s: State) {
    |s.attempts| == |s.servers| && forall i | 0 <= i < |s.servers| :: s.servers[i].name == s.attempts[i]
  }

  predicate ServersForward(s: State, t: State) {
    && |s.servers| <= |t.servers|
    && (forall i | 0 <= i < |s.servers| :: ServerForward(s.servers[i], t.servers[i]))
    && (Named(s) ==> Named(t))
  }

  lemma ConnectForward(s: State, name: string)
    ensures ServersForward(s, Connect(s, name))
  {
    hide Marks, Quiet, Extends;
  }

  lemma NextFallbackForward(s: State)
    ensures ServersForward(s, ConnectToNextFallback(s))
  {
    hide Marks, Quiet, Extends, Connect;
    if s.queue != [] {
      ConnectForward(s.(queue := s.queue[1..], tried := s.tried + [s.queue[0]]), s.queue[0]);
    }
  }

  lemma CloseServerForward(s: State, id: nat)
    requires id < |s.servers|
    ensures ServersForward(s, CloseServer(s, id))
  {
    hide Marks, Quiet, Extends, ConnectToNextFallback;
    if s.servers[id].phase != Closed {
      NextFallbackForward(SetServer(s, id, s.servers[id].(phase := Closed)).(current := None));
    }
  }

  lemma SameServers(s: State, t: State)
    requires t.servers == s.servers && t.attempts == s.attempts
    ensures ServersForward(s, t)
  {
  }

  lemma LoggedInForward(s: State)
    ensures ServersForward(s, LoggedIn(s)) && ServersForward(s, Disconnect(s))
  {
    hide Marks, Quiet, Extends, ConnectToNextFallback;
    NextFallbackForward(Send(s, SetCompression));
  }

  lemma SocketFailedForward(s: State)
    ensures ServersForward(s, SocketFailed(s)) && ServersForward(s, LoginRefused(s))
  {
    hide Marks, Quiet, Extends, ConnectToNextFallback;
    NextFallbackForward(s);
  }

  lemma BreakServerForward(s: State, id: nat)
    requires id < |s.servers|
    ensures ServersForward(s, BreakServer(s, id)) && ServersForward(s, Kicked(s, id))
  {
    hide Marks, Quiet, Extends, CloseServer;
    CloseServerForward(s, id);
    CloseServerForward(Disconnect(s), id);
    CloseServerForward(Send(s, Chat), id);
  }

  lemma ForwardTransitive(s: State, t: State, u: State)
    requires ServersForward(s, t) && ServersForward(t, u)
    requires forall i | 0 <= i < |s.servers| :: s.servers[i].phase == t.servers[i].phase
                                                || t.servers[i].phase == Playing || t.servers[i].phase == u.servers[i].phase
    ensures ServersForward(s, u)
  {
  }

  lemma LoginAcceptedForward(config: seq<string>, s: State, id: nat)
    requires s.Has(id, Login)
    ensures ServersForward(s, LoginAccepted(config, s, id))
  {
    hide Marks, Quiet, Extends, CloseServer;
    var playing := SetServer(s, id, s.servers[id].(phase := Playing));
    assert ServersForward(s, playing);
    if playing.Connected() && s.current.value != id {
      CloseServerForward(playing, s.current.value);
      ForwardTransitive(s, playing, CloseServer(playing, s.current.value));
    }
  }

  lemma SocketCreatedForward(config: seq<string>, s: State, id: nat, ok: bool)
    ensures ServersForward(s, Step(config, s, SocketCreated(id, ok)))
  {
    hide Marks, Quiet, SocketFailed;
    if s.Has(id, Handshaking) && !s.servers[id].dialed && !ok {
      SocketFailedForward(SetServer(s, id, s.servers[id].(dialed := true, phase := Handshaking)));
    }
  }

  lemma JoinedForward(s: State, id: nat, join: Join)
    requires s.Has(id, Playing)
    ensures ServersForward(s, JoinedGame(s, id, join))
  {
    hide Marks, Quiet;
  }

  lemma StepServersForward(config: seq<string>, s: State, e: Event)
    ensures ServersForward(s, Step(config, s, e))
  {
    hide Marks, Quiet, Extends, Connect, ConnectToNextFallback, CloseServer, BreakServer, Kicked, LoginAccepted, LoggedIn,
         Disconnect, SocketFailed, LoginRefused, JoinedGame, ServersForward, Named;
    SameServers(s, s);
    match e
    case ClientHandshake(_, _) => SameServers(s, Step(config, s, e));
    case ClientLogin(_, _) => LoggedInForward(s); SameServers(s, Send(s, EncryptionRequest));
    case ClientVerified(_) => LoggedInForward(s);
    case ClientInvalid => LoggedInForward(s);
    case ClientConnect(name) =>
      SameServers(s, Send(s, Chat));
      ConnectForward(Send(s, Chat), name);
      SentForward(s, Chat, Connect(Send(s, Chat), name));
    case PlayerBroken => SameServers(s, Step(config, s, e));
    case CloseLater => SameServers(s, Step(config, s, e));
    case SocketCreated(id, ok) => SocketCreatedForward(config, s, id, ok);
    case ServerRefused(_) => SocketFailedForward(s);
    case ServerAccepted(id) => if s.Has(id, Login) { LoginAcceptedForward(config, s, id); }
    case ServerJoin(id, join) => if s.Has(id, Playing) { JoinedForward(s, id, join); }
    case ServerKick(id) => if s.Has(id, Playing) { BreakServerForward(s, id); }
    case ServerOther(id, packetId) => SameServers(s, Send(s, Forwarded(packetId)));
    case ServerBroken(id) => if id < |s.servers| { BreakServerForward(s, id); }
  }

  lemma SentForward(s: State, out: Out, t: State)
    requires ServersForward(Send(s, out), t)
    ensures ServersForward(s, t)
  {
    hide Marks, Quiet;
  }

  /** What a run has done to a connection, its steps forgotten. */
  predicate Progress(a: Server, b: Server) {
    && a.name == b.name
    && (a.dialed ==> b.dialed)
    && ServerRank(a) <= ServerRank(b)
    && (a.phase == Closed ==> b == a)
  }

  function ServerRank(a: Server): nat {
    Rank(a.phase)
  }

  /**
   Over every run each attempt has its connection, and a connection keeps its name, never goes back,
   is dialed once, and once closed stays as it is.
   */
  lemma {:induction false} RunServers(config: seq<string>, s: State, events: seq<Event>)
    ensures var t := Run(config, s, events);
            && |s.servers| <= |t.servers|
            && (forall i | 0 <= i < |s.servers| :: Progress(s.servers[i], t.servers[i]))
            && (Named(s) ==> Named(t))
  {
    if events != [] {
      var init := events[..|events| - 1];
      RunServers(config, s, init);
      StepServersForward(config, Run(config, s, init), events[|events| - 1]);
    }
  }

  /** Every attempt of a fresh session is the name of one connection, in order. */
  lemma AttemptsAreServers(config: seq<string>, events: seq<Event>)
    ensures Named(Run(config, Initial(config), events))
  {
    RunServers(config, Initial(config), events);
  }

  /** Whatever happens after a connection has been dialed, dialing it again does nothing. */
  lemma DialedOnce(config: seq<string>, s: State, id: nat, ok: bool, events: seq<Event>, again: bool)
    requires id < |s.servers|
    ensures var t := Run(config, Step(config, s, SocketCreated(id, ok)), events);
            Step(config, t, SocketCreated(id, again)) == t
  {
    var u := Step(config, s, SocketCreated(id, ok));
    DialedOrBeyond(config, s, id, ok);
    RunServers(config, u, events);
  }

  lemma DialedOrBeyond(config: seq<string>, s: State, id: nat, ok: bool)
    requires id < |s.servers|
    ensures var u := Step(config, s, SocketCreated(id, ok));
            id < |u.servers| && (u.servers[id].dialed || u.servers[id].phase != Handshaking)
  {
    hide Marks, Quiet, SocketFailed;
  }

  /** The events of a server connection. */
  predicate Concerns(e: Event, id: nat) {
    match e
    case SocketCreated(i, _) => i == id
    case ServerRefused(i) => i == id
    case ServerAccepted(i) => i == id
    case ServerJoin(i, _) => i == id
    case ServerKick(i) => i == id
    case ServerOther(i, _) => i == id
    case ServerBroken(i) => i == id
    case _ => false
  }

  /** A server connection is lost once: from then on nothing that comes from it has any effect. */
  lemma LostOnce(config: seq<string>, s: State, id: nat, events: seq<Event>, e: Event)
    requires (s.Reads(id) || s.Has(id, Closed)) && Concerns(e, id)
    ensures var t := Run(config, Step(config, s, ServerBroken(id)), events);
            id < |t.servers| && t.servers[id].phase == Closed && Step(config, t, e) == t
  {
    var u := Step(config, s, ServerBroken(id));
    BreakLoses(config, s, id);
    RunServers(config, u, events);
    ClosedIsSilent(config, Run(config, u, events), id, e);
  }

  lemma BreakLoses(config: seq<string>, s: State, id: nat)
    requires s.Reads(id) || s.Has(id, Closed)
    ensures var u := Step(config, s, ServerBroken(id)); id < |u.servers| && u.servers[id].phase == Closed
  {
    hide BreakServer;
    BrokenIsClosed(s, id);
  }

  lemma ClosedIsSilent(config: seq<string>, t: State, id: nat, e: Event)
    requires t.Has(id, Closed) && Concerns(e, id)
    ensures Step(config, t, e) == t
  {
    hide CloseServer, SocketFailed, LoginRefused, LoginAccepted, Kicked, BreakServer, JoinedGame, Send;
  }

  lemma BrokenIsClosed(s: State, id: nat)
    requires id < |s.servers|
    ensures var t := BreakServer(s, id); id < |t.servers| && t.servers[id].phase == Closed
  {
    hide Marks, Quiet, ConnectToNextFallback;
  }

  // ---------- refusals and kicks ----------

  /** They differ at most in what the player has been sent and in its closing. */
  predicate SameButTold(s: State, t: State) {
    t == s.(sent := t.sent, closing := t.closing)
  }

  lemma NextFallbackTold(s: State, t: State)
    requires SameButTold(s, t) && s.current == None
    ensures SameButTold(ConnectToNextFallback(s), ConnectToNextFallback(t))
  {
    hide Marks, Quiet, Extends;
  }

  lemma CloseTold(s: State, t: State, id: nat)
    requires SameButTold(s, t) && id < |s.servers|
    ensures SameButTold(CloseServer(s, id), CloseServer(t, id))
  {
    hide Marks, Quiet, Extends, ConnectToNextFallback;
    if s.servers[id].phase != Closed {
      var closed := s.servers[id].(phase := Closed);
      NextFallbackTold(SetServer(s, id, closed).(current := None), SetServer(t, id, closed).(current := None));
    }
  }

  lemma BreakTold(s: State, t: State, id: nat)
    requires SameButTold(s, t) && id < |s.servers|
    ensures SameButTold(BreakServer(s, id), BreakServer(t, id))
  {
    hide Marks, Quiet, Extends, CloseServer;
    CloseTold(s, t, id);
    CloseTold(Disconnect(s), Disconnect(t), id);
    CloseTold(Send(s, Chat), Send(t, Chat), id);
  }

  lemma RefusedTold(s: State)
    ensures SameButTold(s, LoginRefused(s))
    ensures LoginRefused(s).closing && !s.closing ==> s.queue == []
  {
    hide Marks, Quiet, Extends;
  }

  /** A refusal dials nothing: the loss of the connection that follows does, and just as it would without it. */
  lemma RefusalDialsNothing(config: seq<string>, s: State, id: nat)
    ensures var t := Step(config, s, ServerRefused(id));
            && SameButTold(s, t)
            && SameButTold(Step(config, s, ServerBroken(id)), Step(config, t, ServerBroken(id)))
            && (t.closing && !s.closing ==> s.queue == [])
  {
    RefusedTold(s);
    hide BreakServer, LoginRefused;
    if id < |s.servers| { BreakTold(s, Step(config, s, ServerRefused(id)), id); }
  }

  /** A kick is the loss of the connection, except that a player without a fallback is told nothing first. */
  lemma KickIsLoss(config: seq<string>, s: State, id: nat)
    requires s.Has(id, Playing)
    ensures var (t, u) := (Step(config, s, ServerKick(id)), Step(config, s, ServerBroken(id)));
            && (s.queue != [] ==> t == u)
            && t.(sent := []) == u.(sent := [])
            && t.servers[id].phase == Closed
  {
    hide Marks, Quiet, Extends;
  }

  // ---------- one server at a time ----------

  predicate SoleThroughout(config: seq<string>, s: State, events: seq<Event>)
    decreases events
  {
    SoleServer(Run(config, s, events)) && (events != [] ==> SoleThroughout(config, s, events[..|events| - 1]))
  }

  predicate WithoutOrphans(config: seq<string>, s: State, events: seq<Event>)
    decreases events
  {
    events != [] ==>
      var init := events[..|events| - 1];
      !Orphans(Run(config, s, init), events[|events| - 1]) && WithoutOrphans(config, s, init)
  }

  /** A client plays on one server only, all through a run, if and only if no other connection ends beside its open target. */
  lemma {:induction false} RunSoleServer(config: seq<string>, s: State, events: seq<Event>)
    requires SoleServer(s)
    ensures SoleThroughout(config, s, events) <==> WithoutOrphans(config, s, events)
    decreases events
  {
    hide Step, SoleServer, Orphans;
    if events != [] {
      var init := events[..|events| - 1];
      RunSoleServer(config, s, init);
      if SoleThroughout(config, s, init) { SoleAtEnd(config, s, init); }
      if SoleThroughout(config, s, init) {
        StepSoleServer(config, Run(config, s, init), events[|events| - 1]);
      }
    }
  }

  lemma SoleAtEnd(config: seq<string>, s: State, events: seq<Event>)
    requires SoleThroughout(config, s, events)
    ensures SoleServer(Run(config, s, events))
  {
  }

  // ---------- runs that go wrong ----------

  /** A player of version 47 on the one configured server "a" who asks for the server "b". */
  const PLAYING_ON_A: seq<Event> :=
    [ClientHandshake(47, 2), ClientLogin(false, false), SocketCreated(0, true)]
    + [ServerAccepted(0), ClientConnect("b")]

  function PlayingOnA(): State {
    State(Playing, 47, -1, false, ["a"], Some(0),
          [Server("a", Playing, true, -1), Server("b", Handshaking, false, -1)],
          false, [SetCompression, LoginSuccess, Chat], ["a", "b"], [])
  }

  lemma PlayingOnAIsReached()
    ensures Run(["a"], Initial(["a"]), PLAYING_ON_A) == PlayingOnA()
  {
    var config := ["a"];
    var s0 := Initial(config);
    var s1 := s0.(version := 47, phase := Login);
    var s2 := s1.(sent := [SetCompression], queue := [], tried := ["a"], attempts := ["a"],
                  servers := [Server("a", Handshaking, false, -1)]);
    var s3 := s2.(servers := [Server("a", Login, true, -1)]);
    var s4 := s3.(servers := [Server("a", Playing, true, -1)], current := Some(0), phase := Playing,
                  sent := [SetCompression, LoginSuccess], queue := config, tried := []);
    Begin(s1, s2, s3);
    Accept(s3, s4);
    RunOfFew(config, s0, ClientHandshake(47, 2), ClientLogin(false, false), SocketCreated(0, true));
    RunOfFew(config, s3, ServerAccepted(0), ClientConnect("b"), CloseLater);
    RunConcat(config, s0, [ClientHandshake(47, 2), ClientLogin(false, false), SocketCreated(0, true)],
              [ServerAccepted(0), ClientConnect("b")]);
    AskForB(s4);
  }

  lemma Begin(s1: State, s2: State, s3: State)
    requires s1 == Initial(["a"]).(version := 47, phase := Login)
    requires s2 == s1.(sent := [SetCompression], queue := [], tried := ["a"], attempts := ["a"],
                       servers := [Server("a", Handshaking, false, -1)])
    requires s3 == s2.(servers := [Server("a", Login, true, -1)])
    ensures Step(["a"], Initial(["a"]), ClientHandshake(47, 2)) == s1
    ensures Step(["a"], s1, ClientLogin(false, false)) == s2
    ensures Step(["a"], s2, SocketCreated(0, true)) == s3
  {
    hide Marks, Quiet, Extends;
  }

  lemma Accept(s3: State, s4: State)
    requires s3.servers == [Server("a", Login, true, -1)] && s3.phase == Login && s3.current == None
    requires s3.sent == [SetCompression]
    requires s4 == s3.(servers := [Server("a", Playing, true, -1)], current := Some(0), phase := Playing,
                       sent := [SetCompression, LoginSuccess], queue := ["a"], tried := [])
    ensures Step(["a"], s3, ServerAccepted(0)) == s4
  {
    hide Marks, Quiet, Extends;
  }

  lemma AskForB(s4: State)
    requires s4 == PlayingOnA().(servers := [Server("a", Playing, true, -1)], sent := [SetCompression, LoginSuccess],
                                 attempts := ["a"])
    ensures Step(["a"], s4, ClientConnect("b")) == PlayingOnA()
  {
    hide Marks, Quiet, Extends;
    assert "a" != "b";
  }

  /** The socket to "b" is open, and the login there has begun. */
  const DIALING_B: seq<Event> := PLAYING_ON_A + [SocketCreated(1, true)]

  function DialingB(): State {
    PlayingOnA().(servers := [Server("a", Playing, true, -1), Server("b", Login, true, -1)])
  }

  lemma DialingBIsReached()
    ensures Run(["a"], Initial(["a"]), DIALING_B) == DialingB()
  {
    PlayingOnAIsReached();
    assert DIALING_B[..|PLAYING_ON_A|] == PLAYING_ON_A;
    hide Marks, Quiet, Extends;
    assert Step(["a"], PlayingOnA(), SocketCreated(1, true)) == DialingB();
  }

  /** If the connection to "b" fails, the open target "a" is forgotten, and dialed again while it still plays. */
  lemma OrphanIsReached()
    ensures var s := Run(["a"], Initial(["a"]), DIALING_B);
            var t := Step(["a"], s, ServerBroken(1));
            && SoleServer(s) && Orphans(s, ServerBroken(1)) && !SoleServer(t)
            && t.current == None && t.Has(0, Playing) && t.attempts == ["a", "b", "a"]
  {
    DialingBIsReached();
    hide Marks, Quiet, Extends, Run;
    var s := DialingB();
    var t := Step(["a"], s, ServerBroken(1));
    assert SoleServer(s);
    assert t.servers[0].phase == Playing;
  }

  /** If it succeeds, "b" is the target, and "a", closed for its sake, is dialed again at once. */
  lemma SwitchBackIsReached()
    ensures var s := Run(["a"], Initial(["a"]), DIALING_B);
            var t := Step(["a"], s, ServerAccepted(1));
            && s.Connected() && t.current == Some(1) && t.attempts == ["a", "b", "a"]
  {
    DialingBIsReached();
    hide Marks, Quiet, Extends, Run;
    SwitchDialsFallback(["a"], DialingB(), 1);
  }

  // ---------- servers that fail a client during its login ----------

  /** The event asks for the next server: a finished login, or a connection that fails or ends. */
  predicate Demands(s: State, e: Event) {
    match e
    case ClientLogin(full, online) => s.phase == Login && !full && !online && IsSupportedVersion(s.version)
    case ClientVerified(ok) => s.phase != Handshaking && s.phase != Status && ok && IsSupportedVersion(s.version)
    case SocketCreated(id, ok) => s.Has(id, Handshaking) && !s.servers[id].dialed && !ok
    case ServerKick(id) => s.Has(id, Playing)
    case ServerBroken(id) => s.Reads(id)
    case _ => false
  }

  /** The event disconnects a client that is logging in: its own fault, or a refusal by the last server. */
  predicate Dismisses(s: State, e: Event) {
    match e
    case ClientLogin(full, online) => full || (!online && !IsSupportedVersion(s.version))
    case ClientVerified(ok) => !ok || !IsSupportedVersion(s.version)
    case ClientInvalid => true
    case ServerRefused(id) => s.Has(id, Login) && s.queue == []
    case _ => false
  }

  /** One entry of the queue has been dialed if one was asked for and there, and nothing else. */
  predicate Advanced(s: State, t: State, demanded: bool, dismissed: bool) {
    && t.current == None
    && (if demanded && s.queue != [] then t.queue == s.queue[1..] && t.attempts == s.attempts + [s.queue[0]]
        else t.queue == s.queue && t.attempts == s.attempts)
    && (t.closing <==> s.closing || (demanded && s.queue == []) || dismissed)
  }

  lemma StepInLogin(config: seq<string>, s: State, e: Event)
    requires s.phase == Login && s.current == None && Step(config, s, e).phase == Login
    ensures Advanced(s, Step(config, s, e), Demands(s, e), Dismisses(s, e))
  {
    hide Marks, Quiet, Extends, LoginAccepted, BreakServer, Kicked, LoggedIn, Disconnect, SocketFailed, LoginRefused,
         JoinedGame, Connect;
    match e
    case ClientLogin(_, _) => LoggedInLogin(s);
    case ClientVerified(_) => LoggedInLogin(s);
    case ClientInvalid => LoggedInLogin(s);
    case SocketCreated(id, ok) =>
      if s.Has(id, Handshaking) && !s.servers[id].dialed {
        SocketFailedInLogin(SetServer(s, id, s.servers[id].(dialed := true, phase := Handshaking)));
      }
    case ServerRefused(_) => RefusedInLogin(s);
    case ServerAccepted(id) => if s.Has(id, Login) { AcceptedLeavesLogin(config, s, id); }
    case ServerBroken(id) => if id < |s.servers| { BrokenInLogin(s, id); }
    case ServerKick(id) => if s.Has(id, Playing) { KickedInLogin(s, id); }
    case ServerJoin(id, join) => if s.Has(id, Playing) { JoinedInLogin(s, id, join); }
    case _ =>
  }

  lemma JoinedInLogin(s: State, id: nat, join: Join)
    requires s.current == None && s.Has(id, Playing)
    ensures Advanced(s, JoinedGame(s, id, join), false, false)
  {
    hide Marks, Quiet;
  }

  lemma LoggedInLogin(s: State)
    requires s.phase == Login && s.current == None
    ensures Advanced(s, LoggedIn(s), IsSupportedVersion(s.version), !IsSupportedVersion(s.version))
    ensures Advanced(s, Disconnect(s), false, true)
  {
    hide Marks, Quiet, Extends, IsSupportedVersion;
  }

  lemma SocketFailedInLogin(s: State)
    requires s.phase == Login && s.current == None
    ensures Advanced(s, SocketFailed(s), true, false)
  {
    hide Marks, Quiet, Extends;
  }

  lemma RefusedInLogin(s: State)
    requires s.phase == Login && s.current == None
    ensures Advanced(s, LoginRefused(s), false, s.queue == [])
  {
    hide Marks, Quiet, Extends;
  }

  lemma AcceptedLeavesLogin(config: seq<string>, s: State, id: nat)
    requires s.phase == Login && s.current == None && id < |s.servers|
    ensures LoginAccepted(config, s, id).phase == Playing
  {
    hide Marks, Quiet, Extends;
  }

  lemma BrokenInLogin(s: State, id: nat)
    requires s.phase == Login && s.current == None && id < |s.servers|
    ensures Advanced(s, BreakServer(s, id), s.servers[id].phase != Closed, false)
  {
    hide Marks, Quiet, Extends;
  }

  lemma KickedInLogin(s: State, id: nat)
    requires s.phase == Login && s.current == None && s.Has(id, Playing)
    ensures Advanced(s, Kicked(s, id), true, false)
  {
    hide Marks, Quiet, Extends;
  }

  /** How often a run has asked for the next server. */
  function Demanded(config: seq<string>, s: State, events: seq<Event>): nat {
    if events == [] then 0
    else
      var init := events[..|events| - 1];
      Demanded(config, s, init) + if Demands(Run(config, s, init), events[|events| - 1]) then 1 else 0
  }

  predicate Dismissed(config: seq<string>, s: State, events: seq<Event>)
    decreases events
  {
    events != [] &&
    var init := events[..|events| - 1];
    (Dismissed(config, s, init) || Dismisses(Run(config, s, init), events[|events| - 1]))
  }

  /** The client is logging in all the time. */
  predicate StaysInLogin(config: seq<string>, s: State, events: seq<Event>)
    decreases events
  {
    Run(config, s, events).phase == Login && (events != [] ==> StaysInLogin(config, s, events[..|events| - 1]))
  }

  /** n servers have been asked for, of those that were queued. */
  predicate UsedUp(s: State, n: nat, t: State) {
    var k := if n <= |s.queue| then n else |s.queue|;
    t.queue == s.queue[k..] && t.attempts == s.attempts + s.queue[..k]
  }

  /** Where a login that has asked for n servers stands. */
  predicate Standing(s: State, n: nat, dismissed: bool, t: State) {
    t.current == None && UsedUp(s, n, t) && (t.closing <==> n > |s.queue| || dismissed)
  }

  lemma StandingStep(s: State, n: nat, dismissed: bool, t: State, u: State, demands: bool, dismisses: bool)
    requires Standing(s, n, dismissed, t) && Advanced(t, u, demands, dismisses)
    ensures Standing(s, if demands then n + 1 else n, dismissed || dismisses, u)
  {
    assert t.queue == [] <==> n >= |s.queue|;
    if demands && n < |s.queue| {
      assert s.queue[n..][1..] == s.queue[n + 1..];
      assert s.queue[..n] + [s.queue[n]] == s.queue[..n + 1];
    }
  }

  /**
   Over any run in which a client keeps logging in, offline or online, with whatever events between
   the failures of its servers: they are tried in configured order, one for each time that the next
   one is asked for, and the client is disconnected exactly if one more is asked for than there are,
   or if it is dismissed for a reason of its own or by the last server.
   */
  lemma {:induction false} AllFallbacksFail(config: seq<string>, s: State, events: seq<Event>)
    requires s.current == None && !s.closing && StaysInLogin(config, s, events)
    ensures Standing(s, Demanded(config, s, events), Dismissed(config, s, events), Run(config, s, events))
    decreases events
  {
    hide Step, Demands, Dismisses, UsedUp, Advanced, Standing;
    if events == [] {
      NothingUsedUp(s);
    } else {
      var init, e := events[..|events| - 1], events[|events| - 1];
      var t := Run(config, s, init);
      AllFallbacksFail(config, s, init);
      LoginAtEnd(config, s, init);
      StandsAlone(s, Demanded(config, s, init), Dismissed(config, s, init), t);
      StepInLogin(config, t, e);
      StandingStep(s, Demanded(config, s, init), Dismissed(config, s, init), t, Step(config, t, e),
                   Demands(t, e), Dismisses(t, e));
    }
  }

  lemma NothingUsedUp(s: State)
    requires s.current == None && !s.closing
    ensures Standing(s, 0, false, s)
  {
    assert s.queue[0..] == s.queue && s.attempts + s.queue[..0] == s.attempts;
  }

  lemma StandsAlone(s: State, n: nat, dismissed: bool, t: State)
    requires Standing(s, n, dismissed, t)
    ensures t.current == None
  {
  }

  lemma LoginAtEnd(config: seq<string>, s: State, events: seq<Event>)
    requires StaysInLogin(config, s, events)
    ensures Run(config, s, events).phase == Login
  {
  }
}
