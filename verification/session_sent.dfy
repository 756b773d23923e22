/** What a player's client is sent, and what the proxy remembers of its servers, over whole runs of a session. */
module SessionSent {
  import opened Results
  import opened Session

  // ---------- what one step sends ----------

  /** Packets that neither begin the play phase nor come from a server. */
  predicate Courtesy(out: Out) {
    out.Disconnected? || out.Chat? || out.SetCompression? || out.EncryptionRequest?
  }

  /** `disconnect` speaks only to a client that is logging in or playing. */
  function Goodbye(s: State): (outs: seq<Out>)
    ensures forall out | out in outs :: Courtesy(out)
  {
    if s.phase == Login || s.phase == Playing then [Disconnected] else []
  }

  /** What a client hears when the next fallback is tried: nothing, unless there is none or it is there already. */
  function NextTold(s: State): (outs: seq<Out>)
    ensures forall out | out in outs :: Courtesy(out)
  {
    if s.queue == [] then Goodbye(s)
    else if s.Connected() && s.servers[s.current.value].name == s.queue[0] && s.phase != Closed then [Chat]
    else []
  }

  /** What a client hears when a server connection is closed, which forgets the target. */
  function LossTold(s: State): (outs: seq<Out>)
    ensures forall out | out in outs :: Courtesy(out)
  {
    if s.queue == [] then Goodbye(s) else []
  }

  function LoginTold(s: State): (outs: seq<Out>)
    ensures forall out | out in outs :: Courtesy(out)
  {
    if !IsSupportedVersion(s.version) then Goodbye(s) else [SetCompression] + NextTold(s)
  }

  /** Everything that a step sends to a client whose connection is open. */
  function Told(s: State, e: Event): seq<Out> {
    match e
    case ClientLogin(full, online) =>
      if s.phase != Login then [] else if full then [Disconnected] else if online then [EncryptionRequest] else LoginTold(s)
    case ClientVerified(ok) =>
      if s.phase != Login && s.phase != Playing then [] else if ok then LoginTold(s) else [Disconnected]
    case ClientInvalid => if s.phase == Login then [Disconnected] else []
    case ClientConnect(name) =>
      if s.phase != Playing then []
      else if s.Connected() && s.servers[s.current.value].name == name then [Chat, Chat]
      else [Chat]
    case SocketCreated(id, ok) =>
      if !s.Has(id, Handshaking) || s.servers[id].dialed || ok then []
      else if s.phase == Login then NextTold(s)
      else if !s.Connected() then Goodbye(s)
      else [Chat]
    case ServerRefused(id) =>
      if !s.Has(id, Login) then []
      else if s.phase != Login && s.Connected() then [Chat]
      else LossTold(s)
    case ServerAccepted(id) =>
      if !s.Has(id, Login) then []
      else
        (if s.Connected() && s.current.value != id then LossTold(s) else [])
        + (if s.phase == Login then [LoginSuccess] else if s.dimswitch then [] else [DimensionSwitch])
    case ServerJoin(id, join) =>
      if !s.Has(id, Playing) then [] else if s.playerId == -1 then [JoinGame(join)] else [Respawn(join)]
    case ServerKick(id) =>
      if !s.Has(id, Playing) then [] else if s.queue == [] then Goodbye(s) else [Chat]
    case ServerOther(id, packetId) => if s.Has(id, Playing) then [Forwarded(packetId)] else []
    case ServerBroken(id) =>
      if s.Has(id, Login) then LossTold(s) + LossTold(s)
      else if s.Has(id, Playing) then [Chat] + LossTold(s)
      else []
    case _ => []
  }

  lemma SendTells(s: State, out: Out)
    ensures Send(s, out) == s.(sent := s.sent + if s.phase == Closed then [] else [out])
  {
    assert s.sent + [] == s.sent;
    hide Marks;
  }

  lemma DisconnectTells(s: State)
    ensures Disconnect(s) == s.(closing := true, sent := s.sent + Goodbye(s))
  {
    SendTells(s, Disconnected);
    assert s.sent + [] == s.sent;
    hide Send, Marks;
  }

  lemma ConnectTells(s: State, name: string)
    ensures Connect(s, name).sent ==
      s.sent + if s.Connected() && s.servers[s.current.value].name == name && s.phase != Closed then [Chat] else []
  {
    SendTells(s, Chat);
    assert s.sent + [] == s.sent;
    hide Send, Marks;
  }

  lemma NextTells(s: State)
    ensures ConnectToNextFallback(s).sent == s.sent + NextTold(s)
  {
    DisconnectTells(s);
    if s.queue != [] {
      ConnectTells(s.(queue := s.queue[1..], tried := s.tried + [s.queue[0]]), s.queue[0]);
    }
    hide Connect, Disconnect, Marks;
  }

  lemma CloseTells(s: State, id: nat)
    requires id < |s.servers| && s.servers[id].phase != Closed
    ensures CloseServer(s, id).sent == s.sent + LossTold(s)
  {
    NextTells(SetServer(s, id, s.servers[id].(phase := Closed)).(current := None));
    hide ConnectToNextFallback, Marks;
  }

  lemma BreakTells(s: State, id: nat)
    requires s.phase != Closed && s.Reads(id)
    ensures BreakServer(s, id).sent == s.sent + if s.Has(id, Login) then LossTold(s) + LossTold(s) else [Chat] + LossTold(s)
  {
    hide CloseServer, Disconnect, Send, Marks;
    SendTells(s, Chat);
    DisconnectTells(s);
    var t := if s.servers[id].phase != Login then Send(s, Chat) else if s.queue == [] then Disconnect(s) else s;
    assert BreakServer(s, id) == CloseServer(t, id);
    CloseTells(t, id);
    if s.Has(id, Login) {
      assert s.queue != [] ==> s.sent + [] == s.sent;
      assert t.sent == s.sent + LossTold(s);
      assert s.sent + LossTold(s) + LossTold(s) == s.sent + (LossTold(s) + LossTold(s));
    } else {
      assert s.sent + [Chat] + LossTold(s) == s.sent + ([Chat] + LossTold(s));
    }
  }

  lemma LoggedInTells(s: State)
    requires s.phase != Closed
    ensures LoggedIn(s).sent == s.sent + LoginTold(s)
  {
    hide ConnectToNextFallback, Disconnect, Send, Marks;
    DisconnectTells(s);
    SendTells(s, SetCompression);
    NextTells(Send(s, SetCompression));
    assert NextTold(Send(s, SetCompression)) == NextTold(s);
    assert s.sent + [SetCompression] + NextTold(s) == s.sent + ([SetCompression] + NextTold(s));
  }

  lemma KickTells(s: State, id: nat)
    requires s.phase != Closed && s.Has(id, Playing)
    ensures Kicked(s, id).sent == s.sent + if s.queue == [] then Goodbye(s) else [Chat]
  {
    hide CloseServer, Send, Marks;
    SendTells(s, Chat);
    CloseTells(if s.queue == [] then s else Send(s, Chat), id);
    assert s.sent + [Chat] + [] == s.sent + [Chat];
  }

  lemma AcceptTells(config: seq<string>, s: State, id: nat)
    requires s.phase != Closed && s.Has(id, Login)
    ensures LoginAccepted(config, s, id).sent == s.sent + Told(s, ServerAccepted(id))
  {
    hide CloseServer, Send, Marks;
    var playing := SetServer(s, id, s.servers[id].(phase := Playing));
    var first := if s.Connected() && s.current.value != id then LossTold(s) else [];
    var alone := if playing.Connected() && s.current.value != id then CloseServer(playing, s.current.value) else playing;
    if playing.Connected() && s.current.value != id {
      CloseTells(playing, s.current.value);
    }
    assert alone.sent == s.sent + first && alone.phase == s.phase && alone.dimswitch == s.dimswitch;
    var switched := alone.(current := Some(id));
    SendTells(switched, LoginSuccess);
    SendTells(switched.(dimswitch := true), DimensionSwitch);
    var second := if s.phase == Login then [LoginSuccess] else if s.dimswitch then [] else [DimensionSwitch];
    assert s.sent + first + second == s.sent + (first + second);
    assert s.sent + first + [] == s.sent + first;
  }

  /** A step sends exactly what is listed, in this order; a closed connection is sent nothing. */
  lemma StepTells(config: seq<string>, s: State, e: Event)
    ensures Step(config, s, e).sent == s.sent + if s.phase == Closed then [] else Told(s, e)
  {
    if s.phase == Closed {
      ClosedIsSilent(config, s, e);
    } else {
      OpenTells(config, s, e);
    }
  }

  lemma OpenTells(config: seq<string>, s: State, e: Event)
    requires s.phase != Closed
    ensures Step(config, s, e).sent == s.sent + Told(s, e)
  {
    hide LoggedIn, Disconnect, Connect, ConnectToNextFallback, BreakServer, CloseServer, SocketFailed, LoginRefused,
         LoginAccepted, JoinedGame, Kicked, Send, Marks, Quiet, Extends, LoginTold, NextTold, LossTold;
    assert s.sent + [] == s.sent;
    DisconnectTells(s);
    match e
    case ClientLogin(_, _) => LoggedInTells(s); SendTells(s, EncryptionRequest);
    case ClientVerified(_) => LoggedInTells(s);
    case ClientConnect(name) =>
      SendTells(s, Chat);
      ConnectTells(Send(s, Chat), name);
      assert s.sent + [Chat] + [Chat] == s.sent + [Chat, Chat] && s.sent + [Chat] + [] == s.sent + [Chat];
    case SocketCreated(id, ok) =>
      if s.Has(id, Handshaking) {
        SocketTells(s, id);
      }
    case ServerRefused(_) => RefusalTells(s);
    case ServerAccepted(id) => if s.Has(id, Login) { AcceptTells(config, s, id); }
    case ServerJoin(id, join) =>
      if s.Has(id, Playing) { JoinTells(s, id, join); }
    case ServerKick(id) => if s.Has(id, Playing) { KickTells(s, id); }
    case ServerOther(_, packetId) => SendTells(s, Forwarded(packetId));
    case ServerBroken(id) => if s.Reads(id) { BreakTells(s, id); }
    case _ =>
  }

  lemma JoinTells(s: State, id: nat, join: Join)
    requires s.phase != Closed && id < |s.servers|
    ensures JoinedGame(s, id, join).sent == s.sent + if s.playerId == -1 then [JoinGame(join)] else [Respawn(join)]
  {
    var t := SetServer(s, id, s.servers[id].(entityId := join.entityId)).(dimswitch := false);
    SendTells(t.(playerId := join.entityId), JoinGame(join));
    SendTells(t, Respawn(join));
    hide Send, Marks;
  }

  lemma SocketTells(s: State, id: nat)
    requires s.phase != Closed && s.Has(id, Handshaking)
    ensures var t := SetServer(s, id, s.servers[id].(dialed := true, phase := Handshaking));
      SocketFailed(t).sent == s.sent + if s.phase == Login then NextTold(s) else if !s.Connected() then Goodbye(s) else [Chat]
  {
    var t := SetServer(s, id, s.servers[id].(dialed := true, phase := Handshaking));
    NextTells(t);
    DisconnectTells(t);
    SendTells(t, Chat);
    hide ConnectToNextFallback, Disconnect, Send, Marks;
    assert NextTold(t) == NextTold(s) && Goodbye(t) == Goodbye(s) && (t.Connected() <==> s.Connected());
  }

  lemma RefusalTells(s: State)
    requires s.phase != Closed
    ensures LoginRefused(s).sent == s.sent + if s.phase != Login && s.Connected() then [Chat] else LossTold(s)
  {
    DisconnectTells(s);
    SendTells(s, Chat);
    assert s.sent + [] == s.sent;
    hide Disconnect, Send, Marks;
  }

  lemma ClosedIsSilent(config: seq<string>, s: State, e: Event)
    requires s.phase == Closed
    ensures Step(config, s, e).sent == s.sent + []
  {
    assert s.sent + [] == s.sent;
    SilentParts(s);
    hide LoggedIn, Disconnect, Connect, ConnectToNextFallback, BreakServer, CloseServer, SocketFailed, LoginRefused,
         LoginAccepted, JoinedGame, Kicked, Send, Marks, Quiet, Extends;
    match e
    case SocketCreated(id, ok) =>
      if s.Has(id, Handshaking) {
        SilentParts(SetServer(s, id, s.servers[id].(dialed := true, phase := if ok then Login else Handshaking)));
      }
    case ServerAccepted(id) => if s.Has(id, Login) { SilentAccept(config, s, id); }
    case ServerJoin(id, join) => if s.Has(id, Playing) { SilentJoin(s, id, join); }
    case _ =>
  }

  lemma SilentAccept(config: seq<string>, s: State, id: nat)
    requires s.phase == Closed && id < |s.servers|
    ensures LoginAccepted(config, s, id).sent == s.sent
  {
    var playing := SetServer(s, id, s.servers[id].(phase := Playing));
    SilentParts(playing);
    hide CloseServer, Send, Marks, Quiet;
    var alone := if playing.Connected() && s.current.value != id then CloseServer(playing, s.current.value) else playing;
    SilentParts(alone.(current := Some(id), dimswitch := true));
  }

  lemma SilentJoin(s: State, id: nat, join: Join)
    requires s.phase == Closed && id < |s.servers|
    ensures JoinedGame(s, id, join).sent == s.sent
  {
    hide Marks;
  }

  /** None of a player's methods says anything once its connection is closed. */
  lemma SilentParts(s: State)
    requires s.phase == Closed
    ensures forall out :: Send(s, out) == s
    ensures LoggedIn(s).sent == s.sent && Disconnect(s).sent == s.sent
    ensures SocketFailed(s).sent == s.sent && LoginRefused(s).sent == s.sent
    ensures forall name :: Connect(s, name).sent == s.sent
    ensures forall id | 0 <= id < |s.servers| ::
      CloseServer(s, id).sent == s.sent && BreakServer(s, id).sent == s.sent && Kicked(s, id).sent == s.sent
      && CloseServer(s, id).phase == Closed
  {
    hide Marks, Quiet, Extends;
  }

  // ---------- over whole runs ----------

  /** The ids of the server packets in a log that were sent on as they came. */
  function ForwardedIds(sent: seq<Out>): seq<int> {
    if sent == [] then []
    else ForwardedIds(sent[..|sent| - 1]) + if sent[|sent| - 1].Forwarded? then [sent[|sent| - 1].id] else []
  }

  /** The ids of the other packets that came from a playing server while the client's connection was open. */
  function OtherPackets(config: seq<string>, s: State, events: seq<Event>): seq<int> {
    if events == [] then []
    else
      var init := events[..|events| - 1];
      OtherPackets(config, s, init) + OtherPacket(Run(config, s, init), events[|events| - 1])
  }

  function OtherPacket(s: State, e: Event): seq<int> {
    if e.ServerOther? && s.Has(e.id, Playing) && s.phase != Closed then [e.packetId] else []
  }

  lemma {:induction false} ForwardedConcat(a: seq<Out>, b: seq<Out>)
    ensures ForwardedIds(a + b) == ForwardedIds(a) + ForwardedIds(b)
  {
    if b == [] {
      assert a + b == a;
    } else {
      assert (a + b)[..|a + b| - 1] == a + b[..|b| - 1];
      ForwardedConcat(a, b[..|b| - 1]);
    }
  }

  lemma {:induction false} NothingForwarded(sent: seq<Out>)
    requires forall out | out in sent :: !out.Forwarded?
    ensures ForwardedIds(sent) == []
  {
    if sent != [] {
      NothingForwarded(sent[..|sent| - 1]);
    }
  }

  /** Only these three events send anything but courtesies. */
  lemma CourtesyOnly(s: State, e: Event)
    requires !e.ServerAccepted? && !e.ServerJoin? && !e.ServerOther?
    ensures forall out | out in Told(s, e) :: Courtesy(out)
  {
    hide Goodbye, NextTold, LossTold, LoginTold;
  }

  lemma ToldForwards(s: State, e: Event)
    ensures ForwardedIds(Told(s, e)) == if e.ServerOther? && s.Has(e.id, Playing) then [e.packetId] else []
  {
    if e.ServerOther? {
      if s.Has(e.id, Playing) {
        assert Told(s, e) == [Forwarded(e.packetId)] && [Forwarded(e.packetId)][..0] == [];
      }
    } else if !e.ServerAccepted? && !e.ServerJoin? {
      CourtesyOnly(s, e);
      NothingForwarded(Told(s, e));
    } else {
      hide Goodbye, NextTold, LossTold, LoginTold;
      assert forall out | out in Told(s, e) :: !out.Forwarded?;
      NothingForwarded(Told(s, e));
    }
  }

  /** A step forwards a packet exactly if it is one that a playing server has sent to an open client. */
  lemma StepForwards(config: seq<string>, s: State, e: Event)
    ensures ForwardedIds(Step(config, s, e).sent) == ForwardedIds(s.sent) + OtherPacket(s, e)
  {
    StepTells(config, s, e);
    ToldForwards(s, e);
    ForwardedConcat(s.sent, if s.phase == Closed then [] else Told(s, e));
    hide Step, Told;
  }

  /** Over every run, exactly the other packets of playing servers are forwarded to the open client, in their order. */
  lemma {:induction false} ForwardedOfRun(config: seq<string>, s: State, events: seq<Event>)
    ensures ForwardedIds(Run(config, s, events).sent) == ForwardedIds(s.sent) + OtherPackets(config, s, events)
  {
    if events != [] {
      var init := events[..|events| - 1];
      ForwardedOfRun(config, s, init);
      StepForwards(config, Run(config, s, init), events[|events| - 1]);
      hide Step;
    }
  }

  function Greetings(sent: seq<Out>): nat {
    if sent == [] then 0 else Greetings(sent[..|sent| - 1]) + if sent[|sent| - 1] == LoginSuccess then 1 else 0
  }

  lemma {:induction false} GreetingsConcat(a: seq<Out>, b: seq<Out>)
    ensures Greetings(a + b) == Greetings(a) + Greetings(b)
  {
    if b == [] {
      assert a + b == a;
    } else {
      assert (a + b)[..|a + b| - 1] == a + b[..|b| - 1];
      GreetingsConcat(a, b[..|b| - 1]);
    }
  }

  lemma {:induction false} NoGreeting(sent: seq<Out>)
    requires LoginSuccess !in sent
    ensures Greetings(sent) == 0
  {
    if sent != [] {
      NoGreeting(sent[..|sent| - 1]);
    }
  }

  lemma ToldGreets(s: State, e: Event)
    ensures Greetings(Told(s, e)) == if e.ServerAccepted? && s.Has(e.id, Login) && s.phase == Login then 1 else 0
  {
    if e.ServerAccepted? {
      if s.Has(e.id, Login) {
        var before := if s.Connected() && s.current.value != e.id then LossTold(s) else [];
        var after := if s.phase == Login then [LoginSuccess] else if s.dimswitch then [] else [DimensionSwitch];
        hide Goodbye, NextTold, LossTold, LoginTold;
        NoGreeting(before);
        assert after != [] ==> after[..0] == [];
        GreetingsConcat(before, after);
      }
    } else if !e.ServerJoin? && !e.ServerOther? {
      CourtesyOnly(s, e);
      NoGreeting(Told(s, e));
    } else {
      NoGreeting(Told(s, e));
    }
  }

  /** The one step that begins the play phase is the one that sends a Login Success. */
  lemma StepGreets(config: seq<string>, s: State, e: Event)
    ensures var t := Step(config, s, e);
      Greetings(t.sent) == Greetings(s.sent) + if s.phase != Playing && t.phase == Playing then 1 else 0
  {
    StepTells(config, s, e);
    ToldGreets(s, e);
    GreetingsConcat(s.sent, if s.phase == Closed then [] else Told(s, e));
    StepForward(config, s, e);
    if e.ServerAccepted? && s.Has(e.id, Login) && s.phase == Login {
      NowPlaying(config, s, e.id);
    } else {
      NotPlayingYet(config, s, e);
    }
    hide Step, Told;
  }

  lemma NowPlaying(config: seq<string>, s: State, id: nat)
    requires s.Has(id, Login) && s.phase == Login
    ensures Step(config, s, ServerAccepted(id)).phase == Playing
  {
    hide CloseServer, Send, Marks;
  }

  lemma NotPlayingYet(config: seq<string>, s: State, e: Event)
    requires !(e.ServerAccepted? && s.Has(e.id, Login) && s.phase == Login)
    ensures Step(config, s, e).phase == Playing ==> s.phase == Playing
  {
    hide LoggedIn, Disconnect, Connect, ConnectToNextFallback, BreakServer, CloseServer, SocketFailed, LoginRefused,
         Kicked, Send, Marks;
  }

  /** The client has been playing at some point of the run. */
  predicate HasPlayed(config: seq<string>, s: State, events: seq<Event>) {
    Run(config, s, events).phase == Playing || (events != [] && HasPlayed(config, s, events[..|events| - 1]))
  }

  /** A client that has played is playing or closed. */
  lemma {:induction false} PlayedIsLate(config: seq<string>, s: State, events: seq<Event>)
    requires HasPlayed(config, s, events)
    ensures Run(config, s, events).phase in {Playing, Closed}
  {
    if Run(config, s, events).phase != Playing {
      var init := events[..|events| - 1];
      PlayedIsLate(config, s, init);
      StepForward(config, Run(config, s, init), events[|events| - 1]);
      hide Step;
    }
  }

  /** Over every run a client is sent a Login Success once if it comes to play, and never otherwise. */
  lemma {:induction false} GreetedOnce(config: seq<string>, s: State, events: seq<Event>)
    requires Rank(s.phase) < Rank(Playing)
    ensures Greetings(Run(config, s, events).sent) == Greetings(s.sent) + if HasPlayed(config, s, events) then 1 else 0
  {
    if events != [] {
      var init, last := events[..|events| - 1], events[|events| - 1];
      var before := Run(config, s, init);
      GreetedOnce(config, s, init);
      StepGreets(config, before, last);
      StepForward(config, before, last);
      if HasPlayed(config, s, init) {
        PlayedIsLate(config, s, init);
      }
      hide Step, Greetings;
    }
  }

  /** The protocol version is the one of the last handshake; later ones are ignored. */
  function LastVersion(config: seq<string>, s: State, events: seq<Event>): int {
    if events == [] then s.version
    else
      var init, e := events[..|events| - 1], events[|events| - 1];
      if e.ClientHandshake? && Run(config, s, init).phase == Handshaking then e.version else LastVersion(config, s, init)
  }

  lemma StepVersion(config: seq<string>, s: State, e: Event)
    ensures Step(config, s, e).version == if e.ClientHandshake? && s.phase == Handshaking then e.version else s.version
    ensures e.ClientHandshake? && s.phase == Handshaking ==>
      Step(config, s, e).phase == if e.next == 1 then Status else if e.next == 2 then Login else Handshaking
  {
    hide LoggedIn, Disconnect, Connect, ConnectToNextFallback, BreakServer, CloseServer, SocketFailed, LoginRefused,
         Kicked, Send, Marks;
  }

  lemma {:induction false} VersionOfRun(config: seq<string>, s: State, events: seq<Event>)
    ensures Run(config, s, events).version == LastVersion(config, s, events)
  {
    if events != [] {
      var init := events[..|events| - 1];
      VersionOfRun(config, s, init);
      StepVersion(config, Run(config, s, init), events[|events| - 1]);
      hide Step;
    }
  }

  // ---------- the ids under which servers know the player ----------

  /** Known ids stay, and new connections have none. */
  predicate IdsKept(s: State, t: State) {
    && |s.servers| <= |t.servers|
    && forall id | 0 <= id < |t.servers| ::
      t.servers[id].entityId == if id < |s.servers| then s.servers[id].entityId else -1
  }

  lemma NextKeepsIds(s: State)
    ensures IdsKept(s, ConnectToNextFallback(s)) && IdsKept(s, Disconnect(s)) && IdsKept(s, LoggedIn(s))
    ensures IdsKept(s, SocketFailed(s)) && IdsKept(s, LoginRefused(s))
    ensures forall name :: IdsKept(s, Connect(s, name))
  {
    hide Marks, Quiet, Extends;
  }

  lemma CloseKeepsIds(s: State, id: nat)
    requires id < |s.servers|
    ensures IdsKept(s, CloseServer(s, id))
  {
    if s.servers[id].phase != Closed {
      var t := SetServer(s, id, s.servers[id].(phase := Closed)).(current := None);
      NextKeepsIds(t);
    }
    hide ConnectToNextFallback, Marks, Quiet;
  }

  lemma BreakKeepsIds(s: State, id: nat)
    requires id < |s.servers|
    ensures IdsKept(s, BreakServer(s, id)) && IdsKept(s, Kicked(s, id))
  {
    hide CloseServer, Disconnect, Send, Marks, Quiet;
    var refused := if s.queue == [] then Disconnect(s) else s;
    NextKeepsIds(s);
    CloseKeepsIds(s, id);
    CloseKeepsIds(refused, id);
    CloseKeepsIds(Send(s, Chat), id);
  }

  lemma AcceptKeepsIds(config: seq<string>, s: State, id: nat)
    requires id < |s.servers|
    ensures IdsKept(s, LoginAccepted(config, s, id))
  {
    hide CloseServer, Send, Marks, Quiet;
    var playing := SetServer(s, id, s.servers[id].(phase := Playing));
    if playing.Connected() {
      CloseKeepsIds(playing, s.current.value);
    }
  }

  /** A step changes an id only by a Join Game of a playing server. */
  lemma StepIds(config: seq<string>, s: State, e: Event)
    ensures var t := Step(config, s, e);
      && |s.servers| <= |t.servers|
      && forall id | 0 <= id < |t.servers| ::
        t.servers[id].entityId ==
          if e.ServerJoin? && e.id == id && s.Has(id, Playing) then e.join.entityId
          else if id < |s.servers| then s.servers[id].entityId else -1
  {
    hide LoggedIn, Disconnect, Connect, ConnectToNextFallback, BreakServer, CloseServer, SocketFailed, LoginRefused,
         LoginAccepted, Kicked, Send, Marks, Quiet, Extends;
    NextKeepsIds(s);
    match e
    case ClientConnect(name) => NextKeepsIds(Send(s, Chat));
    case SocketCreated(id, ok) =>
      if s.Has(id, Handshaking) {
        NextKeepsIds(SetServer(s, id, s.servers[id].(dialed := true, phase := if ok then Login else Handshaking)));
      }
    case ServerAccepted(id) => if s.Has(id, Login) { AcceptKeepsIds(config, s, id); }
    case ServerKick(id) => if s.Has(id, Playing) { BreakKeepsIds(s, id); }
    case ServerBroken(id) => if s.Reads(id) { BreakKeepsIds(s, id); }
    case _ =>
  }

  /** The entity id in the last Join Game of a connection, or -1 before the first one. */
  function JoinedAs(config: seq<string>, events: seq<Event>, id: nat): int {
    if events == [] then -1
    else
      var init, e := events[..|events| - 1], events[|events| - 1];
      if e.ServerJoin? && e.id == id && Run(config, Initial(config), init).Has(id, Playing) then e.join.entityId
      else JoinedAs(config, init, id)
  }

  /** Over every run each server connection knows the entity id of its own last Join Game. */
  lemma {:induction false} EntityIdsOfRun(config: seq<string>, events: seq<Event>, id: nat)
    ensures var t := Run(config, Initial(config), events);
      if id < |t.servers| then t.servers[id].entityId == JoinedAs(config, events, id) else JoinedAs(config, events, id) == -1
  {
    if events != [] {
      var init := events[..|events| - 1];
      EntityIdsOfRun(config, init, id);
      StepIds(config, Run(config, Initial(config), init), events[|events| - 1]);
      hide Step;
    }
  }
}
