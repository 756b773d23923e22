/** Which servers a step dials, what it leaves in the fallback queue, and when it begins to close the player. */
module SessionDials {
  import opened Results
  import opened Session

  /** What trying the next fallback, or losing or asking for a server, does. */
  datatype Course = Nothing | NextFallback | Dial(name: string) | Leave

  /** The course of an attempt to go to the next fallback: without one the player leaves. */
  function Next(s: State): Course {
    if s.queue == [] then Leave else NextFallback
  }

  /** A step that moves the player on, in whatever phase it is. */
  function Move(s: State, e: Event): Course {
    match e
    case ClientLogin(full, online) =>
      if s.phase != Login then Nothing
      else if full then Leave
      else if online then Nothing
      else if IsSupportedVersion(s.version) then Next(s)
      else Leave
    case ClientVerified(ok) =>
      if s.phase == Handshaking || s.phase == Status then Nothing
      else if ok && IsSupportedVersion(s.version) then Next(s)
      else Leave
    case ClientInvalid => if s.phase == Login then Leave else Nothing
    case ClientConnect(name) => if s.phase == Playing then Dial(name) else Nothing
    case SocketCreated(id, ok) =>
      if !s.Has(id, Handshaking) || s.servers[id].dialed || ok then Nothing
      else if s.phase == Login then Next(s)
      else if s.Connected() then Nothing
      else Leave
    case ServerRefused(id) =>
      if s.Has(id, Login) && s.queue == [] && (s.phase == Login || !s.Connected()) then Leave else Nothing
    case ServerAccepted(id) =>
      if s.Has(id, Login) && s.Connected() && s.current.value != id then Next(s) else Nothing
    case ServerKick(id) => if s.Has(id, Playing) then Next(s) else Nothing
    case ServerBroken(id) => if s.Reads(id) then Next(s) else Nothing
    case _ => Nothing
  }

  /** The step forgets the target before it dials. */
  predicate Forgets(e: Event) {
    e.ServerAccepted? || e.ServerKick? || e.ServerBroken?
  }

  /** The server is dialed, unless the client is on it already. */
  function Dialed(s: State, name: string, forgets: bool): seq<string> {
    if !forgets && s.Connected() && s.servers[s.current.value].name == name then [] else [name]
  }

  /** Attempts, queue and closing after a step, but for the reset of the queue. */
  predicate Went(s: State, course: Course, forgets: bool, t: State) {
    match course
    case Nothing => t.attempts == s.attempts && t.queue == s.queue && t.tried == s.tried && t.closing == s.closing
    case NextFallback =>
      && s.queue != []
      && t.attempts == s.attempts + Dialed(s, s.queue[0], forgets)
      && t.queue == s.queue[1..] && t.tried == s.tried + [s.queue[0]] && t.closing == s.closing
    case Dial(name) =>
      && t.attempts == s.attempts + Dialed(s, name, forgets)
      && t.queue == s.queue && t.tried == s.tried && t.closing == s.closing
    case Leave => t.attempts == s.attempts && t.queue == s.queue && t.tried == s.tried && t.closing
  }

  lemma SendWent(s: State, out: Out)
    ensures Went(s, Nothing, false, Send(s, out))
  {
    hide Marks;
  }

  lemma DisconnectWent(s: State)
    ensures Went(s, Leave, false, Disconnect(s))
  {
    hide Marks, Marked;
  }

  lemma ConnectWent(s: State, name: string)
    ensures Went(s, Dial(name), false, Connect(s, name))
  {
    assert s.attempts + [] == s.attempts;
    hide Marks, Quiet, Extends;
  }

  lemma NextWent(s: State)
    ensures Went(s, Next(s), false, ConnectToNextFallback(s))
  {
    DisconnectWent(s);
    if s.queue != [] {
      ConnectWent(s.(queue := s.queue[1..], tried := s.tried + [s.queue[0]]), s.queue[0]);
    }
    hide Marks, Quiet, Extends, Disconnect, Connect;
  }

  lemma CloseWent(s: State, id: nat)
    requires id < |s.servers| && s.servers[id].phase != Closed
    ensures Went(s, Next(s), true, CloseServer(s, id))
  {
    var t := SetServer(s, id, s.servers[id].(phase := Closed)).(current := None);
    NextWent(t);
    hide Marks, Quiet, Extends, ConnectToNextFallback;
  }

  lemma BreakWent(s: State, id: nat)
    requires s.Reads(id)
    ensures Went(s, Next(s), true, BreakServer(s, id))
  {
    var t := if s.servers[id].phase != Login then Send(s, Chat) else if s.queue == [] then Disconnect(s) else s;
    SendWent(s, Chat);
    DisconnectWent(s);
    assert BreakServer(s, id) == CloseServer(t, id);
    CloseWent(t, id);
    hide Marks, Quiet, Extends, Send, Disconnect, CloseServer;
  }

  lemma KickWent(s: State, id: nat)
    requires s.Has(id, Playing)
    ensures Went(s, Next(s), true, Kicked(s, id))
  {
    var t := if s.queue == [] then s else Send(s, Chat);
    CloseWent(t, id);
    hide Marks, Quiet, Extends, CloseServer;
  }

  lemma LoggedInWent(s: State)
    ensures Went(s, if IsSupportedVersion(s.version) then Next(s) else Leave, false, LoggedIn(s))
  {
    DisconnectWent(s);
    NextWent(Send(s, SetCompression));
    hide Marks, Quiet, Extends, Disconnect, ConnectToNextFallback;
  }

  /** Once a server has accepted the player, the queue is full again. */
  lemma AcceptWent(config: seq<string>, s: State, id: nat)
    requires s.Has(id, Login)
    ensures var t := LoginAccepted(config, s, id);
      && t.queue == config && t.tried == [] && t.current == Some(id)
      && (if s.Connected() && s.current.value != id then
            if s.queue == [] then t.attempts == s.attempts && t.closing
            else t.attempts == s.attempts + [s.queue[0]] && t.closing == s.closing
          else t.attempts == s.attempts && t.closing == s.closing)
  {
    var playing := SetServer(s, id, s.servers[id].(phase := Playing));
    if playing.Connected() && s.current.value != id {
      CloseWent(playing, s.current.value);
    }
    hide Marks, Quiet, Extends, CloseServer;
  }

  /**
   What every step, in every phase, does to the attempts, the fallback queue and the closing of the
   player: only a server that accepts the player fills the queue again, and only the timer that closes
   the connection ends the closing.
   */
  lemma StepDials(config: seq<string>, s: State, e: Event)
    requires !(e.ServerAccepted? && s.Has(e.id, Login)) && !e.CloseLater?
    ensures Went(s, Move(s, e), Forgets(e), Step(config, s, e))
  {
    hide LoggedIn, Disconnect, Connect, ConnectToNextFallback, BreakServer, CloseServer, SocketFailed, LoginRefused,
         LoginAccepted, JoinedGame, Kicked, Send, Marks, Quiet, Extends, Went;
    NothingWent(s, Forgets(e));
    match e
    case ClientHandshake(version, next) => HandshakeWent(config, s, e);
    case ClientLogin(_, _) => LoggedInWent(s); DisconnectWent(s); SendWent(s, EncryptionRequest);
    case ClientVerified(_) => LoggedInWent(s); DisconnectWent(s);
    case ClientInvalid => DisconnectWent(s);
    case ClientConnect(name) => if s.phase == Playing { AskedWent(s, name); }
    case PlayerBroken => BrokenWent(s);
    case SocketCreated(id, ok) => if s.Has(id, Handshaking) && !s.servers[id].dialed { SocketWent(config, s, id, ok); }
    case ServerRefused(id) => RefusedWent(s);
    case ServerAccepted(id) =>
    case ServerJoin(id, join) => if s.Has(id, Playing) { JoinedWent(s, id, join); }
    case ServerKick(id) => if s.Has(id, Playing) { KickWent(s, id); }
    case ServerOther(id, packetId) => SendWent(s, Forwarded(packetId));
    case ServerBroken(id) => if s.Reads(id) { BreakWent(s, id); }
    case _ =>
  }

  lemma NothingWent(s: State, forgets: bool)
    ensures Went(s, Nothing, forgets, s)
  {
  }

  lemma HandshakeWent(config: seq<string>, s: State, e: Event)
    requires e.ClientHandshake?
    ensures Went(s, Nothing, false, Step(config, s, e))
  {
  }

  lemma AskedWent(s: State, name: string)
    ensures Went(s, Dial(name), false, Connect(Send(s, Chat), name))
  {
    ConnectWent(Send(s, Chat), name);
    hide Connect, Marks;
  }

  lemma BrokenWent(s: State)
    ensures Went(s, Nothing, false, CloseChannel(s))
  {
  }

  lemma FailureWent(t: State)
    ensures Went(t, if t.phase == Login then Next(t) else if t.Connected() then Nothing else Leave, false, SocketFailed(t))
  {
    NextWent(t);
    DisconnectWent(t);
    SendWent(t, Chat);
    hide Marks, Quiet, Extends, Send, Disconnect, ConnectToNextFallback, Went;
    NothingWent(t, false);
  }

  lemma SocketWent(config: seq<string>, s: State, id: nat, ok: bool)
    requires s.Has(id, Handshaking) && !s.servers[id].dialed
    ensures Went(s, Move(s, SocketCreated(id, ok)), false, Step(config, s, SocketCreated(id, ok)))
  {
    var t := SetServer(s, id, s.servers[id].(dialed := true, phase := if ok then Login else Handshaking));
    SocketStep(config, s, id, ok);
    hide SocketFailed, Step;
    if ok {
    } else {
      FailureWent(t);
      SameCourse(s, t, SocketFailed(t));
    }
  }

  lemma SocketStep(config: seq<string>, s: State, id: nat, ok: bool)
    requires s.Has(id, Handshaking) && !s.servers[id].dialed
    ensures var t := SetServer(s, id, s.servers[id].(dialed := true, phase := if ok then Login else Handshaking));
      Step(config, s, SocketCreated(id, ok)) == if ok then t else SocketFailed(t)
  {
    hide SocketFailed;
  }

  /** The same course from a state with the same names and the same target. */
  lemma SameCourse(s: State, t: State, u: State)
    requires t == s.(servers := t.servers) && |t.servers| == |s.servers| && (t.Connected() <==> s.Connected())
    requires forall i | 0 <= i < |s.servers| :: t.servers[i].name == s.servers[i].name
    requires Went(t, if t.phase == Login then Next(t) else if t.Connected() then Nothing else Leave, false, u)
    ensures Went(s, if s.phase == Login then Next(s) else if s.Connected() then Nothing else Leave, false, u)
  {
  }

  lemma RefusedWent(s: State)
    ensures Went(s, if s.queue == [] && (s.phase == Login || !s.Connected()) then Leave else Nothing, false, LoginRefused(s))
  {
    DisconnectWent(s);
    SendWent(s, Chat);
    hide Marks, Quiet, Extends, Send, Disconnect;
  }

  lemma JoinedWent(s: State, id: nat, join: Join)
    requires id < |s.servers|
    ensures Went(s, Nothing, false, JoinedGame(s, id, join))
  {
    hide Marks;
  }

  /** The timer ends the closing, and closes the connection if it was running. */
  lemma TimerCloses(config: seq<string>, s: State)
    ensures var t := Step(config, s, CloseLater);
      && t == s.(closing := false, phase := t.phase)
      && t.phase == if s.closing then Closed else s.phase
  {
  }

  // ---------- phases and the target ----------

  /** The player's phase after a step. */
  function PhaseAfter(s: State, e: Event): Phase {
    if e.ClientHandshake? && s.phase == Handshaking then
      if e.next == 1 then Status else if e.next == 2 then Login else Handshaking
    else if e.ServerAccepted? && s.Has(e.id, Login) && s.phase == Login then Playing
    else if (e.PlayerBroken? && !s.closing) || (e.CloseLater? && s.closing) then Closed
    else s.phase
  }

  /** The step ends the connection with the number. */
  predicate Ends(s: State, e: Event, id: nat) {
    || (e.ServerKick? && e.id == id && s.Has(id, Playing))
    || (e.ServerBroken? && e.id == id && s.Reads(id))
    || (e.ServerAccepted? && s.Has(e.id, Login) && s.Connected() && s.current.value == id && id != e.id)
  }

  /** The phase of a server connection after a step. */
  function ServerPhaseAfter(s: State, e: Event, id: nat): Phase
    requires id < |s.servers|
  {
    if Ends(s, e, id) then Closed
    else if e.SocketCreated? && e.id == id && e.ok && s.Has(id, Handshaking) && !s.servers[id].dialed then Login
    else if e.ServerAccepted? && e.id == id && s.Has(id, Login) then Playing
    else s.servers[id].phase
  }

  /** The target after a step: an accepting server takes its place, and whenever a connection ends it is forgotten. */
  function TargetAfter(s: State, e: Event): Option<nat> {
    if e.ServerAccepted? && s.Has(e.id, Login) then Some(e.id)
    else if (e.ServerKick? && s.Has(e.id, Playing)) || (e.ServerBroken? && s.Reads(e.id)) then None
    else s.current
  }

  /** The connections and the target that a step leaves. */
  predicate Connections(s: State, e: Event, t: State) {
    && |s.servers| <= |t.servers| && t.current == TargetAfter(s, e)
    && (forall i | 0 <= i < |s.servers| :: t.servers[i].phase == ServerPhaseAfter(s, e, i))
    && forall i | |s.servers| <= i < |t.servers| :: t.servers[i].phase == Handshaking
  }

  lemma ExtendedConnections(s: State, e: Event, u: State, t: State)
    requires Extends(u, t) && Connections(s, e, u)
    ensures Connections(s, e, t)
  {
    assert forall i | 0 <= i < |u.servers| :: t.servers[i] == u.servers[i];
    hide TargetAfter, ServerPhaseAfter;
  }

  lemma ClosedConnections(s: State, id: nat)
    requires id < |s.servers| && s.servers[id].phase != Closed
    ensures Extends(SetServer(s, id, s.servers[id].(phase := Closed)).(current := None), CloseServer(s, id))
  {
    hide ConnectToNextFallback, Marks, Quiet;
  }

  lemma KeptConnections(s: State, e: Event, t: State)
    requires Extends(s, t) && TargetAfter(s, e) == s.current
    requires forall i | 0 <= i < |s.servers| :: ServerPhaseAfter(s, e, i) == s.servers[i].phase
    ensures Connections(s, e, t)
  {
    assert forall i | 0 <= i < |s.servers| :: t.servers[i] == s.servers[i];
  }

  lemma LostConnections(s: State, e: Event, id: nat, u: State, t: State)
    requires id < |s.servers| && s.servers[id].phase != Closed && u.servers == s.servers && t == CloseServer(u, id)
    requires (e == ServerKick(id) && s.Has(id, Playing)) || (e == ServerBroken(id) && s.Reads(id))
    ensures Connections(s, e, t)
  {
    ClosedConnections(u, id);
    hide CloseServer, Quiet;
    ExtendedConnections(s, e, SetServer(u, id, u.servers[id].(phase := Closed)).(current := None), t);
  }

  lemma AcceptedConnections(config: seq<string>, s: State, id: nat)
    requires s.Has(id, Login)
    ensures Connections(s, ServerAccepted(id), LoginAccepted(config, s, id))
  {
    var playing := SetServer(s, id, s.servers[id].(phase := Playing));
    var t := LoginAccepted(config, s, id);
    if s.Connected() && s.current.value != id {
      var o := s.current.value;
      ClosedConnections(playing, o);
      var u := SetServer(playing, o, playing.servers[o].(phase := Closed)).(current := None);
      var alone := CloseServer(playing, o);
      assert t.servers == alone.servers;
      assert forall i | 0 <= i < |u.servers| :: alone.servers[i] == u.servers[i];
    } else {
      assert t.servers == playing.servers;
    }
    hide CloseServer, Quiet, Marks, Send;
  }

  lemma SocketConnections(config: seq<string>, s: State, id: nat, ok: bool)
    requires s.Has(id, Handshaking) && !s.servers[id].dialed
    ensures Connections(s, SocketCreated(id, ok), Step(config, s, SocketCreated(id, ok)))
  {
    var t := SetServer(s, id, s.servers[id].(dialed := true, phase := if ok then Login else Handshaking));
    SocketStep(config, s, id, ok);
    hide SocketFailed, Step, Quiet;
    assert Connections(s, SocketCreated(id, ok), t);
    if !ok {
      ExtendedConnections(s, SocketCreated(id, ok), t, SocketFailed(t));
    }
  }

  /** The phase of every connection and the target after each step. */
  lemma StepPhases(config: seq<string>, s: State, e: Event)
    ensures var t := Step(config, s, e);
      t.phase == PhaseAfter(s, e) && Connections(s, e, t)
  {
    PlayerPhase(config, s, e);
    hide LoggedIn, Disconnect, Connect, ConnectToNextFallback, BreakServer, CloseServer, SocketFailed, LoginRefused,
         LoginAccepted, Kicked, Send, Quiet, PhaseAfter, Connections;
    match e
    case ServerBroken(id) =>
      if s.Reads(id) {
        var u := if s.servers[id].phase != Login then Send(s, Chat) else if s.queue == [] then Disconnect(s) else s;
        BreakIs(s, id);
        LostConnections(s, e, id, u, BreakServer(s, id));
      } else {
        KeptConnections(s, e, s);
      }
    case ServerAccepted(id) =>
      if s.Has(id, Login) { AcceptedConnections(config, s, id); } else { KeptConnections(s, e, s); }
    case ServerKick(id) =>
      if s.Has(id, Playing) {
        var u := if s.queue == [] then s else Send(s, Chat);
        KickIs(s, id);
        LostConnections(s, e, id, u, Kicked(s, id));
      } else {
        KeptConnections(s, e, s);
      }
    case SocketCreated(id, ok) =>
      if s.Has(id, Handshaking) && !s.servers[id].dialed { SocketConnections(config, s, id, ok); } else { KeptConnections(s, e, s); }
    case ServerJoin(id, join) => if s.Has(id, Playing) { JoinedConnections(s, id, join); } else { KeptConnections(s, e, s); }
    case ClientConnect(name) =>
      if s.phase == Playing {
        ExtendsAfterChat(s, name);
        KeptConnections(s, e, Connect(Send(s, Chat), name));
      } else {
        KeptConnections(s, e, s);
      }
    case _ => KeptConnections(s, e, Step(config, s, e));
  }

  lemma ExtendsAfterChat(s: State, name: string)
    ensures Extends(s, Connect(Send(s, Chat), name))
  {
    hide Connect, Marks;
  }

  lemma BreakIs(s: State, id: nat)
    requires s.Reads(id)
    ensures var u := if s.servers[id].phase != Login then Send(s, Chat) else if s.queue == [] then Disconnect(s) else s;
      BreakServer(s, id) == CloseServer(u, id) && u.servers == s.servers && s.servers[id].phase != Closed
  {
    hide CloseServer, Marks;
  }

  lemma KickIs(s: State, id: nat)
    requires s.Has(id, Playing)
    ensures var u := if s.queue == [] then s else Send(s, Chat);
      Kicked(s, id) == CloseServer(u, id) && u.servers == s.servers
  {
    hide CloseServer, Marks;
  }

  lemma JoinedConnections(s: State, id: nat, join: Join)
    requires s.Has(id, Playing)
    ensures Connections(s, ServerJoin(id, join), JoinedGame(s, id, join))
  {
    hide Marks;
  }

  lemma PlayerPhase(config: seq<string>, s: State, e: Event)
    ensures Step(config, s, e).phase == PhaseAfter(s, e)
  {
    hide LoggedIn, Disconnect, Connect, ConnectToNextFallback, BreakServer, CloseServer, SocketFailed, LoginRefused,
         Kicked, Send;
  }
}
