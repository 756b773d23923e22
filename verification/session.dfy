/**
 The session of one player (ClientPacketHandler.cpp, ServerPacketHandler.cpp, PlayerConnection.h,
 PlayerConnection.cpp, ServerConnection.cpp) as a state machine whose steps are the handlers.
 */
module Session {
  import opened Results

  /** `ConnectionState`, whose ENCRIPTING no code ever sets. */
  datatype Phase = Handshaking | Status | Login | Playing | Closed

  /** The Join Game packet after its entity id; `dim` is a signed char. */
  datatype Join = Join(entityId: int, gamemode: int, dim: int, difficulty: int, level: string)

  /** What the player's client is sent. */
  datatype Out =
    | LoginSuccess
    | SetCompression
    | EncryptionRequest
    | Disconnected
    | Chat
    | JoinGame(join: Join)   // a forwarded Join Game
    | Respawn(join: Join)    // the Respawn made of a Join Game
    | DimensionSwitch        // the Respawn of `sendDimswitch`
    | Forwarded(id: int)     // any other packet of a server

  /** A `ServerConnection`; `dialed` says that its socket has been created, successfully or not. */
  datatype Server = Server(name: string, phase: Phase, dialed: bool, entityId: int)

  /**
   A `PlayerConnection` with the server connections made for it, numbered from zero. `attempts` lists
   the servers that connections were opened to; `tried` is a history variable, the part of the
   fallback queue used up since it was last reset.
   */
  datatype State = State(
    phase: Phase,
    version: int,
    playerId: int,
    dimswitch: bool,
    queue: seq<string>,
    current: Option<nat>,
    servers: seq<Server>,
    closing: bool,
    sent: seq<Out>,
    attempts: seq<string>,
    tried: seq<string>)
  {
    predicate Has(id: nat, p: Phase) {
      id < |servers| && servers[id].phase == p
    }

    /** The connection's reader task is running: it is started once the socket is open. */
    predicate Reads(id: nat) {
      Has(id, Login) || Has(id, Playing)
    }

    /** There is a target connection, and it is not closed. */
    predicate Connected() {
      current.Some? && current.value < |servers| && servers[current.value].phase != Closed
    }
  }

  /** The packets that tell the client which world it is in. */
  predicate Marked(out: Out) {
    out.JoinGame? || out.Respawn? || out.DimensionSwitch?
  }

  function Marks(sent: seq<Out>): seq<Out> {
    if sent == [] then []
    else Marks(sent[..|sent| - 1]) + if Marked(sent[|sent| - 1]) then [sent[|sent| - 1]] else []
  }

  /** What the parts of a handler that only talk, close and dial leave alone. */
  predicate Quiet(s: State, t: State) {
    && t.phase == s.phase && t.version == s.version
    && t.playerId == s.playerId && t.dimswitch == s.dimswitch
    && Marks(t.sent) == Marks(s.sent)
    && t.tried + t.queue == s.tried + s.queue
    && (t.current == s.current || t.current == None)
    && |s.servers| <= |t.servers|
    && s.attempts <= t.attempts
    && (s.closing ==> t.closing)
  }

  /** New server connections have not been dialed yet, the old ones and the target are the same. */
  predicate Extends(s: State, t: State) {
    && s.servers <= t.servers
    && (forall i | |s.servers| <= i < |t.servers| :: t.servers[i].phase == Handshaking)
    && t.current == s.current
  }

  function Initial(config: seq<string>): State {
    State(Handshaking, -1, -1, false, config, None, [], false, [], [], [])
  }

  // ---------- the player's methods ----------

  /** `writePacket` does nothing once the connection is closed. */
  function Send(s: State, out: Out): (t: State)
    ensures Marks(t.sent) == Marks(s.sent) + if Marked(out) && s.phase != Closed then [out] else []
    ensures t == s.(sent := t.sent)
    ensures !Marked(out) ==> Quiet(s, t)
  {
    assert (s.sent + [out])[..|s.sent|] == s.sent;
    if s.phase == Closed then s else s.(sent := s.sent + [out])
  }

  /** `disconnect`: says goodbye and leaves the closing to a later `CloseLater`. */
  function Disconnect(s: State): (t: State)
    ensures Quiet(s, t) && Extends(s, t)
  {
    var said := if s.phase == Login || s.phase == Playing then Send(s, Disconnected) else s;
    said.(closing := true)
  }

  /** `closeChannel()`. */
  function CloseChannel(s: State): State {
    if s.closing then s else s.(phase := Closed)
  }

  function SendDimswitch(s: State): State {
    if s.dimswitch then s else Send(s.(dimswitch := true), DimensionSwitch)
  }

  /** `connect`: nothing is ever pending, since the getter hands out a copy of the list. */
  function Connect(s: State, name: string): (t: State)
    ensures Quiet(s, t) && Extends(s, t)
  {
    if s.Connected() && s.servers[s.current.value].name == name then Send(s, Chat)
    else s.(servers := s.servers + [Server(name, Handshaking, false, -1)], attempts := s.attempts + [name])
  }

  function ConnectToNextFallback(s: State): (t: State)
    ensures Quiet(s, t) && Extends(s, t)
  {
    if s.queue == [] then Disconnect(s)
    else Connect(s.(queue := s.queue[1..], tried := s.tried + [s.queue[0]]), s.queue[0])
  }

  predicate IsSupportedVersion(version: int) {
    version == 210 || version == 110 || version == 109 || version == 108 || version == 107 || version == 47
  }

  /** `sendSuccessfullLoggedIn`. */
  function LoggedIn(s: State): (t: State)
    ensures Quiet(s, t) && Extends(s, t)
  {
    if !IsSupportedVersion(s.version) then Disconnect(s)
    else ConnectToNextFallback(Send(s, SetCompression))
  }

  // ---------- the server connections' methods ----------

  function SetServer(s: State, id: nat, server: Server): State
    requires id < |s.servers|
  {
    s.(servers := s.servers[id := server])
  }

  /** `ServerConnection::closeChannel` with `handleConnectionClosed`. */
  function CloseServer(s: State, id: nat): (t: State)
    requires id < |s.servers|
    ensures Quiet(s, t)
  {
    if s.servers[id].phase == Closed then s
    else ConnectToNextFallback(SetServer(s, id, s.servers[id].(phase := Closed)).(current := None))
  }

  /** The reader task of a server connection has caught an exception: `handleException`, then `closeChannel`. */
  function BreakServer(s: State, id: nat): (t: State)
    requires id < |s.servers|
    ensures Quiet(s, t)
  {
    if s.servers[id].phase == Closed then s
    else if s.servers[id].phase == Login then CloseServer(if s.queue == [] then Disconnect(s) else s, id)
    else CloseServer(Send(s, Chat), id)
  }

  /** `connectMethode` with a socket that could not be opened. */
  function SocketFailed(s: State): (t: State)
    ensures Quiet(s, t) && Extends(s, t)
  {
    if s.phase == Login then ConnectToNextFallback(s)
    else if !s.Connected() then Disconnect(s)
    else Send(s, Chat)
  }

  /** A Login Disconnect packet. */
  function LoginRefused(s: State): (t: State)
    ensures Quiet(s, t) && Extends(s, t)
  {
    if s.phase == Login then (if s.queue == [] then Disconnect(s) else s)
    else if !s.Connected() then (if s.queue == [] then Disconnect(s) else s)
    else Send(s, Chat)
  }

  /** A Login Success packet: the old target is dropped, the new one takes its place. */
  function LoginAccepted(config: seq<string>, s: State, id: nat): State
    requires id < |s.servers|
  {
    var playing := SetServer(s, id, s.servers[id].(phase := Playing));
    var alone := if playing.Connected() && s.current.value != id then CloseServer(playing, s.current.value) else playing;
    var switched := alone.(current := Some(id));
    var told := if switched.phase == Login then Send(switched, LoginSuccess).(phase := Playing)
                else SendDimswitch(switched);
    told.(queue := config, tried := [])
  }

  /** A Join Game packet: the first one tells the player's id, a later one turns into a Respawn. */
  function JoinedGame(s: State, id: nat, join: Join): State
    requires id < |s.servers|
  {
    var t := SetServer(s, id, s.servers[id].(entityId := join.entityId)).(dimswitch := false);
    if s.playerId == -1 then Send(t.(playerId := join.entityId), JoinGame(join)) else Send(t, Respawn(join))
  }

  /** A kick packet. */
  function Kicked(s: State, id: nat): (t: State)
    requires id < |s.servers|
    ensures Quiet(s, t)
  {
    CloseServer(if s.queue == [] then s else Send(s, Chat), id)
  }

  // ---------- events ----------

  datatype Event =
    | ClientHandshake(version: int, next: int)
    | ClientLogin(full: bool, online: bool)
    | ClientVerified(ok: bool)           // the answer of the session server, whenever it comes
    | ClientInvalid                      // an unknown packet, or a wrong verify token
    | ClientConnect(name: string)        // a /server command
    | PlayerBroken                       // the player's reader task has caught an exception
    | CloseLater                         // `runDisconnectLater`
    | SocketCreated(id: nat, ok: bool)   // `connectMethode`
    | ServerRefused(id: nat)
    | ServerAccepted(id: nat)
    | ServerJoin(id: nat, join: Join)
    | ServerKick(id: nat)
    | ServerOther(id: nat, packetId: int)
    | ServerBroken(id: nat)

  /** Events of the player's own connection. */
  predicate FromClient(e: Event) {
    e.ClientHandshake? || e.ClientLogin? || e.ClientVerified? || e.ClientInvalid? || e.ClientConnect?
    || e.PlayerBroken? || e.CloseLater?
  }

  /** The packet handlers dispatch on the state of their connection and ignore what does not belong to it. */
  function Step(config: seq<string>, s: State, e: Event): State {
    match e
    case ClientHandshake(version, next) =>
      if s.phase != Handshaking then s
      else s.(version := version, phase := if next == 1 then Status else if next == 2 then Login else Handshaking)
    case ClientLogin(full, online) =>
      if s.phase != Login then s
      else if full then Disconnect(s)
      else if online then Send(s, EncryptionRequest)
      else LoggedIn(s)
    case ClientVerified(ok) =>
      if s.phase == Handshaking || s.phase == Status then s
      else if ok then LoggedIn(s)
      else Disconnect(s)
    case ClientInvalid => if s.phase == Login then Disconnect(s) else s
    case ClientConnect(name) => if s.phase == Playing then Connect(Send(s, Chat), name) else s
    case PlayerBroken => CloseChannel(s)
    case CloseLater => if s.closing then CloseChannel(s.(closing := false)) else s
    case SocketCreated(id, ok) =>
      if !s.Has(id, Handshaking) || s.servers[id].dialed then s
      else
        var t := SetServer(s, id, s.servers[id].(dialed := true, phase := if ok then Login else Handshaking));
        if ok then t else SocketFailed(t)
    case ServerRefused(id) => if s.Has(id, Login) then LoginRefused(s) else s
    case ServerAccepted(id) => if s.Has(id, Login) then LoginAccepted(config, s, id) else s
    case ServerJoin(id, join) => if s.Has(id, Playing) then JoinedGame(s, id, join) else s
    case ServerKick(id) => if s.Has(id, Playing) then Kicked(s, id) else s
    case ServerOther(id, packetId) => if s.Has(id, Playing) then Send(s, Forwarded(packetId)) else s
    case ServerBroken(id) => if s.Reads(id) then BreakServer(s, id) else s
  }

  function Run(config: seq<string>, s: State, events: seq<Event>): State {
    if events == [] then s
    else Step(config, Run(config, s, events[..|events| - 1]), events[|events| - 1])
  }

  // ---------- the phases ----------

  /** Handshaking, then Status or Login; Playing only from Login; Closed at the end. */
  predicate Forward(a: Phase, b: Phase) {
    a == b || b == Closed || (a == Handshaking && b != Playing) || (a == Login && b == Playing)
  }

  lemma StepForward(config: seq<string>, s: State, e: Event)
    ensures Forward(s.phase, Step(config, s, e).phase)
  {
    hide LoggedIn, Disconnect, Connect, ConnectToNextFallback, BreakServer, CloseServer, SocketFailed, LoginRefused,
         Kicked, Send;
  }

  /** How far a session has come. */
  function Rank(p: Phase): nat {
    match p
    case Handshaking => 0
    case Status => 1
    case Login => 1
    case Playing => 2
    case Closed => 3
  }

  /**
   Over every run the phase only moves forward, a session that once asked for the status never logs
   in, and a client that plays has logged in before.
   */
  lemma {:induction false} RunForward(config: seq<string>, s: State, events: seq<Event>)
    ensures var t := Run(config, s, events);
            && Rank(s.phase) <= Rank(t.phase)
            && (Rank(s.phase) == Rank(t.phase) ==> s.phase == t.phase)
            && (s.phase == Status ==> t.phase in {Status, Closed})
            && (t.phase == Playing && s.phase != Playing ==>
                  exists n :: 0 <= n < |events| && Run(config, s, events[..n]).phase == Login
                              && Run(config, s, events[..n + 1]).phase == Playing)
  {
    if events != [] {
      var init := events[..|events| - 1];
      RunForward(config, s, init);
      StepForward(config, Run(config, s, init), events[|events| - 1]);
      assert events[..|events|] == events;
      if Run(config, s, init).phase == Playing && s.phase != Playing {
        var n :| 0 <= n < |init| && Run(config, s, init[..n]).phase == Login
                 && Run(config, s, init[..n + 1]).phase == Playing;
        assert init[..n] == events[..n] && init[..n + 1] == events[..n + 1];
      }
    }
  }

  // ---------- Join Games, Respawns and dimension switches ----------

  lemma StepMarks(config: seq<string>, s: State, e: Event)
    ensures var t := Step(config, s, e);
            Marks(t.sent) == Marks(s.sent) +
              if s.phase == Closed then []
              else match e
                case ServerJoin(id, join) =>
                  if !s.Has(id, Playing) then [] else if s.playerId == -1 then [JoinGame(join)] else [Respawn(join)]
                case ServerAccepted(id) =>
                  if s.Has(id, Login) && s.phase != Login && !s.dimswitch then [DimensionSwitch] else []
                case _ => []
    ensures var t := Step(config, s, e);
            && t.playerId == (if e.ServerJoin? && s.Has(e.id, Playing) && s.playerId == -1 then e.join.entityId
                              else s.playerId)
            && t.dimswitch == (if e.ServerJoin? && s.Has(e.id, Playing) then false
                               else s.dimswitch || (e.ServerAccepted? && s.Has(e.id, Login) && s.phase != Login))
  {
    hide LoggedIn, Disconnect, Connect, ConnectToNextFallback, BreakServer, CloseServer, SocketFailed, LoginRefused,
         Kicked, Send, Marks, LoginAccepted, JoinedGame;
    match e
    case ServerAccepted(id) => if s.Has(id, Login) { AcceptedMarks(config, s, id); }
    case ServerJoin(id, join) => if s.Has(id, Playing) { JoinedMarks(s, id, join); }
    case _ =>
  }

  lemma AcceptedMarks(config: seq<string>, s: State, id: nat)
    requires id < |s.servers|
    ensures var t := LoginAccepted(config, s, id);
            && Marks(t.sent) == Marks(s.sent) +
                 (if s.phase != Closed && s.phase != Login && !s.dimswitch then [DimensionSwitch] else [])
            && t.playerId == s.playerId
            && t.dimswitch == (s.dimswitch || s.phase != Login)
  {
    hide CloseServer, Send, Marks;
  }

  lemma JoinedMarks(s: State, id: nat, join: Join)
    requires id < |s.servers|
    ensures var t := JoinedGame(s, id, join);
            && Marks(t.sent) == Marks(s.sent) +
                 (if s.phase == Closed then [] else if s.playerId == -1 then [JoinGame(join)] else [Respawn(join)])
            && t.playerId == (if s.playerId == -1 then join.entityId else s.playerId)
            && !t.dimswitch
  {
    hide Send, Marks;
  }

  /** The Join Games that the handlers get to see while the client's connection is open. */
  function Joins(config: seq<string>, s: State, events: seq<Event>): seq<Join> {
    if events == [] then []
    else
      var init := events[..|events| - 1];
      var before := Run(config, s, init);
      var e := events[|events| - 1];
      Joins(config, s, init) +
        if e.ServerJoin? && before.Has(e.id, Playing) && before.phase != Closed then [e.join] else []
  }

  /** The entity id the client plays under: the first one that is not -1. */
  function ClientId(joins: seq<Join>): int {
    if joins == [] then -1
    else
      var before := ClientId(joins[..|joins| - 1]);
      if before == -1 then joins[|joins| - 1].entityId else before
  }

  /** A Join Game is forwarded while the client has no id yet; every other one becomes one Respawn. */
  function Announced(joins: seq<Join>): seq<Out> {
    if joins == [] then []
    else
      var (init, last) := (joins[..|joins| - 1], joins[|joins| - 1]);
      Announced(init) + [if ClientId(init) == -1 then JoinGame(last) else Respawn(last)]
  }

  /** The marks other than dimension switches. */
  function Worlds(marks: seq<Out>): seq<Out> {
    if marks == [] then []
    else Worlds(marks[..|marks| - 1]) + if marks[|marks| - 1].DimensionSwitch? then [] else [marks[|marks| - 1]]
  }

  predicate EndsWithSwitch(marks: seq<Out>) {
    marks != [] && marks[|marks| - 1].DimensionSwitch?
  }

  /** Between two dimension switches the client has been told of a world. */
  predicate SwitchesSpaced(marks: seq<Out>) {
    forall i | 0 <= i < |marks| - 1 :: !(marks[i].DimensionSwitch? && marks[i + 1].DimensionSwitch?)
  }

  /** What ties the marks in a session's log to the Join Games seen so far. */
  predicate Consistent(s: State, joins: seq<Join>) {
    && Worlds(Marks(s.sent)) == Announced(joins)
    && SwitchesSpaced(Marks(s.sent))
    && (s.phase != Closed ==> s.playerId == ClientId(joins) && (s.dimswitch <==> EndsWithSwitch(Marks(s.sent))))
  }

  lemma {:induction false} StepConsistent(config: seq<string>, s: State, e: Event, joins: seq<Join>)
    requires Consistent(s, joins)
    ensures Consistent(Step(config, s, e),
      joins + if e.ServerJoin? && s.Has(e.id, Playing) && s.phase != Closed then [e.join] else [])
  {
    StepMarks(config, s, e);
    StepForward(config, s, e);
    var t := Step(config, s, e);
    hide Step, Marks;
    var marks := Marks(s.sent);
    if e.ServerJoin? && s.Has(e.id, Playing) && s.phase != Closed {
      var out := if s.playerId == -1 then JoinGame(e.join) else Respawn(e.join);
      assert Marks(t.sent) == marks + [out];
      assert (marks + [out])[..|marks|] == marks;
      assert (joins + [e.join])[..|joins|] == joins;
    } else {
      assert joins + [] == joins;
      if Marks(t.sent) != marks {
        assert Marks(t.sent) == marks + [DimensionSwitch];
        assert (marks + [DimensionSwitch])[..|marks|] == marks;
      }
    }
  }

  /**
   Over every run of a fresh session, what the client is told of its worlds is determined by the
   Join Games alone, in their order: forwarded up to the first with an id other than -1, one Respawn
   for each later one; and no two dimension switches come without one of these in between.
   */
  lemma {:induction false} WorldsOfRun(config: seq<string>, events: seq<Event>)
    ensures Consistent(Run(config, Initial(config), events), Joins(config, Initial(config), events))
  {
    if events != [] {
      var init, e := events[..|events| - 1], events[|events| - 1];
      WorldsOfRun(config, init);
      StepConsistent(config, Run(config, Initial(config), init), e, Joins(config, Initial(config), init));
    }
  }

  /** Once the client has an id, no step changes it. */
  lemma {:induction false} RunKeepsId(config: seq<string>, s: State, events: seq<Event>)
    requires s.playerId != -1
    ensures Run(config, s, events).playerId == s.playerId
  {
    if events != [] {
      var init := events[..|events| - 1];
      RunKeepsId(config, s, init);
      StepMarks(config, Run(config, s, init), events[|events| - 1]);
    }
  }

  // ---------- the fallback queue ----------

  /** Servers are only dialed from the login on, and only a playing client has a target. */
  predicate Settled(config: seq<string>, s: State) {
    && s.tried + s.queue == config
    && (s.phase in {Handshaking, Status} ==> s.servers == [])
    && (s.phase in {Handshaking, Status, Login} ==> s.current == None)
  }

  lemma StepSettled(config: seq<string>, s: State, e: Event)
    requires Settled(config, s)
    ensures Settled(config, Step(config, s, e))
  {
    StepForward(config, s, e);
    hide LoggedIn, Disconnect, Connect, ConnectToNextFallback, BreakServer, CloseServer, SocketFailed, LoginRefused,
         Kicked, Marks;
    assert [] + config == config;
  }

  /** Between two resets the servers tried are a prefix of the configured ones, each at most once. */
  lemma {:induction false} RunSettled(config: seq<string>, events: seq<Event>)
    ensures var t := Run(config, Initial(config), events);
            Settled(config, t) && t.tried <= config && t.queue == config[|t.tried|..]
  {
    if events != [] {
      var init := events[..|events| - 1];
      RunSettled(config, init);
      StepSettled(config, Run(config, Initial(config), init), events[|events| - 1]);
    }
    var t := Run(config, Initial(config), events);
    assert config[..|t.tried|] == t.tried;
  }

  /** The ways in which a server can fail a client that is logging in. */
  datatype Failure = NoSocket | Broken | Refused

  function FailureEvents(f: Failure, id: nat): seq<Event> {
    match f
    case NoSocket => [SocketCreated(id, false)]
    case Broken => [SocketCreated(id, true), ServerBroken(id)]
    case Refused => [SocketCreated(id, true), ServerRefused(id), ServerBroken(id)]
  }

  lemma {:induction false} RunConcat(config: seq<string>, s: State, a: seq<Event>, b: seq<Event>)
    ensures Run(config, s, a + b) == Run(config, Run(config, s, a), b)
    decreases b
  {
    if b == [] {
      assert a + b == a;
    } else {
      assert (a + b)[..|a + b| - 1] == a + b[..|b| - 1];
      RunConcat(config, s, a, b[..|b| - 1]);
    }
  }

  lemma RunOfFew(config: seq<string>, s: State, d: Event, e: Event, f: Event)
    ensures Run(config, s, [d]) == Step(config, s, d)
    ensures Run(config, s, [d, e]) == Step(config, Step(config, s, d), e)
    ensures Run(config, s, [d, e, f]) == Step(config, Step(config, Step(config, s, d), e), f)
  {
    hide Step;
    assert [d][..0] == [] && [d, e][..1] == [d] && [d, e, f][..2] == [d, e];
  }

  /** The client is logging in and waits for the newest of its server connections. */
  predicate Waiting(s: State) {
    && s.phase == Login && s.current == None
    && s.servers != []
    && s.servers[|s.servers| - 1].phase == Handshaking && !s.servers[|s.servers| - 1].dialed
  }

  /** What a failure does to a client that waits for a server: it uses up one entry of the queue or disconnects. */
  predicate Failed(s: State, t: State) {
    && t.phase == Login
    && if s.queue == [] then t.closing && t.attempts == s.attempts
       else
         && Waiting(t) && t.closing == s.closing
         && t.queue == s.queue[1..]
         && t.attempts == s.attempts + [s.queue[0]]
         && |t.servers| == |s.servers| + 1
  }

  lemma NextFallbackFails(s: State, t: State)
    requires t.phase == Login && t.current == None && t.queue == s.queue && t.attempts == s.attempts
    requires |t.servers| == |s.servers| && (t.closing == s.closing || s.queue == [])
    ensures Failed(s, ConnectToNextFallback(t))
  {
    hide Marks, Marked, Quiet, Extends;
  }

  lemma BreakFails(s: State, t: State, id: nat)
    requires t.phase == Login && t.current == None && t.queue == s.queue && t.attempts == s.attempts
    requires |t.servers| == |s.servers| && (t.closing == s.closing || s.queue == [])
    requires t.Has(id, Login)
    ensures Failed(s, BreakServer(t, id))
  {
    var said := if t.queue == [] then Disconnect(t) else t;
    NextFallbackFails(s, SetServer(said, id, said.servers[id].(phase := Closed)).(current := None));
  }

  lemma OneFailure(config: seq<string>, s: State, f: Failure)
    requires Waiting(s)
    ensures Failed(s, Run(config, s, FailureEvents(f, |s.servers| - 1)))
  {
    hide Run, ConnectToNextFallback, BreakServer, Failed, Disconnect, Quiet, Extends, Marks;
    var id := |s.servers| - 1;
    match f
    case NoSocket =>
      var down := SocketCreated(id, false);
      RunOfFew(config, s, down, down, down);
      NextFallbackFails(s, SetServer(s, id, s.servers[id].(dialed := true, phase := Handshaking)));
    case Broken =>
      var up, broken := SocketCreated(id, true), ServerBroken(id);
      RunOfFew(config, s, up, broken, up);
      BreakFails(s, Step(config, s, up), id);
    case Refused =>
      var up, refused, broken := SocketCreated(id, true), ServerRefused(id), ServerBroken(id);
      RunOfFew(config, s, up, refused, broken);
      RefusalKeeps(config, Step(config, s, up), id);
      BreakFails(s, Step(config, Step(config, s, up), refused), id);
  }

  lemma RefusalKeeps(config: seq<string>, s: State, id: nat)
    requires s.phase == Login && s.Has(id, Login)
    ensures var t := Step(config, s, ServerRefused(id));
            && t.phase == Login && t.Has(id, Login)
            && t == s.(sent := t.sent, closing := t.closing)
            && (t.closing == s.closing || s.queue == [])
  {
    hide Marks, Quiet, Extends;
  }

  // ---------- switching servers ----------

  /**
   When a playing client's new server accepts it, the client is also sent to the next fallback
   server (or disconnected, if there is none) exactly if its old connection is still open: closing
   that connection is taken for losing it.
   */
  lemma SwitchDialsFallback(config: seq<string>, s: State, id: nat)
    requires s.phase == Playing && s.Has(id, Login)
    ensures var t := Step(config, s, ServerAccepted(id));
            && t.current == Some(id) && t.phase == Playing && t.queue == config
            && if s.Connected() && s.current.value != id then
                 if s.queue == [] then t.closing && t.attempts == s.attempts
                 else t.attempts == s.attempts + [s.queue[0]]
               else t.attempts == s.attempts && t.closing == s.closing
  {
    hide Marks, Marked, Quiet;
  }

  /** The target is the only server that may be playing with the client. */
  predicate SoleServer(s: State) {
    forall i | 0 <= i < |s.servers| && s.servers[i].phase == Playing :: s.current == Some(i)
  }

  /** The connection is open, and not the target with which the client plays. */
  predicate Beside(s: State, id: nat) {
    && id < |s.servers| && s.servers[id].phase != Closed
    && s.current.Some? && s.current.value != id
    && s.current.value < |s.servers| && s.servers[s.current.value].phase == Playing
  }

  /** A connection other than the open target ends. */
  predicate Orphans(s: State, e: Event) {
    e.ServerBroken? && s.Reads(e.id) && Beside(s, e.id)
  }

  lemma ExtendsSole(s: State, t: State)
    requires Extends(s, t)
    ensures SoleServer(t) <==> SoleServer(s)
  {
    forall i | 0 <= i < |s.servers| ensures s.servers[i] == t.servers[i] {}
  }

  lemma CloseServerSole(s: State, id: nat)
    requires SoleServer(s) && id < |s.servers|
    ensures SoleServer(CloseServer(s, id)) <==> !Beside(s, id)
  {
    hide ConnectToNextFallback, Quiet;
    if s.servers[id].phase != Closed {
      var t := SetServer(s, id, s.servers[id].(phase := Closed)).(current := None);
      if Beside(s, id) {
        assert t.servers[s.current.value].phase == Playing;
      }
      ExtendsSole(t, ConnectToNextFallback(t));
    }
  }

  lemma BreakServerSole(s: State, id: nat)
    requires SoleServer(s) && id < |s.servers|
    ensures SoleServer(BreakServer(s, id)) <==> !Beside(s, id)
  {
    hide CloseServer, Disconnect, Quiet;
    var t := if s.servers[id].phase != Login then Send(s, Chat) else if s.queue == [] then Disconnect(s) else s;
    ExtendsSole(s, t);
    CloseServerSole(t, id);
  }

  lemma LoginAcceptedSole(config: seq<string>, s: State, id: nat)
    requires SoleServer(s) && s.Has(id, Login)
    ensures SoleServer(LoginAccepted(config, s, id))
  {
    hide Quiet, ConnectToNextFallback, Marks;
    var playing := SetServer(s, id, s.servers[id].(phase := Playing));
    if playing.Connected() && s.current.value != id {
      var o := s.current.value;
      var t := SetServer(playing, o, playing.servers[o].(phase := Closed)).(current := None);
      assert CloseServer(playing, o) == ConnectToNextFallback(t);
      var u := ConnectToNextFallback(t);
      assert forall i | 0 <= i < |u.servers| && u.servers[i].phase == Playing :: i < |t.servers| && t.servers[i] == u.servers[i];
    }
  }

  /** That the client plays on one server only is kept by every step but the end of another connection. */
  lemma StepSoleServer(config: seq<string>, s: State, e: Event)
    requires SoleServer(s)
    ensures SoleServer(Step(config, s, e)) <==> !Orphans(s, e)
  {
    hide LoggedIn, Disconnect, Connect, ConnectToNextFallback, BreakServer, CloseServer, SocketFailed, LoginRefused,
         LoginAccepted, Send, Quiet, Marks;
    match e
    case ServerBroken(id) => if id < |s.servers| { BreakServerSole(s, id); }
    case ServerAccepted(id) => if s.Has(id, Login) { LoginAcceptedSole(config, s, id); }
    case ServerKick(id) =>
      if s.Has(id, Playing) {
        var t := if s.queue == [] then s else Send(s, Chat);
        CloseServerSole(t, id);
      }
    case ClientConnect(name) =>
      if s.phase == Playing { ExtendsSole(Send(s, Chat), Connect(Send(s, Chat), name)); }
    case ClientLogin(_, _) => ExtendsSole(s, LoggedIn(s)); ExtendsSole(s, Disconnect(s));
    case ClientVerified(_) => ExtendsSole(s, LoggedIn(s)); ExtendsSole(s, Disconnect(s));
    case ClientInvalid => ExtendsSole(s, Disconnect(s));
    case ServerRefused(_) => ExtendsSole(s, LoginRefused(s));
    case SocketCreated(id, ok) =>
      if s.Has(id, Handshaking) {
        var t := SetServer(s, id, s.servers[id].(dialed := true, phase := if ok then Login else Handshaking));
        ExtendsSole(t, SocketFailed(t));
      }
    case _ =>
  }
}
