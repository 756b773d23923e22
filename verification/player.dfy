/** The handlers of a session as they update the fields of the player's connection. */
module Players {
  import opened Results
  import opened Session
  import opened SessionLaws
  import opened SessionSent

  class PlayerConnection {
    const config: seq<string>
    var phase: Phase
    var version: int
    var playerId: int
    var dimswitch: bool
    var fallbackServers: seq<string>
    var currentTarget: Option<nat>
    var servers: seq<Server>
    var closing: bool
    var sent: seq<Out>
    var attempts: seq<string>
    ghost var tried: seq<string>
    ghost var joins: seq<Join>

    /** The connection as a state of the session. */
    ghost function View(): State
      reads this
    {
      State(phase, version, playerId, dimswitch, fallbackServers, currentTarget, servers, closing, sent, attempts, tried)
    }

    /**
     What every handler keeps: the client has been told of its worlds as its Join Games say, with
     spaced dimension switches; the fallback servers are tried in configured order; and each attempt
     has its connection.
     */
    ghost predicate Valid()
      reads this
    {
      Consistent(View(), joins) && Settled(config, View()) && Named(View())
    }

    /** What no handler does: go back a phase, change an id once known, reopen or forget a connection. */
    twostate predicate Onward()
      reads this
    {
      && Forward(old(phase), phase)
      && (old(playerId) != -1 ==> playerId == old(playerId))
      && ServersForward(old(View()), View())
      && old(joins) <= joins
    }

    constructor (config: seq<string>)
      ensures Valid() && this.config == config && View() == Initial(config) && joins == []
    {
      this.config := config;
      phase, version, playerId, dimswitch := Handshaking, -1, -1, false;
      fallbackServers, currentTarget, servers, closing := config, None, [], false;
      sent, attempts, tried, joins := [], [], [], [];
      new;
      RunSettled(config, []);
      WorldsOfRun(config, []);
    }

    method WritePacket(out: Out)
      modifies this
      ensures joins == old(joins)
      ensures View() == Send(old(View()), out)
    {
      if phase == Closed {
        return;
      }
      sent := sent + [out];
    }

    method CloseChannel()
      modifies this
      ensures joins == old(joins)
      ensures View() == Session.CloseChannel(old(View()))
    {
      if !closing {
        phase := Closed;
      }
    }

    method Disconnect()
      modifies this
      ensures joins == old(joins)
      ensures View() == Session.Disconnect(old(View()))
    {
      if phase == Login {
        WritePacket(Disconnected);
      } else if phase == Playing {
        WritePacket(Disconnected);
      }
      closing := true;
      CloseChannel();
    }

    method SendDimswitch()
      modifies this
      ensures joins == old(joins)
      ensures View() == Session.SendDimswitch(old(View()))
    {
      if dimswitch {
        return;
      }
      dimswitch := true;
      WritePacket(DimensionSwitch);
    }

    method ResetFallbackQueue()
      modifies this
      ensures joins == old(joins)
      ensures View() == old(View()).(queue := config, tried := [])
    {
      fallbackServers := config;
      tried := [];
    }

    method RemoveFirstFallback()
      requires fallbackServers != []
      modifies this
      ensures joins == old(joins)
      ensures View() == old(View()).(queue := old(fallbackServers)[1..], tried := old(tried) + [old(fallbackServers)[0]])
    {
      tried := tried + [fallbackServers[0]];
      fallbackServers := fallbackServers[1..];
    }

    predicate TargetOpen()
      reads this
    {
      currentTarget.Some? && currentTarget.value < |servers| && servers[currentTarget.value].phase != Closed
    }

    method Connect(target: string)
      modifies this
      ensures joins == old(joins)
      ensures View() == Session.Connect(old(View()), target)
    {
      if TargetOpen() {
        if target == servers[currentTarget.value].name {
          WritePacket(Chat);
          return;
        }
      }
      servers := servers + [Server(target, Handshaking, false, -1)];
      attempts := attempts + [target];
    }

    method ConnectToNextFallback()
      modifies this
      ensures joins == old(joins)
      ensures View() == Session.ConnectToNextFallback(old(View()))
    {
      if fallbackServers == [] {
        Disconnect();
        return;
      }
      var target := fallbackServers[0];
      RemoveFirstFallback();
      Connect(target);
    }

    method SendSuccessfullLoggedIn()
      modifies this
      ensures joins == old(joins)
      ensures View() == LoggedIn(old(View()))
    {
      if !IsSupportedVersion(version) {
        Disconnect();
        return;
      }
      WritePacket(SetCompression);
      if fallbackServers == [] {
        Disconnect();
        return;
      }
      var target := fallbackServers[0];
      RemoveFirstFallback();
      Connect(target);
    }

    // ---------- the server connections ----------

    /** `ServerConnection::closeChannel`. */
    method CloseServerChannel(id: nat)
      requires id < |servers|
      modifies this
      ensures joins == old(joins)
      ensures View() == CloseServer(old(View()), id)
    {
      if servers[id].phase == Closed {
        return;
      }
      servers := servers[id := servers[id].(phase := Closed)];
      currentTarget := None;
      if phase == Login {
        ConnectToNextFallback();
        return;
      }
      if fallbackServers == [] {
        Disconnect();
      } else {
        ConnectToNextFallback();
      }
    }

    /** The catch block of a server connection's reader task. */
    method ServerException(id: nat)
      requires id < |servers|
      modifies this
      ensures joins == old(joins)
      ensures View() == BreakServer(old(View()), id)
    {
      if servers[id].phase != Closed {
        if servers[id].phase == Login {
          if fallbackServers == [] {
            Disconnect();
          }
        } else {
          WritePacket(Chat);
        }
        CloseServerChannel(id);
      }
    }

    /** `connectMethode`. */
    method SocketCreated(id: nat, ok: bool)
      requires id < |servers|
      modifies this
      ensures joins == old(joins)
      ensures var dialed := old(servers)[id].(dialed := true, phase := if ok then Login else old(servers)[id].phase);
              var t := SetServer(old(View()), id, dialed);
              View() == if ok then t else SocketFailed(t)
    {
      servers := servers[id := servers[id].(dialed := true)];
      if !ok {
        if phase == Login {
          ConnectToNextFallback();
        } else if !TargetOpen() {
          Disconnect();
        } else {
          WritePacket(Chat);
        }
        return;
      }
      servers := servers[id := servers[id].(phase := Login)];
    }

    /** Packet 0x00 of a server that is logging in. */
    method HandleRefusal()
      modifies this
      ensures joins == old(joins)
      ensures View() == LoginRefused(old(View()))
    {
      if phase == Login {
        if fallbackServers == [] {
          Disconnect();
        }
        return;
      }
      if !TargetOpen() {
        if fallbackServers == [] {
          Disconnect();
        }
        return;
      }
      WritePacket(Chat);
    }

    /** Packet 0x02 of a server that is logging in. */
    method HandleSuccess(id: nat)
      requires id < |servers|
      modifies this
      ensures joins == old(joins)
      ensures View() == LoginAccepted(config, old(View()), id)
    {
      hide Quiet, Extends, Marks, CloseServer, Session.SendDimswitch, Send;
      servers := servers[id := servers[id].(phase := Playing)];
      ghost var playing := SetServer(old(View()), id, old(servers)[id].(phase := Playing));
      assert View() == playing;
      if TargetOpen() && currentTarget.value != id {
        CloseServerChannel(currentTarget.value);
      }
      currentTarget := Some(id);
      ghost var switched := View();
      if phase == Login {
        WritePacket(LoginSuccess);
        phase := Playing;
      } else {
        SendDimswitch();
      }
      ghost var told := View();
      assert told == if switched.phase == Login then Send(switched, LoginSuccess).(phase := Playing)
                     else Session.SendDimswitch(switched);
      ResetFallbackQueue();
    }

    /** The Join Game branch of `handlePacketPlay`. */
    method HandleJoinGame(id: nat, join: Join)
      requires id < |servers|
      modifies this
      ensures joins == old(joins)
      ensures View() == JoinedGame(old(View()), id, join)
    {
      var del := true;
      if playerId == -1 {
        playerId := join.entityId;
        del := false;
      }
      servers := servers[id := servers[id].(entityId := join.entityId)];
      if del {
        WritePacket(Respawn(join));
      }
      dimswitch := false;
      if del {
        return;
      }
      WritePacket(JoinGame(join));
    }

    /** The kick branch of `handlePacketPlay`. */
    method HandleKick(id: nat)
      requires id < |servers|
      modifies this
      ensures joins == old(joins)
      ensures View() == Kicked(old(View()), id)
    {
      if fallbackServers != [] {
        WritePacket(Chat);
        CloseServerChannel(id);
        return;
      }
      CloseServerChannel(id);
    }

    /** `ServerPacketHandler::handlePacket` and the threads around it. */
    method HandleServer(e: Event)
      requires Valid() && !FromClient(e)
      modifies this
      ensures Valid() && Onward()
      ensures View() == Step(config, old(View()), e)
      ensures ForwardedIds(sent) == ForwardedIds(old(sent)) + OtherPacket(old(View()), e)
    {
      ghost var s := View();
      StepForwards(config, s, e);
      hide ForwardedIds, OtherPacket, Step;
      DispatchServer(e);
      KeepsValid(s, e);
    }

    /** A Join Game is remembered if the client's connection was open when it came. */
    ghost method KeepsValid(s: State, e: Event)
      requires Consistent(s, joins) && Settled(config, s) && Named(s)
      requires View() == Step(config, s, e)
      modifies this`joins
      ensures Valid() && joins == old(joins) + (if e.ServerJoin? && s.Has(e.id, Playing) && s.phase != Closed then [e.join] else [])
      ensures Forward(s.phase, phase) && (s.playerId != -1 ==> playerId == s.playerId) && ServersForward(s, View())
    {
      StepConsistent(config, s, e, joins);
      StepSettled(config, s, e);
      StepServersForward(config, s, e);
      StepForward(config, s, e);
      StepMarks(config, s, e);
      hide *;
      joins := joins + if e.ServerJoin? && s.Has(e.id, Playing) && s.phase != Closed then [e.join] else [];
    }

    method DispatchServer(e: Event)
      requires !FromClient(e)
      modifies this
      ensures View() == Step(config, old(View()), e) && joins == old(joins)
    {
      match e
      case SocketCreated(id, ok) =>
        if id < |servers| && servers[id].phase == Handshaking && !servers[id].dialed { SocketCreated(id, ok); }
      case ServerRefused(id) => if id < |servers| && servers[id].phase == Login { HandleRefusal(); }
      case ServerAccepted(id) => if id < |servers| && servers[id].phase == Login { HandleSuccess(id); }
      case ServerJoin(id, join) => if id < |servers| && servers[id].phase == Playing { HandleJoinGame(id, join); }
      case ServerKick(id) => if id < |servers| && servers[id].phase == Playing { HandleKick(id); }
      case ServerOther(id, packetId) =>
        if id < |servers| && servers[id].phase == Playing { WritePacket(Forwarded(packetId)); }
      case ServerBroken(id) =>
        if id < |servers| && (servers[id].phase == Login || servers[id].phase == Playing) { ServerException(id); }
      case _ =>
    }

    // ---------- the client ----------

    method HandlePacketHandshake(version: int, next: int)
      modifies this
      ensures joins == old(joins)
      ensures View() == old(View()).(version := version,
                                     phase := if next == 1 then Status else if next == 2 then Login else old(phase))
    {
      this.version := version;
      match next {
        case 1 => phase := Status;
        case 2 => phase := Login;
        case _ =>
      }
    }

    /** `ClientPacketHandler::handlePacket` and the threads around it. */
    method HandleClient(e: Event)
      requires Valid() && FromClient(e)
      modifies this
      ensures Valid() && Onward()
      ensures View() == Step(config, old(View()), e)
    {
      ghost var s := View();
      DispatchClient(e);
      KeepsValid(s, e);
    }

    method DispatchClient(e: Event)
      requires FromClient(e)
      modifies this
      ensures View() == Step(config, old(View()), e) && joins == old(joins)
    {
      match e
      case ClientHandshake(version, next) => if phase == Handshaking { HandlePacketHandshake(version, next); }
      case ClientLogin(full, online) =>
        if phase == Login {
          if full {
            Disconnect();
            return;
          }
          if online {
            WritePacket(EncryptionRequest);
          } else {
            SendSuccessfullLoggedIn();
          }
        }
      case ClientVerified(ok) =>
        if phase != Handshaking && phase != Status {
          if ok {
            SendSuccessfullLoggedIn();
          } else {
            Disconnect();
          }
        }
      case ClientInvalid => if phase == Login { Disconnect(); }
      case ClientConnect(name) =>
        if phase == Playing {
          WritePacket(Chat);
          Connect(name);
        }
      case PlayerBroken => CloseChannel();
      case CloseLater =>
        if closing {
          closing := false;
          CloseChannel();
        }
      case _ =>
    }
  }
}
