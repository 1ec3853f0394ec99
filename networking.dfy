/**
  The client's connection to a host (packages/engine/src/networking/NetworkingInterface.ts).

  The interface keeps the current socket, the host server, the number of reconnect attempts
  made since the last successful open, and the location-broadcast interval. The socket, the
  timers and the scene are outside the model: every request the interface makes of them
  (open a socket, close it, send on it, start or clear an interval, wait, add or remove an
  entity, post to the render thread) is appended to the effect log `log`. The events that
  drive the interface (a socket opening, a message arriving, a socket closing, an interval
  firing) are the methods OnOpen, OnMessage, OnClose and Tick; what the reconnect loop
  observes after each wait is the input `ready`.
*/
module Networking {
  import opened Wrappers

  const DefaultHost: string := "wss://host.thewired.space"
  const DevelopmentHost: string := "ws://localhost:4000"
  const PublishHz: nat := 10
  /** `1000 / PUBLISH_HZ`: milliseconds between two location messages. */
  const BroadcastPeriodMs: nat := 1000 / PublishHz
  /** The reconnect loop makes at most this many attempts. */
  const MaxReconnects: nat := 10

  /** A WebSocket to `url`, opened for the space `spaceId` (the space its handlers join). */
  datatype Socket = Socket(handle: nat, url: string, spaceId: string)

  /** The messages the client sends to a host. */
  datatype ToHost = JoinMsg(spaceId: string) | LocationMsg(data: seq<real>)

  /** A message posted to the render thread; the host's JSON payload is passed on as it came. */
  datatype ToRender = ToRender(subject: string, data: string)

  datatype NetEffect =
    | Connect(socket: Socket)
    | CloseSocket(socket: Socket)
    | SendTo(socket: Socket, message: ToHost)
    | StartInterval(timer: nat, socket: Socket, periodMs: nat)
    | ClearInterval(timer: nat)
    | Wait(ms: nat)
    | AddEntity(entityId: string, meshUri: string)
    | RemoveEntity(entityId: string)
    | PostToRender(post: ToRender)

  /** As much of a Lens publication as `joinSpace` reads: the original url of each medium. */
  datatype Media = Media(url: string)
  datatype Publication = Publication(media: seq<Media>)

  datatype NetError = SpaceNotFound | ModelNotFound | NoHostServer

  /** The model url of a space: its second medium's url; a missing publication, a missing
      second medium and an empty url are the two errors `joinSpace` throws. */
  function ModelUrl(publication: Option<Publication>): (r: Result<string, NetError>)
    ensures r == Failure(SpaceNotFound) <==> publication.None?
    ensures r == Failure(ModelNotFound) <==>
              publication.Some? && (|publication.value.media| < 2 || publication.value.media[1].url == "")
    ensures r.Success? ==> r.value != "" && r.value == publication.value.media[1].url
  {
    if publication.None? then Failure(SpaceNotFound)
    else
      var media := publication.value.media;
      if |media| < 2 || media[1].url == "" then Failure(ModelNotFound)
      else Success(media[1].url)
  }

  /** The host a space connects to. The space's own host is never read (it is always null),
      so it is the local host in development and the default host otherwise. */
  function HostFor(development: bool): (host: string)
    ensures host != ""
    ensures development <==> host == DevelopmentHost
  {
    if development then DevelopmentHost else DefaultHost
  }

  /** Component `i` of the position buffer, 0 when the buffer is shorter. */
  function Component(buffer: seq<real>, i: nat): real
  {
    if i < |buffer| then buffer[i] else 0.0
  }

  /** The payload of one location message: the position, then the identity rotation. */
  function LocationPayload(buffer: seq<real>): (r: seq<real>)
    ensures |r| == 7
    ensures forall i :: 0 <= i < 3 ==> r[i] == (if i < |buffer| then buffer[i] else 0.0)
    ensures r[3..] == [0.0, 0.0, 0.0, 1.0]
  {
    [Component(buffer, 0), Component(buffer, 1), Component(buffer, 2), 0.0, 0.0, 0.0, 1.0]
  }

  /** The subject `onmessage` forwards a host message under; None for a subject it ignores. */
  function RenderSubject(subject: string): (r: Option<string>)
    ensures r.Some? <==> subject in {"player_joined", "player_left", "player_location"}
  {
    if subject == "player_joined" then Some("player_joined")
    else if subject == "player_left" then Some("player_left")
    else if subject == "player_location" then Some("set_player_location")
    else None
  }

  /** Messages with different subjects are forwarded under different subjects. */
  lemma RenderSubjectInjective(a: string, b: string)
    requires RenderSubject(a).Some? && RenderSubject(a) == RenderSubject(b)
    ensures a == b
  {
  }

  /** Whether `e` is a socket's join of its own space. */
  predicate IsJoin(e: NetEffect)
  {
    e.SendTo? && e.message == JoinMsg(e.socket.spaceId)
  }

  /** The sockets that have sent the join of their own space among the effects `log`. */
  ghost function Joined(log: seq<NetEffect>): set<Socket>
    decreases |log|
  {
    if log == [] then {}
    else
      var e := log[|log| - 1];
      Joined(log[..|log| - 1]) + (if IsJoin(e) then {e.socket} else {})
  }

  /** Joined holds exactly the sockets whose join is in the log. */
  lemma {:induction false} JoinedMeans(log: seq<NetEffect>, s: Socket)
    ensures s in Joined(log) <==> SendTo(s, JoinMsg(s.spaceId)) in log
    decreases |log|
  {
    if log != [] {
      var init, e := log[..|log| - 1], log[|log| - 1];
      JoinedMeans(init, s);
      assert log == init + [e];
    }
  }

  /** A location message on a socket only once that socket has sent the join of its space. */
  ghost predicate JoinSent(e: NetEffect, before: seq<NetEffect>)
  {
    e.SendTo? && e.message.LocationMsg? ==> e.socket in Joined(before)
  }

  /** Every effect of the log respects JoinSent with respect to the effects before it. */
  ghost predicate JoinFirst(log: seq<NetEffect>)
    decreases |log|
  {
    log == [] || (JoinFirst(log[..|log| - 1]) && JoinSent(log[|log| - 1], log[..|log| - 1]))
  }

  ghost predicate NoLocation(es: seq<NetEffect>)
  {
    forall i :: 0 <= i < |es| ==> !(es[i].SendTo? && es[i].message.LocationMsg?)
  }

  /** JoinFirst says what it is meant to: each location message of the log, at whatever
      position, follows a join of its socket's space on the same socket. */
  lemma {:induction false} JoinFirstMeans(log: seq<NetEffect>)
    requires JoinFirst(log)
    ensures forall i :: 0 <= i < |log| && log[i].SendTo? && log[i].message.LocationMsg? ==>
              SendTo(log[i].socket, JoinMsg(log[i].socket.spaceId)) in log[..i]
    decreases |log|
  {
    if log != [] {
      var init, e := log[..|log| - 1], log[|log| - 1];
      JoinFirstMeans(init);
      forall i | 0 <= i < |init| ensures log[..i] == init[..i] && log[i] == init[i] {
      }
      if e.SendTo? && e.message.LocationMsg? {
        JoinedMeans(init, e.socket);
      }
    }
  }

  /** Appending one effect that respects JoinSent keeps JoinFirst and only adds to Joined. */
  lemma AppendOne(log: seq<NetEffect>, e: NetEffect)
    requires JoinFirst(log) && JoinSent(e, log)
    ensures JoinFirst(log + [e])
    ensures Joined(log + [e]) == Joined(log) + (if IsJoin(e) then {e.socket} else {})
  {
    assert (log + [e])[..|log|] == log;
  }

  /** What `disconnect` asks: close the current socket and clear the interval, when there are. */
  function DisconnectLog(ws: Option<Socket>, interval: Option<nat>): (r: seq<NetEffect>)
    ensures NoLocation(r)
  {
    (if ws.Some? then [CloseSocket(ws.value)] else []) + Cleared(interval)
  }

  /** Clearing the broadcast interval, when one is set. */
  function Cleared(interval: Option<nat>): (r: seq<NetEffect>)
    ensures NoLocation(r)
    ensures |r| <= 1 && (r == [] <==> interval.None?)
  {
    if interval.Some? then [ClearInterval(interval.value)] else []
  }

  /** The timer handle an optional interval holds, as a set. */
  function Handles(interval: Option<nat>): (r: set<nat>)
    ensures forall t :: t in r <==> interval == Some(t)
  {
    if interval.Some? then {interval.value} else {}
  }

  /** What the reconnect loop observes after its wait on attempt `k` (counting from 0):
      whether the current socket is open. An observation that was not supplied is "not open". */
  predicate Observed(ready: seq<bool>, k: nat)
  {
    k < |ready| && ready[k]
  }

  datatype RetryOutcome = RetryOutcome(effects: seq<NetEffect>, ws: Option<Socket>, count: nat, gaveUp: bool, next: nat)

  /** The reconnect loop from attempt `k` on, with current socket `ws` and fresh handles from
      `next`: attempt k + 1 waits 1000 * (k + 1) ms, stops when the current socket is open,
      and otherwise closes it and connects anew; after the tenth attempt the loop ends. */
  function RetryFrom(k: nat, ready: seq<bool>, ws: Option<Socket>, host: string, spaceId: string, next: nat)
    : RetryOutcome
    decreases MaxReconnects - k
  {
    if k >= MaxReconnects then RetryOutcome([], ws, k, true, next)
    else if ws.Some? && Observed(ready, k) then RetryOutcome([Wait(1000 * (k + 1))], ws, k + 1, false, next)
    else
      var s := Socket(next, host, spaceId);
      var rest := RetryFrom(k + 1, ready, Some(s), host, spaceId, next + 1);
      rest.(effects := Reattempt(k, ws, s) + rest.effects)
  }

  /** Attempt k + 1 when the current socket `ws` is not open: wait, close it, connect `s`. */
  function Reattempt(k: nat, ws: Option<Socket>, s: Socket): (r: seq<NetEffect>)
    ensures NoLocation(r)
  {
    [Wait(1000 * (k + 1))] + (if ws.Some? then [CloseSocket(ws.value)] else []) + [Connect(s)]
  }

  /** The waits among some effects, in order. */
  function Waits(es: seq<NetEffect>): seq<nat>
  {
    if es == [] then []
    else Waits(es[..|es| - 1]) + (if es[|es| - 1].Wait? then [es[|es| - 1].ms] else [])
  }

  lemma {:induction false} WaitsAppend(a: seq<NetEffect>, b: seq<NetEffect>)
    ensures Waits(a + b) == Waits(a) + Waits(b)
    decreases |b|
  {
    if b == [] {
      assert a + b == a;
    } else {
      assert (a + b)[..|a + b| - 1] == a + b[..|b| - 1];
      WaitsAppend(a, b[..|b| - 1]);
    }
  }

  lemma WaitsSingle(e: NetEffect)
    ensures Waits([e]) == (if e.Wait? then [e.ms] else [])
  {
    assert [e][..0] == [];
  }

  /** The loop makes between one and ten attempts. */
  lemma {:induction false} RetryCount(k: nat, ready: seq<bool>, ws: Option<Socket>, host: string, spaceId: string, next: nat)
    requires k < MaxReconnects
    ensures k < RetryFrom(k, ready, ws, host, spaceId, next).count <= MaxReconnects
    decreases MaxReconnects - k
  {
    if !(ws.Some? && Observed(ready, k)) && k + 1 < MaxReconnects {
      RetryCount(k + 1, ready, Some(Socket(next, host, spaceId)), host, spaceId, next + 1);
    }
  }

  /** The effects of one attempt that reconnects hold exactly one wait, its own delay. */
  lemma ReattemptWaits(k: nat, ws: Option<Socket>, s: Socket)
    ensures Waits(Reattempt(k, ws, s)) == [1000 * (k + 1)]
  {
    var wait := [Wait(1000 * (k + 1))];
    var closing := if ws.Some? then [CloseSocket(ws.value)] else [];
    WaitsSingle(Wait(1000 * (k + 1)));
    WaitsSingle(Connect(s));
    if ws.Some? {
      WaitsSingle(CloseSocket(ws.value));
    }
    WaitsAppend(wait, closing);
    WaitsAppend(wait + closing, [Connect(s)]);
  }

  /** One attempt contributes exactly its own wait. */
  lemma RetryWaitsStep(k: nat, ready: seq<bool>, ws: Option<Socket>, host: string, spaceId: string, next: nat)
    requires k < MaxReconnects && !(ws.Some? && Observed(ready, k))
    ensures var s := Socket(next, host, spaceId);
            && Waits(RetryFrom(k, ready, ws, host, spaceId, next).effects)
               == [1000 * (k + 1)] + Waits(RetryFrom(k + 1, ready, Some(s), host, spaceId, next + 1).effects)
            && RetryFrom(k, ready, ws, host, spaceId, next).count == RetryFrom(k + 1, ready, Some(s), host, spaceId, next + 1).count
  {
    var s := Socket(next, host, spaceId);
    var rest := RetryFrom(k + 1, ready, Some(s), host, spaceId, next + 1);
    assert RetryFrom(k, ready, ws, host, spaceId, next).effects == Reattempt(k, ws, s) + rest.effects;
    ReattemptWaits(k, ws, s);
    WaitsAppend(Reattempt(k, ws, s), rest.effects);
  }

  /** An attempt that finds the socket open is the last, and waits once. */
  lemma RetryWaitsStop(k: nat, ready: seq<bool>, ws: Option<Socket>, host: string, spaceId: string, next: nat)
    requires k < MaxReconnects && ws.Some? && Observed(ready, k)
    ensures Waits(RetryFrom(k, ready, ws, host, spaceId, next).effects) == [1000 * (k + 1)]
    ensures RetryFrom(k, ready, ws, host, spaceId, next).count == k + 1
  {
    WaitsSingle(Wait(1000 * (k + 1)));
  }

  /** The delays of attempts k + 1 to n: 1000 ms times the attempt's number. */
  function Delays(k: nat, n: nat): (r: seq<nat>)
    ensures |r| == if k < n then n - k else 0
    ensures forall i :: 0 <= i < |r| ==> r[i] == 1000 * (k + i + 1)
    decreases n - k
  {
    if k < n then [1000 * (k + 1)] + Delays(k + 1, n) else []
  }

  /** The waits of the loop from attempt k on are the delays of the attempts it makes. */
  lemma {:induction false} RetryWaits(k: nat, ready: seq<bool>, ws: Option<Socket>, host: string, spaceId: string, next: nat)
    requires k < MaxReconnects
    ensures var r := RetryFrom(k, ready, ws, host, spaceId, next);
            Waits(r.effects) == Delays(k, r.count)
    decreases MaxReconnects - k
  {
    if ws.Some? && Observed(ready, k) {
      RetryWaitsStop(k, ready, ws, host, spaceId, next);
    } else {
      var s := Socket(next, host, spaceId);
      RetryWaitsStep(k, ready, ws, host, spaceId, next);
      var rest := RetryFrom(k + 1, ready, Some(s), host, spaceId, next + 1);
      if k + 1 < MaxReconnects {
        RetryWaits(k + 1, ready, Some(s), host, spaceId, next + 1);
        RetryCount(k + 1, ready, Some(s), host, spaceId, next + 1);
      } else {
        assert rest.effects == [] && rest.count == k + 1;
        assert Waits(rest.effects) == [];
      }
      assert Delays(k, rest.count) == [1000 * (k + 1)] + Delays(k + 1, rest.count);
    }
  }

  /** Whether attempt `k` finds the current socket open: the first attempt looks at the socket
      that closed, the later ones at the socket the attempt before opened. */
  predicate Reopened(ready: seq<bool>, ws: Option<Socket>, k: nat)
  {
    Observed(ready, k) && (k > 0 || ws.Some?)
  }

  /** The loop gives up exactly when none of the ten attempts finds the socket open, and
      otherwise stops at the first attempt that does. */
  lemma {:induction false} RetryStopsAtFirstOpen(k: nat, ready: seq<bool>, ws: Option<Socket>, host: string, spaceId: string, next: nat)
    requires k < MaxReconnects
    requires k > 0 ==> ws.Some?
    ensures var r := RetryFrom(k, ready, ws, host, spaceId, next);
            && (r.gaveUp <==> forall j :: k <= j < MaxReconnects ==> !Reopened(ready, ws, j))
            && (!r.gaveUp ==> 0 < r.count && Reopened(ready, ws, r.count - 1)
                              && forall j :: k <= j < r.count - 1 ==> !Reopened(ready, ws, j))
    decreases MaxReconnects - k
  {
    if !(ws.Some? && Observed(ready, k)) {
      assert !Reopened(ready, ws, k);
      var s := Socket(next, host, spaceId);
      if k + 1 < MaxReconnects {
        RetryStopsAtFirstOpen(k + 1, ready, Some(s), host, spaceId, next + 1);
        assert forall j :: k + 1 <= j ==> (Reopened(ready, Some(s), j) <==> Reopened(ready, ws, j));
      }
    } else {
      assert Reopened(ready, ws, k);
    }
  }

  /** When the loop gives up, the last thing it did was to connect a socket, which is then the
      current one: `disconnect` follows the tenth connection straight away and closes it. */
  lemma {:induction false} GiveUpAfterLastConnect(k: nat, ready: seq<bool>, ws: Option<Socket>, host: string, spaceId: string, next: nat)
    requires k < MaxReconnects
    ensures var r := RetryFrom(k, ready, ws, host, spaceId, next);
            r.gaveUp ==> r.ws.Some? && |r.effects| > 0 && r.effects[|r.effects| - 1] == Connect(r.ws.value)
    decreases MaxReconnects - k
  {
    if !(ws.Some? && Observed(ready, k)) && k + 1 < MaxReconnects {
      var s := Socket(next, host, spaceId);
      GiveUpAfterLastConnect(k + 1, ready, Some(s), host, spaceId, next + 1);
    }
  }

  /** The reconnect loop sends no location message, and every socket it opens is fresh. */
  lemma {:induction false} RetryNoLocation(k: nat, ready: seq<bool>, ws: Option<Socket>, host: string, spaceId: string, next: nat)
    ensures var r := RetryFrom(k, ready, ws, host, spaceId, next);
            && NoLocation(r.effects) && next <= r.next
            && (r.ws != ws ==> r.ws.Some? && next <= r.ws.value.handle < r.next)
    decreases MaxReconnects - k
  {
    if k < MaxReconnects && !(ws.Some? && Observed(ready, k)) {
      var s := Socket(next, host, spaceId);
      RetryNoLocation(k + 1, ready, Some(s), host, spaceId, next + 1);
      var rest := RetryFrom(k + 1, ready, Some(s), host, spaceId, next + 1);
      var all := Reattempt(k, ws, s) + rest.effects;
      forall i | 0 <= i < |all| ensures !(all[i].SendTo? && all[i].message.LocationMsg?) {
        if i >= |Reattempt(k, ws, s)| {
          assert all[i] == rest.effects[i - |Reattempt(k, ws, s)|];
        }
      }
    }
  }

  /** An attempt that finds the socket open ends the loop after its wait. */
  lemma RetryStops(k: nat, ready: seq<bool>, ws: Option<Socket>, host: string, spaceId: string, next: nat)
    requires k < MaxReconnects && ws.Some? && Observed(ready, k)
    ensures RetryFrom(k, ready, ws, host, spaceId, next) == RetryOutcome([Wait(1000 * (k + 1))], ws, k + 1, false, next)
  {
  }

  /** An attempt that does not find the socket open reconnects and leaves the rest to the
      next attempt. */
  lemma RetryReattempts(k: nat, ready: seq<bool>, ws: Option<Socket>, host: string, spaceId: string, next: nat)
    requires k < MaxReconnects && !(ws.Some? && Observed(ready, k))
    ensures var s := Socket(next, host, spaceId);
            var rest := RetryFrom(k + 1, ready, Some(s), host, spaceId, next + 1);
            RetryFrom(k, ready, ws, host, spaceId, next) == rest.(effects := Reattempt(k, ws, s) + rest.effects)
  {
  }

  /** Past the tenth attempt the loop has given up. */
  lemma RetryGivesUp(k: nat, ready: seq<bool>, ws: Option<Socket>, host: string, spaceId: string, next: nat)
    requires k >= MaxReconnects
    ensures RetryFrom(k, ready, ws, host, spaceId, next) == RetryOutcome([], ws, k, true, next)
  {
  }

  lemma Associative(a: seq<NetEffect>, b: seq<NetEffect>, c: seq<NetEffect>)
    ensures a + (b + c) == a + b + c
  {
  }

  class NetworkingInterface {
    var ws: Option<Socket>
    var spaceEntityId: Option<string>
    var broadcastInterval: Option<nat>
    var hostServer: Option<string>
    var reconnectCount: nat
    var playerPositionBuffer: Option<seq<real>>
    /** The next unused socket or timer handle. */
    var nextHandle: nat
    var log: seq<NetEffect>
    /** The intervals started and not yet cleared, with the socket each one's callback
        captured and sends on. */
    var intervals: map<nat, Socket>

    ghost predicate Valid()
      reads this
    {
      && reconnectCount <= MaxReconnects
      && (ws.Some? ==> ws.value.handle < nextHandle)
      && (forall t :: t in intervals ==> intervals[t] in Joined(log))
      && JoinFirst(log)
    }

    constructor ()
      ensures Valid()
      ensures ws.None? && spaceEntityId.None? && broadcastInterval.None? && hostServer.None?
      ensures reconnectCount == 0 && playerPositionBuffer.None? && log == []
    {
      ws, spaceEntityId, broadcastInterval, hostServer := None, None, None, None;
      reconnectCount := 0;
      playerPositionBuffer := None;
      nextHandle := 0;
      log := [];
      intervals := map[];
    }

    /** Record one effect that respects JoinSent. */
    method Emit(e: NetEffect)
      requires Valid() && JoinSent(e, log)
      modifies this`log
      ensures Valid() && log == old(log) + [e]
      ensures Joined(log) == Joined(old(log)) + (if IsJoin(e) then {e.socket} else {})
    {
      AppendOne(log, e);
      log := log + [e];
    }

    /** `joinSpace(spaceId)` once the publication query has answered `publication`, with a
        fresh entity id for the space's model: the reconnect count is reset in every case;
        a missing publication or model url is an error; otherwise the model is added to the
        scene and the client connects to the host. */
    method JoinSpace(spaceId: string, publication: Option<Publication>, entityId: string, development: bool)
      returns (r: Result<Socket, NetError>)
      requires Valid()
      modifies this`reconnectCount, this`spaceEntityId, this`log, this`hostServer, this`ws, this`nextHandle
      ensures Valid() && reconnectCount == 0
      ensures r.Failure? <==> ModelUrl(publication).Failure?
      ensures r.Failure? ==> r.error == ModelUrl(publication).error && log == old(log)
                             && ws == old(ws) && hostServer == old(hostServer)
                             && spaceEntityId == old(spaceEntityId) && nextHandle == old(nextHandle)
      ensures r.Success? ==>
                && r.value == Socket(old(nextHandle), HostFor(development), spaceId)
                && nextHandle == old(nextHandle) + 1
                && ws == Some(r.value) && hostServer == Some(HostFor(development))
                && spaceEntityId == Some(entityId)
                && log == old(log) + [AddEntity(entityId, ModelUrl(publication).value), Connect(r.value)]
    {
      reconnectCount := 0;
      var url := ModelUrl(publication);
      if url.Failure? {
        return Failure(url.error);
      }
      r := EnterSpace(spaceId, entityId, url.value, development);
    }

    /** The rest of `joinSpace` once the model url is known: add the model to the scene, set
        the host server and connect to it. */
    method EnterSpace(spaceId: string, entityId: string, url: string, development: bool)
      returns (r: Result<Socket, NetError>)
      requires Valid()
      modifies this`spaceEntityId, this`log, this`hostServer, this`ws, this`nextHandle
      ensures Valid() && nextHandle == old(nextHandle) + 1
      ensures && r == Success(Socket(old(nextHandle), HostFor(development), spaceId))
              && ws == Some(r.value) && hostServer == Some(HostFor(development))
              && spaceEntityId == Some(entityId)
              && log == old(log) + [AddEntity(entityId, url), Connect(r.value)]
    {
      spaceEntityId := Some(entityId);
      Emit(AddEntity(entityId, url));
      hostServer := Some(HostFor(development));
      r := ConnectToHost(spaceId);
    }

    /** `connectToHost(spaceId)`: an error without a host server; otherwise a new socket to
        the host, for that space, becomes the current one. */
    method ConnectToHost(spaceId: string) returns (r: Result<Socket, NetError>)
      requires Valid()
      modifies this`ws, this`nextHandle, this`log
      ensures Valid()
      ensures !Truthy(old(hostServer)) ==>
                r == Failure(NoHostServer) && ws == old(ws) && log == old(log) && nextHandle == old(nextHandle)
      ensures Truthy(old(hostServer)) ==>
                && r == Success(Socket(old(nextHandle), old(hostServer).value, spaceId))
                && ws == Some(r.value) && nextHandle == old(nextHandle) + 1
                && log == old(log) + [Connect(r.value)]
    {
      if !Truthy(hostServer) {
        return Failure(NoHostServer);
      }
      var s := Socket(nextHandle, hostServer.value, spaceId);
      nextHandle := nextHandle + 1;
      ws := Some(s);
      Emit(Connect(s));
      r := Success(s);
    }

    /** `onopen` of socket `s`: reset the count, join the space, start broadcasting. */
    method OnOpen(s: Socket)
      requires Valid()
      modifies this`reconnectCount, this`log, this`nextHandle, this`broadcastInterval, this`intervals
      ensures Valid() && reconnectCount == 0 && nextHandle == old(nextHandle) + 1
      ensures broadcastInterval == Some(old(nextHandle)) && intervals == old(intervals)[old(nextHandle) := s]
      ensures log == old(log) + [SendTo(s, JoinMsg(s.spaceId)), StartInterval(old(nextHandle), s, BroadcastPeriodMs)]
    {
      reconnectCount := 0;
      SendJoin(s);
      StartBroadcast(s);
    }

    /** Send the join of `s`'s space on `s`; `s` has then joined. */
    method SendJoin(s: Socket)
      requires Valid()
      modifies this`log
      ensures Valid() && s in Joined(log)
      ensures log == old(log) + [SendTo(s, JoinMsg(s.spaceId))]
    {
      var join := SendTo(s, JoinMsg(s.spaceId));
      Emit(join);
    }

    /** Start the broadcast interval on a socket that has joined. */
    method StartBroadcast(s: Socket)
      requires Valid() && s in Joined(log)
      modifies this`log, this`nextHandle, this`broadcastInterval, this`intervals
      ensures Valid() && nextHandle == old(nextHandle) + 1
      ensures broadcastInterval == Some(old(nextHandle)) && intervals == old(intervals)[old(nextHandle) := s]
      ensures log == old(log) + [StartInterval(old(nextHandle), s, BroadcastPeriodMs)]
    {
      var t := nextHandle;
      nextHandle := nextHandle + 1;
      broadcastInterval := Some(t);
      Emit(StartInterval(t, s, BroadcastPeriodMs));
      intervals := intervals[t := s];
    }

    /** One firing of the broadcast interval `t`: nothing without a position buffer, otherwise
        one location message on the socket the interval was started for. */
    method Tick(t: nat)
      requires Valid() && t in intervals
      modifies this`log
      ensures Valid()
      ensures playerPositionBuffer.None? ==> log == old(log)
      ensures playerPositionBuffer.Some? ==>
                log == old(log) + [SendTo(intervals[t], LocationMsg(LocationPayload(playerPositionBuffer.value)))]
    {
      if playerPositionBuffer.None? {
        return;
      }
      var s := intervals[t];
      var message := SendTo(s, LocationMsg(LocationPayload(playerPositionBuffer.value)));
      Emit(message);
    }

    /** `onmessage`: the three known subjects are forwarded to the render thread with their
        payload, under the render thread's subject; any other message is ignored. */
    method OnMessage(subject: string, data: string)
      requires Valid()
      modifies this`log
      ensures Valid()
      ensures RenderSubject(subject).None? ==> log == old(log)
      ensures RenderSubject(subject).Some? ==>
                log == old(log) + [PostToRender(ToRender(RenderSubject(subject).value, data))]
    {
      var forward := RenderSubject(subject);
      if forward.Some? {
        Emit(PostToRender(ToRender(forward.value, data)));
      }
    }

    /** `disconnect`: close and forget the socket, reset the count, forget the host server,
        clear the interval. */
    method Disconnect()
      requires Valid()
      modifies this`ws, this`reconnectCount, this`hostServer, this`log, this`intervals
      ensures Valid()
      ensures ws.None? && reconnectCount == 0 && hostServer.None?
      ensures log == old(log) + DisconnectLog(old(ws), broadcastInterval)
      ensures intervals == old(intervals) - Handles(broadcastInterval)
    {
      if ws.Some? {
        Emit(CloseSocket(ws.value));
      }
      ws := None;
      reconnectCount := 0;
      hostServer := None;
      ClearBroadcast();
    }

    /** Clear the broadcast interval when one is set; the timer then sends nothing more. */
    method ClearBroadcast()
      requires Valid()
      modifies this`log, this`intervals
      ensures Valid()
      ensures log == old(log) + Cleared(broadcastInterval)
      ensures intervals == old(intervals) - Handles(broadcastInterval)
    {
      if broadcastInterval.Some? {
        Emit(ClearInterval(broadcastInterval.value));
        intervals := intervals - {broadcastInterval.value};
      }
    }

    /** `leaveSpace`: disconnect, then remove the space's model from the scene if there is one. */
    method LeaveSpace()
      requires Valid()
      modifies this`ws, this`reconnectCount, this`hostServer, this`log, this`intervals, this`spaceEntityId
      ensures Valid()
      ensures ws.None? && reconnectCount == 0 && hostServer.None?
      ensures intervals == old(intervals) - Handles(broadcastInterval)
      ensures Truthy(old(spaceEntityId)) ==>
                spaceEntityId.None?
                && log == old(log) + DisconnectLog(old(ws), old(broadcastInterval)) + [RemoveEntity(old(spaceEntityId).value)]
      ensures !Truthy(old(spaceEntityId)) ==>
                spaceEntityId == old(spaceEntityId)
                && log == old(log) + DisconnectLog(old(ws), old(broadcastInterval))
    {
      Disconnect();
      if Truthy(spaceEntityId) {
        Emit(RemoveEntity(spaceEntityId.value));
        spaceEntityId := None;
      }
    }

    /** `setPlayerPositionBuffer`. */
    method SetPlayerPositionBuffer(position: seq<real>)
      requires Valid()
      modifies this`playerPositionBuffer
      ensures Valid() && playerPositionBuffer == Some(position)
    {
      playerPositionBuffer := Some(position);
    }

    /** `onclose` of socket `s`, whose handlers join `s.spaceId`: clear the interval; then,
        unless there is no host server or a reconnect loop is already under way, run the
        reconnect loop, and give up with `disconnect` after its tenth attempt. */
    method OnClose(s: Socket, ready: seq<bool>)
      requires Valid()
      modifies this`ws, this`reconnectCount, this`hostServer, this`log, this`intervals, this`nextHandle
      ensures Valid()
      ensures intervals == old(intervals) - Handles(broadcastInterval)
      ensures !Truthy(old(hostServer)) || old(reconnectCount) > 0 ==>
                && log == old(log) + Cleared(broadcastInterval)
                && ws == old(ws) && reconnectCount == old(reconnectCount) && hostServer == old(hostServer)
      ensures Truthy(old(hostServer)) && old(reconnectCount) == 0 ==>
                var r := RetryFrom(0, ready, old(ws), old(hostServer).value, s.spaceId, old(nextHandle));
                var cleared := Cleared(broadcastInterval);
                && (r.gaveUp ==> && log == old(log) + cleared + r.effects + DisconnectLog(r.ws, broadcastInterval)
                                 && ws.None? && reconnectCount == 0 && hostServer.None?)
                && (!r.gaveUp ==> && log == old(log) + cleared + r.effects
                                  && ws == r.ws && reconnectCount == r.count && hostServer == old(hostServer))
    {
      ClearBroadcast();
      if !Truthy(hostServer) || reconnectCount > 0 {
        return;
      }
      RetryOrGiveUp(s.spaceId, ready);
    }

    /** The part of `onclose` after the interval is cleared, once a loop may start: the
        reconnect loop, then `disconnect` when it gives up. */
    method RetryOrGiveUp(spaceId: string, ready: seq<bool>)
      requires Valid() && Truthy(hostServer) && reconnectCount == 0
      modifies this`ws, this`reconnectCount, this`hostServer, this`log, this`intervals, this`nextHandle
      ensures Valid()
      ensures var r := RetryFrom(0, ready, old(ws), old(hostServer).value, spaceId, old(nextHandle));
              && (r.gaveUp ==> && log == old(log) + r.effects + DisconnectLog(r.ws, broadcastInterval)
                               && intervals == old(intervals) - Handles(broadcastInterval)
                               && ws.None? && reconnectCount == 0 && hostServer.None?)
              && (!r.gaveUp ==> && log == old(log) + r.effects && intervals == old(intervals)
                                && ws == r.ws && reconnectCount == r.count && hostServer == old(hostServer))
    {
      var gaveUp := Reconnect(spaceId, ready);
      if gaveUp {
        Disconnect();
      }
    }

    /** The reconnect loop of `onclose` for the space `spaceId`; whether it ran out of
        attempts rather than finding the socket open. */
    method Reconnect(spaceId: string, ready: seq<bool>) returns (gaveUp: bool)
      requires Valid() && Truthy(hostServer) && reconnectCount == 0
      modifies this`reconnectCount, this`ws, this`nextHandle, this`log
      ensures Valid()
      ensures var r := RetryFrom(0, ready, old(ws), old(hostServer).value, spaceId, old(nextHandle));
              && log == old(log) + r.effects && ws == r.ws && reconnectCount == r.count
              && gaveUp == r.gaveUp && nextHandle == r.next
    {
      ghost var start := log;
      ghost var total := RetryFrom(0, ready, ws, hostServer.value, spaceId, nextHandle);
      ghost var host := hostServer.value;
      assert start + total.effects == log + total.effects;
      while reconnectCount < MaxReconnects
        invariant Valid() && hostServer == Some(host) && host != ""
        invariant Tracks(start, total, ready, host, spaceId)
        decreases MaxReconnects - reconnectCount
      {
        var stop := TrackedAttempt(spaceId, ready, start, total, host);
        if stop {
          return false;
        }
      }
      RetryGivesUp(reconnectCount, ready, ws, host, spaceId, nextHandle);
      assert log + [] == log;
      return true;
    }

    /** The log so far followed by what the loop still does from the current attempt on is
        the whole loop's effects, and the loop ends in the same state. */
    ghost predicate Tracks(start: seq<NetEffect>, total: RetryOutcome, ready: seq<bool>, host: string, spaceId: string)
      reads this
    {
      var rest := RetryFrom(reconnectCount, ready, ws, host, spaceId, nextHandle);
      && start + total.effects == log + rest.effects
      && rest.(effects := []) == total.(effects := [])
    }

    /** One attempt of the reconnect loop, followed against the loop's outcome `total`. */
    method TrackedAttempt(spaceId: string, ready: seq<bool>, ghost start: seq<NetEffect>, ghost total: RetryOutcome,
                          ghost host: string)
      returns (stop: bool)
      requires Valid() && hostServer == Some(host) && host != "" && reconnectCount < MaxReconnects
      requires Tracks(start, total, ready, host, spaceId)
      modifies this`reconnectCount, this`ws, this`nextHandle, this`log
      ensures Valid() && hostServer == Some(host)
      ensures stop ==> && log == start + total.effects && ws == total.ws && reconnectCount == total.count
                       && !total.gaveUp && nextHandle == total.next
      ensures !stop ==> Tracks(start, total, ready, host, spaceId) && reconnectCount == old(reconnectCount) + 1
    {
      ghost var before, k, ws0, next0 := log, reconnectCount, ws, nextHandle;
      stop := Attempt(spaceId, ready);
      if stop {
        assert log == start + total.effects && ws == total.ws && reconnectCount == total.count
               && !total.gaveUp && nextHandle == total.next by {
          RetryStops(k, ready, ws0, host, spaceId, next0);
        }
        return;
      }
      assert Tracks(start, total, ready, host, spaceId) by {
        RetryReattempts(k, ready, ws0, host, spaceId, next0);
        Associative(before, Reattempt(k, ws0, ws.value), RetryFrom(k + 1, ready, ws, host, spaceId, nextHandle).effects);
      }
    }

    /** One attempt of the reconnect loop: count it, wait 1000 ms times its number, stop if the
        current socket is open, otherwise close it and connect anew. */
    method Attempt(spaceId: string, ready: seq<bool>) returns (stop: bool)
      requires Valid() && Truthy(hostServer) && reconnectCount < MaxReconnects
      modifies this`reconnectCount, this`ws, this`nextHandle, this`log
      ensures Valid()
      ensures reconnectCount == old(reconnectCount) + 1
      ensures stop == (old(ws).Some? && Observed(ready, old(reconnectCount)))
      ensures stop ==> log == old(log) + [Wait(1000 * reconnectCount)] && ws == old(ws) && nextHandle == old(nextHandle)
      ensures !stop ==>
                var socket := Socket(old(nextHandle), old(hostServer).value, spaceId);
                && log == old(log) + Reattempt(old(reconnectCount), old(ws), socket)
                && ws == Some(socket) && nextHandle == old(nextHandle) + 1
    {
      reconnectCount := reconnectCount + 1;
      var count := reconnectCount;
      Emit(Wait(1000 * count));
      if ws.Some? && Observed(ready, count - 1) {
        return true;
      }
      if ws.Some? {
        Emit(CloseSocket(ws.value));
      }
      ws := None;
      var connected := ConnectToHost(spaceId);
      return false;
    }
  }
}
