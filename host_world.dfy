/**
  One multiplayer room of the host (apps/host/src/World.ts).

  A world keeps its players in a map from 1-byte room-local ids to players. Here the map is
  the sequence `members` in insertion order, because the order of a JavaScript Map decides
  both the order of `forEach` and which id `playerId` finds first. Everything a world does
  to the outside (publishing on its topic, sending to one player, asking a player to consume
  a producer, closing a consumer, telling a player to leave, deregistering from the registry)
  is appended to the effect log `log`. `Math.random` is a nondeterministic choice.
*/
module HostWorld {
  import opened Wrappers

  /** Room-local ids are one byte: 0 to 255. */
  const IdSpace: nat := 256

  type PlayerData = map<string, string>
  type ProducerRef = nat
  type ConsumerRef = nat

  /** A connected player, as much of it as a world reads. Its `consumers` and
      `dataConsumers` hold, per world, the consumers it owns keyed by the room-local id of
      the player whose producer each one consumes. */
  class Player {
    var playerData: PlayerData
    var producer: Option<ProducerRef>
    var dataProducer: Option<ProducerRef>
    var consumers: map<World, map<int, ConsumerRef>>
    var dataConsumers: map<World, map<int, ConsumerRef>>

    constructor (data: PlayerData)
      ensures playerData == data && producer == None && dataProducer == None
      ensures consumers == map[] && dataConsumers == map[]
    {
      playerData := data;
      producer, dataProducer := None, None;
      consumers, dataConsumers := map[], map[];
    }
  }

  /** One message of the host's `Response` union; every variant carries a room-local id. */
  datatype Response =
    | PlayerJoined(playerId: int, data: PlayerData)
    | PlayerLeft(playerId: int)
    | ChatMessage(playerId: int, message: string)
    | PlayerDataUpdate(playerId: int, key: string, value: string)
    | Event(playerId: int, payload: seq<int>)

  /** What a world asks of its collaborators, in the order it asks. */
  datatype Effect =
    | Publish(topic: string, response: Response)
    | Send(to: Player, response: Response)
    | Consume(consumer: Player, producer: ProducerRef, uri: string, ownerId: int)
    | ConsumeData(consumer: Player, dataProducer: ProducerRef, uri: string, ownerId: int)
    | CloseConsumer(handle: ConsumerRef)
    | LeaveRequest(player: Player, uri: string)
    | RemoveWorld(uri: string)

  datatype Member = Member(id: int, player: Player)

  function PlayersOf(ms: seq<Member>): set<Player>
  {
    set m | m in ms :: m.player
  }

  function IdsOf(ms: seq<Member>): (ids: seq<int>)
    ensures |ids| == |ms| && forall i :: 0 <= i < |ms| ==> ids[i] == ms[i].id
  {
    if ms == [] then [] else IdsOf(ms[..|ms| - 1]) + [ms[|ms| - 1].id]
  }

  /** Ids in the id space, pairwise distinct: what a world's map keys always are. */
  ghost predicate ValidMembers(ms: seq<Member>)
  {
    && (forall i :: 0 <= i < |ms| ==> 0 <= ms[i].id < IdSpace)
    && (forall i, j :: 0 <= i < j < |ms| ==> ms[i].id != ms[j].id)
  }

  function TopicOf(uri: string): string
  {
    "world/" + uri
  }

  /** Distinct worlds publish on distinct topics. */
  lemma TopicsDistinct(a: string, b: string)
    ensures TopicOf(a) == TopicOf(b) <==> a == b
  {
    if TopicOf(a) == TopicOf(b) {
      assert a == TopicOf(a)[6..] == TopicOf(b)[6..] == b;
    }
  }

  /** `playerId(player)`: the first id, in insertion order, whose entry is this very player. */
  function FirstIdOf(ms: seq<Member>, p: Player): (r: Option<int>)
    ensures r.None? <==> forall i :: 0 <= i < |ms| ==> ms[i].player != p
    ensures r.Some? ==> exists i :: 0 <= i < |ms| && ms[i] == Member(r.value, p)
                                   && forall j :: 0 <= j < i ==> ms[j].player != p
  {
    if ms == [] then None
    else if ms[0].player == p then Some(ms[0].id)
    else
      var r := FirstIdOf(ms[1..], p);
      if r.Some? then
        var i :| 0 <= i < |ms[1..]| && ms[1..][i] == Member(r.value, p)
                 && forall j :: 0 <= j < i ==> ms[1..][j].player != p;
        assert ms[i + 1] == Member(r.value, p);
        r
      else r
  }

  /** `players.set(id, player)` for an id not yet in use keeps the ids valid. */
  lemma InsertKeepsValid(ms: seq<Member>, m: Member)
    requires ValidMembers(ms) && 0 <= m.id < IdSpace && m.id !in IdsOf(ms)
    ensures ValidMembers(ms + [m])
  {
    forall i | 0 <= i < |ms| ensures ms[i].id != m.id {
      assert IdsOf(ms)[i] == ms[i].id;
    }
  }

  /** `players.delete(id)`. */
  function RemoveId(ms: seq<Member>, id: int): (r: seq<Member>)
    ensures forall i :: 0 <= i < |r| ==> r[i] in ms && r[i].id != id
    ensures forall i :: 0 <= i < |ms| && ms[i].id != id ==> ms[i] in r
  {
    if ms == [] then []
    else if ms[0].id == id then RemoveId(ms[1..], id)
    else [ms[0]] + RemoveId(ms[1..], id)
  }

  /** Deleting an id that no entry holds changes nothing. */
  lemma {:induction false} RemoveAbsent(ms: seq<Member>, id: int)
    requires forall i :: 0 <= i < |ms| ==> ms[i].id != id
    ensures RemoveId(ms, id) == ms
  {
    if ms != [] {
      RemoveAbsent(ms[1..], id);
    }
  }

  /** Deletion works entry by entry, so it keeps the order of the entries. */
  lemma {:induction false} RemoveIdAppend(a: seq<Member>, b: seq<Member>, id: int)
    ensures RemoveId(a + b, id) == RemoveId(a, id) + RemoveId(b, id)
  {
    if a == [] {
      assert a + b == b;
    } else {
      assert (a + b)[1..] == a[1..] + b;
      RemoveIdAppend(a[1..], b, id);
    }
  }

  /** With distinct ids, `players.delete(id)` removes exactly the one entry holding `id`,
      and the others keep their insertion order. */
  lemma RemoveIdDeletes(ms: seq<Member>, id: int, k: nat)
    requires ValidMembers(ms) && k < |ms| && ms[k].id == id
    ensures RemoveId(ms, id) == ms[..k] + ms[k + 1..]
  {
    assert ms == ms[..k] + ([ms[k]] + ms[k + 1..]);
    RemoveIdAppend(ms[..k], [ms[k]] + ms[k + 1..], id);
    RemoveAbsent(ms[..k], id);
    RemoveAbsent(ms[k + 1..], id);
  }

  /** Deleting a key keeps the ids valid. */
  lemma {:induction false} RemoveKeepsValid(ms: seq<Member>, id: int)
    requires ValidMembers(ms)
    ensures ValidMembers(RemoveId(ms, id))
  {
    if ms != [] {
      TailValid(ms);
      RemoveKeepsValid(ms[1..], id);
      if ms[0].id != id {
        HeadFresh(ms, id);
        ConsValid(ms[0], RemoveId(ms[1..], id));
      }
    }
  }

  lemma TailValid(ms: seq<Member>)
    requires ValidMembers(ms) && ms != []
    ensures ValidMembers(ms[1..])
  {
    var tail := ms[1..];
    forall i, j | 0 <= i < j < |tail| ensures tail[i].id != tail[j].id {
      assert tail[i] == ms[i + 1] && tail[j] == ms[j + 1];
    }
  }

  lemma HeadFresh(ms: seq<Member>, id: int)
    requires ValidMembers(ms) && ms != []
    ensures var rest := RemoveId(ms[1..], id);
            forall j :: 0 <= j < |rest| ==> rest[j].id != ms[0].id
  {
    var tail, rest := ms[1..], RemoveId(ms[1..], id);
    forall j | 0 <= j < |rest| ensures rest[j].id != ms[0].id {
      var k :| 0 <= k < |tail| && tail[k] == rest[j];
      assert ms[k + 1] == rest[j];
    }
  }

  lemma ConsValid(m: Member, rest: seq<Member>)
    requires ValidMembers(rest) && 0 <= m.id < IdSpace
    requires forall j :: 0 <= j < |rest| ==> rest[j].id != m.id
    ensures ValidMembers([m] + rest)
  {
    var r := [m] + rest;
    forall i, j | 0 <= i < j < |r| ensures r[i].id != r[j].id {
      assert r[j] == rest[j - 1];
      if i > 0 {
        assert r[i] == rest[i - 1];
      }
    }
  }

  // ---------------------------------------------------------------------------------
  // Id allocation (`join`, lines 41-62)
  // ---------------------------------------------------------------------------------

  /** The ids one allocation drew: distinct ids of the id space. */
  ghost predicate DistinctIds(draws: seq<int>)
  {
    && (forall k :: 0 <= k < |draws| ==> 0 <= draws[k] < IdSpace)
    && (forall k, l :: 0 <= k < l < |draws| ==> draws[k] != draws[l])
  }

  /** The allocation loop exactly as written: every draw but the last was taken, and the
      loop stops on the first free draw or on the 256th draw, whichever comes first; on the
      256th draw it gives up even when that draw was free. */
  ghost predicate AsWrittenRun(taken: seq<int>, draws: seq<int>, id: Option<int>)
  {
    && DistinctIds(draws) && 1 <= |draws| <= IdSpace
    && (forall k :: 0 <= k < |draws| - 1 ==> draws[k] in taken)
    && (|draws| < IdSpace ==> draws[|draws| - 1] !in taken)
    && id == (if |draws| < IdSpace then Some(draws[|draws| - 1]) else None)
  }

  /** The allocation loop as intended: it stops on the first free draw and gives up only
      when all 256 draws were taken. */
  ghost predicate CorrectedRun(taken: seq<int>, draws: seq<int>, id: Option<int>)
  {
    && DistinctIds(draws) && 1 <= |draws| <= IdSpace
    && (forall k :: 0 <= k < |draws| - 1 ==> draws[k] in taken)
    && (draws[|draws| - 1] !in taken ==> id == Some(draws[|draws| - 1]))
    && (draws[|draws| - 1] in taken ==> |draws| == IdSpace && id == None)
  }

  /** `d` with every occurrence of `v` dropped. */
  function Without(d: seq<int>, v: int): (r: seq<int>)
    ensures forall x :: x in r <==> x in d && x != v
    ensures v !in d ==> r == d
    ensures v in d ==> |r| < |d|
  {
    if d == [] then []
    else if d[0] == v then Without(d[1..], v)
    else [d[0]] + Without(d[1..], v)
  }

  /** Dropping one id from distinct ids keeps them distinct and removes exactly one. */
  lemma {:induction false} WithoutDistinct(d: seq<int>, v: int)
    requires forall k, l :: 0 <= k < l < |d| ==> d[k] != d[l]
    ensures var r := Without(d, v);
            (forall k, l :: 0 <= k < l < |r| ==> r[k] != r[l]) && (v in d ==> |r| == |d| - 1)
  {
    if d != [] {
      WithoutDistinct(d[1..], v);
      if d[0] != v {
        var rest := Without(d[1..], v);
        assert d[0] !in d[1..];
        assert d[0] !in rest;
        var r := [d[0]] + rest;
        forall k, l | 0 <= k < l < |r| ensures r[k] != r[l] {
          if k == 0 {
            assert r[l] == rest[l - 1];
          } else {
            assert r[k] == rest[k - 1] && r[l] == rest[l - 1];
          }
        }
      } else {
        assert v !in d[1..];
      }
    }
  }

  /** Fewer than n draws never exhaust the ids 0 to n - 1. */
  lemma {:induction false} UntriedExists(tried: seq<int>, n: nat)
    requires |tried| < n
    ensures exists x :: 0 <= x < n && x !in tried
    decreases n
  {
    if n - 1 in tried {
      var rest := Without(tried, n - 1);
      UntriedExists(rest, n - 1);
      var x :| 0 <= x < n - 1 && x !in rest;
      assert x !in tried;
    } else {
      assert 0 <= n - 1 < n && n - 1 !in tried;
    }
  }

  /** Distinct ids below m are at most m many. */
  lemma {:induction false} DistinctBound(d: seq<int>, m: nat)
    requires forall k, l :: 0 <= k < l < |d| ==> d[k] != d[l]
    requires forall k :: 0 <= k < |d| ==> 0 <= d[k] < m
    ensures |d| <= m
    decreases |d|
  {
    if d != [] {
      var v, rest := d[0], d[1..];
      // rename m - 1 to v: the rest then lies below m - 1 and stays distinct
      var renamed := seq(|rest|, i requires 0 <= i < |rest| => if rest[i] == m - 1 then v else rest[i]);
      forall k, l | 0 <= k < l < |renamed| ensures renamed[k] != renamed[l] {
        assert rest[k] == d[k + 1] && rest[l] == d[l + 1];
      }
      forall k | 0 <= k < |renamed| ensures 0 <= renamed[k] < m - 1 {
        assert rest[k] == d[k + 1];
      }
      DistinctBound(renamed, m - 1);
    }
  }

  /** n distinct draws from the ids 0 to n - 1 cover them. */
  lemma {:induction false} DrawsCover(draws: seq<int>, n: nat)
    requires forall k, l :: 0 <= k < l < |draws| ==> draws[k] != draws[l]
    requires forall k :: 0 <= k < |draws| ==> 0 <= draws[k] < n
    requires |draws| == n
    ensures forall x :: 0 <= x < n ==> x in draws
    decreases n
  {
    if n > 0 {
      if n - 1 !in draws {
        DistinctBound(draws, n - 1);
        assert false;
      }
      var rest := Without(draws, n - 1);
      WithoutDistinct(draws, n - 1);
      forall k | 0 <= k < |rest| ensures 0 <= rest[k] < n - 1 {
        assert rest[k] in rest;
        assert rest[k] in draws;
      }
      DrawsCover(rest, n - 1);
    }
  }

  /** The corrected loop returns a free id of the id space, and gives up exactly when every
      id is already taken. */
  lemma CorrectedAllocation(taken: seq<int>, draws: seq<int>, id: Option<int>)
    requires CorrectedRun(taken, draws, id)
    ensures id.Some? ==> 0 <= id.value < IdSpace && id.value !in taken
    ensures id.None? <==> forall x :: 0 <= x < IdSpace ==> x in taken
  {
    var last := draws[|draws| - 1];
    if id.None? {
      DrawsCover(draws, IdSpace);
      forall x | 0 <= x < IdSpace ensures x in taken {
        assert x in draws;
      }
    } else {
      assert last !in taken;
    }
  }

  /** As written, a room holding ids 0..254 can turn a newcomer away although id 255 is
      free: the run that draws 0, 1, ..., 255 in that order finds 255 on its 256th draw and
      gives up. */
  lemma AsWrittenRejectsFreeId()
    ensures var taken := seq(255, i => i);
            var draws := seq(256, i => i);
            255 !in taken && AsWrittenRun(taken, draws, None)
  {
    var taken := seq(255, i => i);
    var draws := seq(256, i => i);
    forall k | 0 <= k < |draws| - 1 ensures draws[k] in taken {
      assert taken[k] == k;
    }
  }

  /** As written, the loop gives up only when at most one id is free: the 255 draws before
      the last were all taken. */
  lemma AsWrittenGivesUpNearlyFull(taken: seq<int>, draws: seq<int>)
    requires AsWrittenRun(taken, draws, None)
    ensures forall x :: 0 <= x < IdSpace && x != draws[IdSpace - 1] ==> x in taken
  {
    DrawsCover(draws, IdSpace);
    forall x | 0 <= x < IdSpace && x != draws[IdSpace - 1] ensures x in taken {
      assert x in draws;
    }
  }

  /** As written, a taken id is free, and giving up leaves at most one id free. */
  lemma AsWrittenAllocation(taken: seq<int>, draws: seq<int>, id: Option<int>)
    requires AsWrittenRun(taken, draws, id)
    ensures id.Some? ==> 0 <= id.value < IdSpace && id.value !in taken
    ensures id.None? ==> forall x, y :: 0 <= x < y < IdSpace ==> x in taken || y in taken
  {
    if id.None? {
      AsWrittenGivesUpNearlyFull(taken, draws);
    }
  }

  /** The loop of `join` as written: draw an untried id, take it if free, count the draw,
      give up after the 256th draw. */
  method AllocateIdAsWritten(playerIds: seq<int>) returns (playerId: Option<int>, ghost draws: seq<int>)
    ensures AsWrittenRun(playerIds, draws, playerId)
    ensures playerId.Some? ==> 0 <= playerId.value < IdSpace && playerId.value !in playerIds
    ensures playerId.None? ==> forall x, y :: 0 <= x < y < IdSpace ==> x in playerIds || y in playerIds
  {
    var triedPlayerIds: seq<int> := [];
    var i := 0;
    playerId := None;
    while playerId.None?
      invariant i == |triedPlayerIds| < IdSpace
      invariant DistinctIds(triedPlayerIds)
      invariant playerId.None? ==> forall k :: 0 <= k < i ==> triedPlayerIds[k] in playerIds
      invariant playerId.Some? ==> 1 <= i && playerId.value == triedPlayerIds[i - 1]
                                   && playerId.value !in playerIds
                                   && forall k :: 0 <= k < i - 1 ==> triedPlayerIds[k] in playerIds
      decreases IdSpace - i
    {
      UntriedExists(triedPlayerIds, IdSpace);
      var id :| 0 <= id < IdSpace && id !in triedPlayerIds;
      triedPlayerIds := triedPlayerIds + [id];
      if id !in playerIds {
        playerId := Some(id);
      }
      i := i + 1;
      if i == IdSpace {
        playerId, draws := None, triedPlayerIds;
        AsWrittenAllocation(playerIds, draws, playerId);
        return;
      }
    }
    draws := triedPlayerIds;
    AsWrittenAllocation(playerIds, draws, playerId);
  }

  /** The loop of `join` as intended: a draw counts towards giving up only when it was taken. */
  method AllocateId(playerIds: seq<int>) returns (playerId: Option<int>, ghost draws: seq<int>)
    ensures CorrectedRun(playerIds, draws, playerId)
    ensures playerId.Some? ==> 0 <= playerId.value < IdSpace && playerId.value !in playerIds
    ensures playerId.None? <==> forall x :: 0 <= x < IdSpace ==> x in playerIds
  {
    var triedPlayerIds: seq<int> := [];
    var i := 0;
    playerId := None;
    while playerId.None?
      invariant i == |triedPlayerIds| <= IdSpace
      invariant playerId.None? ==> i < IdSpace
      invariant DistinctIds(triedPlayerIds)
      invariant playerId.None? ==> forall k :: 0 <= k < i ==> triedPlayerIds[k] in playerIds
      invariant playerId.Some? ==> 1 <= i && playerId.value == triedPlayerIds[i - 1]
                                   && playerId.value !in playerIds
                                   && forall k :: 0 <= k < i - 1 ==> triedPlayerIds[k] in playerIds
      decreases IdSpace - i
    {
      UntriedExists(triedPlayerIds, IdSpace);
      var id :| 0 <= id < IdSpace && id !in triedPlayerIds;
      triedPlayerIds := triedPlayerIds + [id];
      i := i + 1;
      if id !in playerIds {
        playerId := Some(id);
      } else if i == IdSpace {
        draws := triedPlayerIds;
        CorrectedAllocation(playerIds, draws, playerId);
        return;
      }
    }
    draws := triedPlayerIds;
    CorrectedAllocation(playerIds, draws, playerId);
  }

  // ---------------------------------------------------------------------------------
  // What join, leave and setProducer send and close
  // ---------------------------------------------------------------------------------

  /** What the newcomer is told about one other entry: a PlayerJoined with that entry's id
      and data, then a consumer of its producer and of its data producer when it has them. */
  function Introduce(m: Member, newcomer: Player, uri: string): seq<Effect>
    reads m.player
  {
    [Send(newcomer, PlayerJoined(m.id, m.player.playerData))]
    + (if m.player.producer.Some? then [Consume(newcomer, m.player.producer.value, uri, m.id)] else [])
    + (if m.player.dataProducer.Some? then [ConsumeData(newcomer, m.player.dataProducer.value, uri, m.id)] else [])
  }

  /** The `forEach` of `join` (lines 77-95) over the entries `ms`, skipping the newcomer's own. */
  function Replay(ms: seq<Member>, ps: set<Player>, newcomer: Player, uri: string): seq<Effect>
    requires PlayersOf(ms) <= ps
    reads ps
  {
    if ms == [] then []
    else
      var last := ms[|ms| - 1];
      Replay(ms[..|ms| - 1], ps, newcomer, uri)
        + (if last.player == newcomer then [] else Introduce(last, newcomer, uri))
  }

  /** The PlayerJoined notices among some effects, as (recipient, id) pairs. */
  function Notices(es: seq<Effect>): seq<(Player, int)>
  {
    if es == [] then []
    else
      var last := es[|es| - 1];
      Notices(es[..|es| - 1])
        + (if last.Send? && last.response.PlayerJoined? then [(last.to, last.response.playerId)] else [])
  }

  /** The entries other than the newcomer's own, as the notices the newcomer should get. */
  function OthersOf(ms: seq<Member>, newcomer: Player): seq<(Player, int)>
  {
    if ms == [] then []
    else
      var last := ms[|ms| - 1];
      OthersOf(ms[..|ms| - 1], newcomer) + (if last.player == newcomer then [] else [(newcomer, last.id)])
  }

  lemma NoticesAppend(a: seq<Effect>, b: seq<Effect>)
    ensures Notices(a + b) == Notices(a) + Notices(b)
    decreases |b|
  {
    if b == [] {
      assert a + b == a;
    } else {
      assert (a + b)[..|a + b| - 1] == a + b[..|b| - 1];
      NoticesAppend(a, b[..|b| - 1]);
    }
  }

  /** The newcomer receives exactly one PlayerJoined per other entry, in map order, carrying
      that entry's id, and nothing else receives one from the replay. */
  lemma {:induction false} ReplayNoticesOthers(ms: seq<Member>, ps: set<Player>, newcomer: Player, uri: string)
    requires PlayersOf(ms) <= ps
    ensures Notices(Replay(ms, ps, newcomer, uri)) == OthersOf(ms, newcomer)
  {
    if ms != [] {
      var init, last := ms[..|ms| - 1], ms[|ms| - 1];
      assert PlayersOf(init) <= PlayersOf(ms);
      ReplayNoticesOthers(init, ps, newcomer, uri);
      var tail := if last.player == newcomer then [] else Introduce(last, newcomer, uri);
      NoticesAppend(Replay(init, ps, newcomer, uri), tail);
      if last.player != newcomer {
        NoticesOfIntroduce(last, newcomer, uri);
      }
    }
  }

  /** The newcomer is asked to consume the producer and the data producer of every other
      entry that has them, tagged with that entry's id. */
  lemma {:induction false} ReplayConsumes(ms: seq<Member>, ps: set<Player>, newcomer: Player, uri: string)
    requires PlayersOf(ms) <= ps
    ensures forall m :: m in ms && m.player != newcomer && m.player.producer.Some? ==>
              Consume(newcomer, m.player.producer.value, uri, m.id) in Replay(ms, ps, newcomer, uri)
    ensures forall m :: m in ms && m.player != newcomer && m.player.dataProducer.Some? ==>
              ConsumeData(newcomer, m.player.dataProducer.value, uri, m.id) in Replay(ms, ps, newcomer, uri)
  {
    if ms != [] {
      var init, last := ms[..|ms| - 1], ms[|ms| - 1];
      assert PlayersOf(init) <= PlayersOf(ms);
      ReplayConsumes(init, ps, newcomer, uri);
      forall m | m in ms && m != last
        ensures m in init
      {
        var k :| 0 <= k < |ms| && ms[k] == m;
        assert init[k] == m;
      }
    }
  }

  /** Every consume request of the replay is the newcomer's and comes from another entry's
      producer or data producer, tagged with that entry's id. */
  lemma {:induction false} ReplayConsumesOnly(ms: seq<Member>, ps: set<Player>, newcomer: Player, uri: string)
    requires PlayersOf(ms) <= ps
    ensures forall e :: e in Replay(ms, ps, newcomer, uri) && e.Consume? ==>
              e.consumer == newcomer && e.uri == uri
              && exists m :: m in ms && m.player != newcomer && m.player.producer == Some(e.producer) && m.id == e.ownerId
    ensures forall e :: e in Replay(ms, ps, newcomer, uri) && e.ConsumeData? ==>
              e.consumer == newcomer && e.uri == uri
              && exists m :: m in ms && m.player != newcomer && m.player.dataProducer == Some(e.dataProducer) && m.id == e.ownerId
  {
    if ms != [] {
      var init, last := ms[..|ms| - 1], ms[|ms| - 1];
      assert PlayersOf(init) <= PlayersOf(ms);
      ReplayConsumesOnly(init, ps, newcomer, uri);
      assert forall m :: m in init ==> m in ms;
      var before := Replay(init, ps, newcomer, uri);
      var tail := if last.player == newcomer then [] else Introduce(last, newcomer, uri);
      assert Replay(ms, ps, newcomer, uri) == before + tail;
      forall e: Effect | e in tail && (e.Consume? || e.ConsumeData?)
        ensures last.player != newcomer && e.ownerId == last.id && e.consumer == newcomer && e.uri == uri
        ensures e.Consume? ==> last.player.producer == Some(e.producer)
        ensures e.ConsumeData? ==> last.player.dataProducer == Some(e.dataProducer)
      {
      }
    }
  }

  /** Introducing one entry sends exactly one PlayerJoined, to the newcomer, with its id. */
  lemma NoticesOfIntroduce(m: Member, newcomer: Player, uri: string)
    ensures Notices(Introduce(m, newcomer, uri)) == [(newcomer, m.id)]
  {
    var send := [Send(newcomer, PlayerJoined(m.id, m.player.playerData))];
    var rest := Introduce(m, newcomer, uri)[1..];
    assert Introduce(m, newcomer, uri) == send + rest;
    NoticesAppend(send, rest);
    assert Notices(send) == Notices([]) + [(newcomer, m.id)];
    NoticesNone(rest);
  }

  lemma NoticesNone(es: seq<Effect>)
    requires forall i :: 0 <= i < |es| ==> !es[i].Send?
    ensures Notices(es) == []
  {
  }

  /** The notices name every other entry once: one per entry not held by the newcomer. */
  lemma {:induction false} OthersCount(ms: seq<Member>, newcomer: Player)
    ensures |OthersOf(ms, newcomer)| == |ms| - |set i | 0 <= i < |ms| && ms[i].player == newcomer|
  {
    if ms != [] {
      var init := ms[..|ms| - 1];
      OthersCount(init, newcomer);
      var selfAt := set i | 0 <= i < |ms| && ms[i].player == newcomer;
      var selfAtInit := set i | 0 <= i < |init| && init[i].player == newcomer;
      if ms[|ms| - 1].player == newcomer {
        assert selfAt == selfAtInit + {|ms| - 1};
      } else {
        assert selfAt == selfAtInit;
      }
    }
  }

  /** Every notice goes to the newcomer. */
  lemma {:induction false} OthersToNewcomer(ms: seq<Member>, newcomer: Player)
    ensures forall n :: n in OthersOf(ms, newcomer) ==> n.0 == newcomer
  {
    if ms != [] {
      OthersToNewcomer(ms[..|ms| - 1], newcomer);
    }
  }

  /** With distinct ids, no notice carries an id held by the newcomer's own entry. */
  lemma {:induction false} OthersExcludeSelf(ms: seq<Member>, newcomer: Player)
    requires ValidMembers(ms)
    ensures forall i, n :: 0 <= i < |ms| && ms[i].player == newcomer && n in OthersOf(ms, newcomer) ==> n.1 != ms[i].id
  {
    if ms != [] {
      var init := ms[..|ms| - 1];
      assert ValidMembers(init);
      OthersExcludeSelf(init, newcomer);
      forall i, n | 0 <= i < |ms| && ms[i].player == newcomer && n in OthersOf(ms, newcomer)
        ensures n.1 != ms[i].id
      {
        if n in OthersOf(init, newcomer) && i == |ms| - 1 {
          OthersIdsFrom(init, newcomer, n);
        }
      }
    }
  }

  lemma {:induction false} OthersIdsFrom(ms: seq<Member>, newcomer: Player, n: (Player, int))
    requires n in OthersOf(ms, newcomer)
    ensures exists i :: 0 <= i < |ms| && ms[i].id == n.1 && ms[i].player != newcomer
  {
    var init, last := ms[..|ms| - 1], ms[|ms| - 1];
    if n in OthersOf(init, newcomer) {
      OthersIdsFrom(init, newcomer, n);
      var i :| 0 <= i < |init| && init[i].id == n.1 && init[i].player != newcomer;
      assert ms[i] == init[i];
    }
  }

  /** The request that `consumer` consume `producer`: `consumeData` for a data producer,
      `consume` otherwise. */
  function Request(consumer: Player, producer: ProducerRef, uri: string, ownerId: int, data: bool): Effect
  {
    if data then ConsumeData(consumer, producer, uri, ownerId) else Consume(consumer, producer, uri, ownerId)
  }

  /** `setProducer` / `setDataProducer` (lines 172-192): every entry whose player is not the
      owner is asked to consume the new producer, tagged with the owner's id. */
  function Fanout(ms: seq<Member>, owner: Player, ownerId: int, producer: ProducerRef, uri: string, data: bool)
    : (r: seq<Effect>)
    ensures |r| <= |ms|
  {
    if ms == [] then []
    else
      var last := ms[|ms| - 1];
      Fanout(ms[..|ms| - 1], owner, ownerId, producer, uri, data)
        + (if last.player == owner then [] else [Request(last.player, producer, uri, ownerId, data)])
  }

  /** Every other entry is asked to consume the new producer, with `consume` for a producer
      and `consumeData` for a data producer, tagged with the owner's id; nothing else is
      asked, and the owner never consumes its own. */
  lemma {:induction false} FanoutReachesOthers(ms: seq<Member>, owner: Player, ownerId: int,
                                              producer: ProducerRef, uri: string, data: bool)
    ensures forall e :: e in Fanout(ms, owner, ownerId, producer, uri, data) ==>
              (if data then e.ConsumeData? && e.dataProducer == producer else e.Consume? && e.producer == producer)
              && e.consumer != owner && e.consumer in PlayersOf(ms) && e.uri == uri && e.ownerId == ownerId
    ensures forall m :: m in ms && m.player != owner ==>
              Request(m.player, producer, uri, ownerId, data) in Fanout(ms, owner, ownerId, producer, uri, data)
  {
    if ms != [] {
      var init := ms[..|ms| - 1];
      FanoutReachesOthers(init, owner, ownerId, producer, uri, data);
      assert PlayersOf(init) <= PlayersOf(ms);
      forall m | m in ms && m.player != owner
        ensures Request(m.player, producer, uri, ownerId, data) in Fanout(ms, owner, ownerId, producer, uri, data)
      {
        if m != ms[|ms| - 1] {
          var k :| 0 <= k < |ms| && ms[k] == m;
          assert m in init by { assert init[k] == m; }
        }
      }
    }
  }

  /** The consumer `p` holds, in `world`, of the producer of the entry with id `ownerId`. */
  function HeldConsumer(tables: map<World, map<int, ConsumerRef>>, world: World, ownerId: int): seq<Effect>
  {
    if world in tables && ownerId in tables[world] then [CloseConsumer(tables[world][ownerId])] else []
  }

  /** The `forEach` of `leave` (lines 108-122) as written: for every other entry it closes
      the consumer found in the LEAVING player's own tables under the leaving player's own id. */
  function ClosesAsWritten(ms: seq<Member>, leaver: Player, leaverId: int, world: World): seq<Effect>
    reads leaver
  {
    if ms == [] then []
    else
      var last := ms[|ms| - 1];
      ClosesAsWritten(ms[..|ms| - 1], leaver, leaverId, world)
        + (if last.player == leaver then []
           else HeldConsumer(leaver.consumers, world, leaverId) + HeldConsumer(leaver.dataConsumers, world, leaverId))
  }

  /** The same loop as intended: every other entry closes the consumer and the data consumer
      it holds of the leaving player's producers. */
  function Closes(ms: seq<Member>, ps: set<Player>, leaver: Player, leaverId: int, world: World): seq<Effect>
    requires PlayersOf(ms) <= ps
    reads ps
  {
    if ms == [] then []
    else
      var last := ms[|ms| - 1];
      Closes(ms[..|ms| - 1], ps, leaver, leaverId, world)
        + (if last.player == leaver then []
           else HeldConsumer(last.player.consumers, world, leaverId)
                + HeldConsumer(last.player.dataConsumers, world, leaverId))
  }

  /** Whether player `p` holds consumer `c` of the producers of the entry with id `ownerId`. */
  ghost predicate Holds(p: Player, world: World, ownerId: int, c: ConsumerRef)
    reads p
  {
    || (world in p.consumers && ownerId in p.consumers[world] && p.consumers[world][ownerId] == c)
    || (world in p.dataConsumers && ownerId in p.dataConsumers[world] && p.dataConsumers[world][ownerId] == c)
  }

  /** As intended, leaving closes exactly the consumers that the other entries hold of the
      leaving player's producers: each one is closed, and nothing else is. */
  lemma {:induction false} ClosesExactlyHeld(ms: seq<Member>, ps: set<Player>, leaver: Player, leaverId: int, world: World)
    requires PlayersOf(ms) <= ps
    ensures forall e :: e in Closes(ms, ps, leaver, leaverId, world) ==>
              e.CloseConsumer? && exists m :: m in ms && m.player != leaver && Holds(m.player, world, leaverId, e.handle)
    ensures forall m, c :: m in ms && m.player != leaver && Holds(m.player, world, leaverId, c) ==>
              CloseConsumer(c) in Closes(ms, ps, leaver, leaverId, world)
  {
    if ms != [] {
      var init, last := ms[..|ms| - 1], ms[|ms| - 1];
      assert PlayersOf(init) <= PlayersOf(ms);
      ClosesExactlyHeld(init, ps, leaver, leaverId, world);
      forall m, c | m in ms && m.player != leaver && Holds(m.player, world, leaverId, c)
        ensures CloseConsumer(c) in Closes(ms, ps, leaver, leaverId, world)
      {
        if m != last {
          var k :| 0 <= k < |ms| && ms[k] == m;
          assert m in init by { assert init[k] == m; }
        }
      }
    }
  }

  /** As written, when the leaving player holds no consumer under its own id (a player never
      consumes its own producer), nothing is closed, although another entry may still hold a
      consumer of the leaving player's producer; the intended loop closes it. */
  lemma LeaveAsWrittenKeepsConsumers(world: World, a: Player, ida: int, b: Player, idb: int)
    requires a != b
    requires !(world in a.consumers && ida in a.consumers[world])
    requires !(world in a.dataConsumers && ida in a.dataConsumers[world])
    requires world in b.consumers && ida in b.consumers[world]
    ensures ClosesAsWritten([Member(ida, a), Member(idb, b)], a, ida, world) == []
    ensures CloseConsumer(b.consumers[world][ida]) in Closes([Member(ida, a), Member(idb, b)], PlayersOf([Member(ida, a), Member(idb, b)]), a, ida, world)
  {
    var ms := [Member(ida, a), Member(idb, b)];
    assert ms[..1] == [Member(ida, a)];
    assert [Member(ida, a)][..0] == [];
    assert ClosesAsWritten([Member(ida, a)], a, ida, world) == [];
    assert HeldConsumer(a.consumers, world, ida) == [] && HeldConsumer(a.dataConsumers, world, ida) == [];
    ClosesExactlyHeld(ms, PlayersOf(ms), a, ida, world);
    assert Holds(b, world, ida, b.consumers[world][ida]);
  }

  // ---------------------------------------------------------------------------------
  // The world
  // ---------------------------------------------------------------------------------

  class World {
    const uri: string
    var members: seq<Member>
    var log: seq<Effect>

    ghost predicate Valid()
      reads this
    {
      ValidMembers(members)
    }

    constructor (uri: string)
      ensures this.uri == uri && members == [] && log == [] && Valid()
    {
      this.uri := uri;
      members := [];
      log := [];
    }

    /** `topic`: the channel every broadcast of this world is published on. */
    function Topic(): string
    {
      TopicOf(uri)
    }

    /** `playerCount`: the number of keys of the map. */
    function PlayerCount(): (n: nat)
      reads this
      ensures n == |IdsOf(members)|
    {
      |members|
    }

    /** `playerId(player)`. */
    function PlayerId(p: Player): Option<int>
      reads this
    {
      FirstIdOf(members, p)
    }

    /** `join(player)`: allocate a free id (giving up means asking the player to leave and
        changing nothing), insert the player, publish PlayerJoined, replay the other entries
        to the newcomer, then start the newcomer's producers. */
    method Join(player: Player) returns (ghost joinedAs: Option<int>)
      requires Valid()
      modifies this
      ensures Valid()
      ensures joinedAs.None? ==>
                && (forall x :: 0 <= x < IdSpace ==> x in IdsOf(old(members)))
                && members == old(members)
                && log == old(log) + [LeaveRequest(player, uri)]
      ensures joinedAs.Some? ==>
                && 0 <= joinedAs.value < IdSpace && joinedAs.value !in IdsOf(old(members))
                && members == old(members) + [Member(joinedAs.value, player)]
                && log == old(log + JoinLog(members + [Member(joinedAs.value, player)], player, joinedAs.value, uri))
    {
      var playerIds := IdsOf(members);
      var playerId, draws := AllocateId(playerIds);
      if playerId.None? {
        log := log + [LeaveRequest(player, uri)];
        return None;
      }
      joinedAs := playerId;
      Admit(player, playerId.value);
    }

    /** The part of `join` after a free id was found: insert, publish PlayerJoined, replay,
        start the newcomer's producers. */
    method Admit(player: Player, id: int)
      requires Valid() && 0 <= id < IdSpace && id !in IdsOf(members)
      modifies this
      ensures Valid()
      ensures members == old(members) + [Member(id, player)]
      ensures log == old(log + JoinLog(members + [Member(id, player)], player, id, uri))
    {
      InsertKeepsValid(members, Member(id, player));
      var ms := members + [Member(id, player)];
      var es := JoinEffects(ms, player, id);
      members := ms;
      log := log + es;
    }

    /** What `join` does once the newcomer holds entry `id` among `ms`. */
    method JoinEffects(ms: seq<Member>, player: Player, id: int) returns (es: seq<Effect>)
      ensures es == old(JoinLog(ms, player, id, uri))
    {
      var replay := Introductions(ms, player);
      var produced := [];
      if player.producer.Some? {
        produced := ProducerEffects(ms, player, player.producer.value, false);
      }
      if player.dataProducer.Some? {
        var more := ProducerEffects(ms, player, player.dataProducer.value, true);
        produced := produced + more;
      }
      es := [Publish(Topic(), PlayerJoined(id, player.playerData))] + replay + produced;
    }

    /** The `forEach` of `join` over the entries `ms`: the newcomer is told about every other
        entry, in map order, and consumes each one's producers. */
    method Introductions(ms: seq<Member>, player: Player) returns (es: seq<Effect>)
      ensures es == old(Replay(ms, PlayersOf(ms), player, uri))
    {
      ghost var ps := PlayersOf(ms);
      es := [];
      var k := 0;
      while k < |ms|
        invariant 0 <= k <= |ms|
        invariant es == Replay(ms[..k], ps, player, uri)
      {
        var other := ms[k];
        assert ms[..k + 1][..k] == ms[..k];
        if other.player != player {
          var intro := [Send(player, PlayerJoined(other.id, other.player.playerData))];
          if other.player.producer.Some? {
            intro := intro + [Consume(player, other.player.producer.value, uri, other.id)];
          }
          if other.player.dataProducer.Some? {
            intro := intro + [ConsumeData(player, other.player.dataProducer.value, uri, other.id)];
          }
          es := es + intro;
        }
        k := k + 1;
      }
      assert ms[..k] == ms;
    }

    /** `leave(player)`: a player that is not a member changes nothing; otherwise the
        consumers the other entries hold of its producers are closed, its entry is deleted,
        PlayerLeft is published, and a world left empty removes itself from the registry. */
    method Leave(player: Player)
      requires Valid()
      modifies this
      ensures Valid()
      ensures old(PlayerId(player)).None? ==> members == old(members) && log == old(log)
      ensures old(PlayerId(player)).Some? ==>
                var id := old(PlayerId(player)).value;
                && members == RemoveId(old(members), id)
                && log == old(log) + LeaveLog(old(Closes(members, PlayersOf(members), player, id, this)), uri, id, members)
    {
      var playerId := PlayerId(player);
      if playerId.None? {
        return;
      }
      Depart(player, playerId.value);
    }

    /** The part of `leave` after the lookup of the leaving player's id. */
    method Depart(player: Player, id: int)
      requires Valid()
      modifies this
      ensures Valid()
      ensures members == RemoveId(old(members), id)
      ensures log == old(log) + LeaveLog(old(Closes(members, PlayersOf(members), player, id, this)), uri, id, members)
    {
      var closes := ClosingEffects(members, player, id);
      RemoveKeepsValid(members, id);
      members := RemoveId(members, id);
      var deregister := if PlayerCount() == 0 then [RemoveWorld(uri)] else [];
      log := log + (closes + [Publish(Topic(), PlayerLeft(id))] + deregister);
    }

    /** The `forEach` of `leave` over the entries `ms`: every other entry closes what it
        consumes of the producers of the leaving player, whose id is `id`. */
    method ClosingEffects(ms: seq<Member>, player: Player, id: int) returns (es: seq<Effect>)
      ensures es == old(Closes(ms, PlayersOf(ms), player, id, this))
    {
      ghost var ps := PlayersOf(ms);
      es := [];
      var k := 0;
      while k < |ms|
        invariant 0 <= k <= |ms|
        invariant es == Closes(ms[..k], ps, player, id, this)
      {
        var other := ms[k].player;
        assert ms[..k + 1][..k] == ms[..k];
        if other != player {
          if this in other.consumers && id in other.consumers[this] {
            es := es + [CloseConsumer(other.consumers[this][id])];
          }
          if this in other.dataConsumers && id in other.dataConsumers[this] {
            es := es + [CloseConsumer(other.dataConsumers[this][id])];
          }
        }
        k := k + 1;
      }
      assert ms[..k] == ms;
    }

    /** `sendEvent(player, data)`: one Event from a member, nothing from anyone else. */
    method SendEvent(player: Player, data: seq<int>)
      modifies this
      ensures members == old(members)
      ensures log == old(log) + (if PlayerId(player).Some? then [Publish(Topic(), Event(PlayerId(player).value, data))] else [])
    {
      var playerId := PlayerId(player);
      if playerId.None? {
        return;
      }
      log := log + [Publish(Topic(), Event(playerId.value, data))];
    }

    /** `chat(player, message)`: one ChatMessage from a member, nothing from anyone else. */
    method Chat(player: Player, message: string)
      modifies this
      ensures members == old(members)
      ensures log == old(log) + (if PlayerId(player).Some? then [Publish(Topic(), ChatMessage(PlayerId(player).value, message))] else [])
    {
      var playerId := PlayerId(player);
      if playerId.None? {
        return;
      }
      log := log + [Publish(Topic(), ChatMessage(playerId.value, message))];
    }

    /** `setPlayerData(player, key, value)`: one PlayerData update from a member, nothing from
        anyone else. */
    method SetPlayerData(player: Player, key: string, value: string)
      modifies this
      ensures members == old(members)
      ensures log == old(log) + (if PlayerId(player).Some? then [Publish(Topic(), PlayerDataUpdate(PlayerId(player).value, key, value))] else [])
    {
      var playerId := PlayerId(player);
      if playerId.None? {
        return;
      }
      log := log + [Publish(Topic(), PlayerDataUpdate(playerId.value, key, value))];
    }

    /** `setProducer(player, producer)`: every other entry consumes the new producer. */
    method SetProducer(player: Player, producer: ProducerRef)
      modifies this
      ensures members == old(members)
      ensures log == old(log) + ProducerFanout(members, player, producer, uri, false)
    {
      var es := ProducerEffects(members, player, producer, false);
      log := log + es;
    }

    /** `setDataProducer(player, dataProducer)`: every other entry consumes the new data
        producer. */
    method SetDataProducer(player: Player, dataProducer: ProducerRef)
      modifies this
      ensures members == old(members)
      ensures log == old(log) + ProducerFanout(members, player, dataProducer, uri, true)
    {
      var es := ProducerEffects(members, player, dataProducer, true);
      log := log + es;
    }

    /** The body shared by `setProducer` and `setDataProducer` over the entries `ms`: nothing
        for a player without an entry, otherwise one consume request per other entry. */
    method ProducerEffects(ms: seq<Member>, player: Player, producer: ProducerRef, data: bool)
      returns (es: seq<Effect>)
      ensures es == ProducerFanout(ms, player, producer, uri, data)
    {
      var playerId := FirstIdOf(ms, player);
      es := [];
      if playerId.None? {
        return;
      }
      var k := 0;
      while k < |ms|
        invariant 0 <= k <= |ms|
        invariant es == Fanout(ms[..k], player, playerId.value, producer, uri, data)
      {
        assert ms[..k + 1][..k] == ms[..k];
        if ms[k].player != player {
          if data {
            es := es + [ConsumeData(ms[k].player, producer, uri, playerId.value)];
          } else {
            es := es + [Consume(ms[k].player, producer, uri, playerId.value)];
          }
        }
        k := k + 1;
      }
      assert ms[..k] == ms;
    }
  }

  /** What leaving logs after `closes`: PlayerLeft for `id` on the world's topic, then the
      world's deregistration when no entry `remaining`. */
  function LeaveLog(closes: seq<Effect>, uri: string, id: int, remaining: seq<Member>): seq<Effect>
  {
    closes
      + [Publish(TopicOf(uri), PlayerLeft(id))]
      + (if remaining == [] then [RemoveWorld(uri)] else [])
  }

  /** Leaving publishes PlayerLeft right after the closes, and deregisters the world exactly
      when no entry remains. */
  lemma LeaveDeregistersIffEmpty(ms: seq<Member>, leaver: Player, id: int, world: World, remaining: seq<Member>)
    ensures var closes := Closes(ms, PlayersOf(ms), leaver, id, world);
            && (RemoveWorld(world.uri) in LeaveLog(closes, world.uri, id, remaining) <==> remaining == [])
            && LeaveLog(closes, world.uri, id, remaining)[|closes|] == Publish(TopicOf(world.uri), PlayerLeft(id))
  {
    ClosesNeverRemove(ms, PlayersOf(ms), leaver, id, world);
  }

  /** What a successful join logs once the newcomer holds entry `id` among `ms`: PlayerJoined
      published, the replay of the other entries to the newcomer, then the newcomer's own
      producers fanned out to everyone else. */
  function JoinLog(ms: seq<Member>, p: Player, id: int, uri: string): seq<Effect>
    reads p, PlayersOf(ms)
  {
    [Publish(TopicOf(uri), PlayerJoined(id, p.playerData))]
      + Replay(ms, PlayersOf(ms), p, uri)
      + ProducersLog(ms, p, uri)
  }

  /** The fan-out of a joining player's producer and data producer, when it has them, to
      every other entry, tagged with the first id of its entry. */
  function ProducersLog(ms: seq<Member>, p: Player, uri: string): seq<Effect>
    reads p
  {
    (if p.producer.Some? then ProducerFanout(ms, p, p.producer.value, uri, false) else [])
      + (if p.dataProducer.Some? then ProducerFanout(ms, p, p.dataProducer.value, uri, true) else [])
  }

  /** `setProducer` / `setDataProducer` on the entries `ms`: nothing for a player without an
      entry, otherwise the fan-out tagged with its first id. */
  function ProducerFanout(ms: seq<Member>, p: Player, producer: ProducerRef, uri: string, data: bool): seq<Effect>
  {
    var pid := FirstIdOf(ms, p);
    if pid.Some? then Fanout(ms, p, pid.value, producer, uri, data) else []
  }

  /** Closing consumers never deregisters a world. */
  lemma {:induction false} ClosesNeverRemove(ms: seq<Member>, ps: set<Player>, leaver: Player, leaverId: int, world: World)
    requires PlayersOf(ms) <= ps
    ensures forall e :: e in Closes(ms, ps, leaver, leaverId, world) ==> e.CloseConsumer?
  {
    if ms != [] {
      assert PlayersOf(ms[..|ms| - 1]) <= PlayersOf(ms);
      ClosesNeverRemove(ms[..|ms| - 1], ps, leaver, leaverId, world);
    }
  }
}
