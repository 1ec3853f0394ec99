/**
  The engine's table of remote players (packages/engine/src/player/PlayerModule.ts): a map from
  a player's numeric id to the player object created for it. What a player object does when it
  is created (packages/engine/src/player/Player.ts) is not part of this model; a player here is
  an object that remembers its id.
*/
module PlayerModule {
  import opened Wrappers

  class Player {
    const id: int

    constructor (id: int)
      ensures this.id == id
    {
      this.id := id;
    }
  }

  class PlayerModules {
    var players: map<int, Player>

    /** Every player is stored under its own id. */
    ghost predicate Valid()
      reads this, players.Values
    {
      forall id :: id in players ==> players[id].id == id
    }

    constructor ()
      ensures Valid() && players == map[]
    {
      players := map[];
    }

    /** `getPlayer(id)`: the player stored under `id`, or nothing. */
    function GetPlayer(id: int): (r: Option<Player>)
      reads this, players.Values
      requires Valid()
      ensures r.Some? <==> id in players
      ensures r.Some? ==> r.value.id == id
    {
      if id in players then Some(players[id]) else None
    }

    /** `addPlayer(id)`: a new player for `id`, stored under `id` in place of any previous one;
        every other id keeps its player. */
    method AddPlayer(id: int) returns (player: Player)
      requires Valid()
      modifies this
      ensures Valid() && fresh(player) && player.id == id
      ensures players == old(players)[id := player]
      ensures GetPlayer(id) == Some(player)
      ensures forall k :: k != id ==> GetPlayer(k) == old(GetPlayer(k))
    {
      player := new Player(id);
      players := players[id := player];
    }

    /** `removePlayer(id)`: `id` has no player any more; every other id keeps its player, and
        removing an id without a player changes nothing. */
    method RemovePlayer(id: int)
      requires Valid()
      modifies this
      ensures Valid()
      ensures players == old(players) - {id}
      ensures GetPlayer(id).None?
      ensures forall k :: k != id ==> GetPlayer(k) == old(GetPlayer(k))
      ensures id !in old(players) ==> players == old(players)
    {
      players := players - {id};
    }
  }
}
