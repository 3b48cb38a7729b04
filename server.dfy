/**
 * The lobby server of app/server.py: the shared tables as the fields of one
 * object, and one atomic method per Socket.IO handler that updates them in
 * place. Each method is proved to do what the matching step function of
 * ServerState says and to keep the invariant `Valid()`.
 */
module Server {
  import opened Wrappers
  import opened PyStrip
  import opened Colors
  import opened InsertionOrder
  import opened ServerState
  import ServerProperties

  class GameServer {
    var order: seq<Sid>                  // key order of `players`
    var players: map<Sid, Player>
    var ipToSid: map<Ip, Sid>
    var playerNames: map<Ip, string>
    var usedColors: set<Color>
    var game: GameState

    /** The tables as one value. */
    function Tables(): State
      reads this
    {
      State(order, players, ipToSid, playerNames, usedColors, game)
    }

    ghost predicate Valid()
      reads this
    {
      Inv(Tables())
    }

    /** The tables as the module is loaded: no players, nothing remembered, waiting for players. */
    constructor ()
      ensures Tables() == Initial && Valid()
    {
      order, players, ipToSid, playerNames := [], map[], map[], map[];
      usedColors := {};
      game := InitialGame;
    }

    /**
     * `handle_join`: `rawName` is `data.get('name', '')`, `pick` the index
     * `random.choice` draws among the free pool colours and `fallback` the
     * three `random.randint(50, 255)` draws.
     */
    method Join(rawName: string, ip: Ip, newSid: Sid, pick: nat, fallback: Color, now: int)
      returns (reply: JoinReply)
      requires Valid()
      requires Available(usedColors) != [] ==> pick < |Available(usedColors)|
      requires InFallbackRange(fallback)
      modifies this
      ensures Valid()
      ensures (Tables(), reply) == JoinStep(old(Tables()), rawName, ip, newSid, pick, fallback, now)
    {
      ghost var before := Tables();
      reply := Admit(rawName, ip, newSid, pick, fallback, now);
      ServerProperties.JoinKeepsInv(before, rawName, ip, newSid, pick, fallback, now);
    }

    /** The statements of `handle_join`, without the invariant that `Join` adds. */
    method Admit(rawName: string, ip: Ip, newSid: Sid, pick: nat, fallback: Color, now: int)
      returns (reply: JoinReply)
      requires Available(usedColors) != [] ==> pick < |Available(usedColors)|
      modifies this
      ensures (Tables(), reply) == JoinStep(old(Tables()), rawName, ip, newSid, pick, fallback, now)
    {
      ghost var before := Tables();
      var name := Strip(rawName);
      if name == [] {
        reply := JoinError("Name is required");
        return;
      }
      playerNames := playerNames[ip := name];
      ghost var named := Tables();

      var oldPlayer: Option<Player> := None;
      if ip in ipToSid {
        var oldSid := ipToSid[ip];
        if oldSid in players {
          oldPlayer := Some(players[oldSid]);
          DropSession(oldSid);
          assert Reclaims(before, ip) && Tables() == Retire(named, oldSid);
        }
      }

      var color: Color;
      if oldPlayer.Some? {
        color := oldPlayer.value.color;
      } else {
        assert !Reclaims(before, ip) && Tables() == named;
        var available := Available(usedColors);
        color := if available != [] then available[pick] else fallback;
        usedColors := usedColors + {color};
        assert color == FreshColor(before.usedColors, pick, fallback);
      }

      Enrol(ip, newSid, Player(color, name, false, now, ip));
      reply := Joined(color, game);
    }

    /** The reclaim branch of `handle_join`: the earlier session's player entry is deleted. */
    method DropSession(oldSid: Sid)
      modifies this
      ensures Tables() == Retire(old(Tables()), oldSid)
    {
      players := players - {oldSid};
      order := Remove(order, oldSid);
    }

    /** The end of `handle_join`: the new session's player entry and the address's session. */
    method Enrol(ip: Ip, newSid: Sid, p: Player)
      modifies this
      ensures Tables() == Register(old(Tables()), ip, newSid, p)
    {
      players := players[newSid := p];
      order := Put(order, newSid);
      ipToSid := ipToSid[ip := newSid];
    }

    /** `handle_disconnect` for session `sid`. */
    method Disconnect(sid: Sid)
      requires Valid()
      modifies this
      ensures Valid()
      ensures Tables() == DisconnectStep(old(Tables()), sid)
    {
      ServerProperties.DisconnectKeepsInv(Tables(), sid);
      if sid in players {
        var player := players[sid];
        players := players - {sid};
        order := Remove(order, sid);
        DropMappings(sid, player.color);
      }
    }

    /**
     * The loop of `handle_disconnect` over a copy of `ip_to_sid.items()`: every
     * entry mapping to `sid` is deleted and, for each one, `color` is discarded
     * from `used_colors`.
     */
    method DropMappings(sid: Sid, color: Color)
      modifies this
      ensures ipToSid == DropSid(old(ipToSid), sid)
      ensures usedColors == if sid in old(ipToSid).Values then old(usedColors) - {color} else old(usedColors)
      ensures order == old(order) && players == old(players) && playerNames == old(playerNames) && game == old(game)
    {
      var items := ipToSid;
      var pending := items.Keys;
      while pending != {}
        invariant pending <= items.Keys
        invariant forall ip :: ip in ipToSid <==> ip in items && (ip in pending || items[ip] != sid)
        invariant forall ip :: ip in ipToSid ==> ipToSid[ip] == items[ip]
        invariant usedColors ==
          if exists ip :: ip in items && ip !in pending && items[ip] == sid
          then old(usedColors) - {color} else old(usedColors)
        invariant order == old(order) && players == old(players) && playerNames == old(playerNames) && game == old(game)
        decreases pending
      {
        var ip :| ip in pending;
        if items[ip] == sid {
          ipToSid := ipToSid - {ip};
          usedColors := usedColors - {color};
        }
        pending := pending - {ip};
      }
      assert ipToSid == DropSid(items, sid);
    }

    /** `handle_ready` for session `sid` at time `now`. */
    method Ready(sid: Sid, now: int)
      requires Valid()
      modifies this
      ensures Valid()
      ensures Tables() == ReadyStep(old(Tables()), sid, now)
    {
      ghost var before := Tables();
      if sid in players {
        players := players[sid := players[sid].(ready := true, lastActive := now)];
        ServerProperties.MarkReadyKeepsInv(before, sid, now);
        var readyPlayers := ReadyPlayers(order, players);
        if |readyPlayers| >= 1 && |readyPlayers| == |players| {
          StartGame();
        }
      }
      assert Tables() == ReadyStep(before, sid, now);
      ServerProperties.ReadyKeepsInv(before, sid, now);
    }

    /** `start_game`: writes phase, turn order, current player and empty score sheets into `game_state`. */
    method StartGame()
      requires Valid()
      modifies this
      ensures Valid()
      ensures Tables() == StartGameStep(old(Tables()))
    {
      ghost var before := Tables();
      game := game.(phase := Playing);
      var turnOrder := order;
      game := game.(turnOrder := turnOrder);
      game := game.(currentPlayer := if turnOrder != [] then Some(turnOrder[0]) else None);
      game := game.(scores := map s | s in players :: map[]);
      assert Tables() == StartGameStep(before);
      ServerProperties.StartGameKeepsInv(before);
    }

    /** `handle_get_game_state` for a client at address `ip`. */
    method GetGameState(ip: Ip) returns (reply: StateReply)
      ensures reply.CannotJoin? <==> ip !in playerNames && game.phase == Playing
      ensures reply == GameStateReply(Tables(), ip)
    {
      var known := ip in playerNames;
      if !known && game.phase == Playing {
        reply := CannotJoin("Game already in progress");
      } else {
        var savedName := if known then playerNames[ip] else "";
        reply := Snapshot(game.phase, PlayerList(order, players), game.currentPlayer, game.dice, game.diceKept,
                          game.rollCount, game.maxRolls, game.scores, known, savedName);
      }
    }
  }
}
