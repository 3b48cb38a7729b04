/**
 * What the lobby handlers promise, proved about the step functions of
 * module ServerState: the guards of each handler, its effect on every table,
 * the invariant it keeps, and how join and disconnect combine.
 */
module ServerProperties {
  import opened Wrappers
  import opened PyStrip
  import opened Colors
  import opened InsertionOrder
  import opened ServerState

  // ---------------------------------------------------------------------------
  // join
  // ---------------------------------------------------------------------------

  /** A name that is blank after stripping is answered with `join_error` and changes no table. */
  lemma JoinRejectsBlankName(st: State, rawName: string, ip: Ip, newSid: Sid, pick: nat, fallback: Color, now: int)
    requires Available(st.usedColors) != [] ==> pick < |Available(st.usedColors)|
    ensures JoinStep(st, rawName, ip, newSid, pick, fallback, now).1.JoinError? <==> AllSpace(rawName)
    ensures AllSpace(rawName) ==> JoinStep(st, rawName, ip, newSid, pick, fallback, now).0 == st
  {}

  /**
   * A successful join remembers the stripped name for the address, registers
   * the session as not ready under that name and address with the colour it
   * reports, maps the address to the session, and leaves `game_state` alone;
   * every other player keeps its record, so the keys of `players` become the
   * old ones, less a reclaimed session, plus the new one.
   */
  lemma JoinRegisters(st: State, rawName: string, ip: Ip, newSid: Sid, pick: nat, fallback: Color, now: int)
    requires Available(st.usedColors) != [] ==> pick < |Available(st.usedColors)|
    requires !AllSpace(rawName)
    ensures var (st', reply) := JoinStep(st, rawName, ip, newSid, pick, fallback, now);
      && reply.Joined?
      && st'.playerNames == st.playerNames[ip := Strip(rawName)]
      && Strip(rawName) != [] && IsStripped(Strip(rawName))
      && newSid in st'.players && newSid in st'.order
      && st'.players[newSid] == Player(reply.color, Strip(rawName), false, now, ip)
      && st'.ipToSid == st.ipToSid[ip := newSid]
      && st'.game == st.game && reply.game == st.game
      && st'.players.Keys == (if Reclaims(st, ip) then st.players.Keys - {st.ipToSid[ip]} else st.players.Keys) + {newSid}
      && (forall s :: s in st.players && s != newSid && !(Reclaims(st, ip) && s == st.ipToSid[ip])
            ==> s in st'.players && st'.players[s] == st.players[s])
  {
    StripEmptyIff(rawName);
    if Reclaims(st, ip) {
      var oldSid := st.ipToSid[ip];
      var color := st.players[oldSid].color;
      var named := st.(playerNames := st.playerNames[ip := Strip(rawName)]);
      assert JoinStep(st, rawName, ip, newSid, pick, fallback, now)
          == (Register(Retire(named, oldSid), ip, newSid, Player(color, Strip(rawName), false, now, ip)), Joined(color, st.game));
    }
  }

  /**
   * Rejoining from an address whose earlier session is still live retires that
   * session, hands its colour to the new one, leaves `used_colors` as it was,
   * and puts the new session last in player order.
   */
  lemma RejoinKeepsColour(st: State, rawName: string, ip: Ip, newSid: Sid, pick: nat, fallback: Color, now: int)
    requires Inv(st)
    requires Available(st.usedColors) != [] ==> pick < |Available(st.usedColors)|
    requires !AllSpace(rawName) && Reclaims(st, ip)
    requires newSid !in st.players || newSid == st.ipToSid[ip]
    ensures var (st', reply) := JoinStep(st, rawName, ip, newSid, pick, fallback, now);
      var oldSid := st.ipToSid[ip];
      && reply == Joined(st.players[oldSid].color, st.game)
      && st'.players[newSid].color == st.players[oldSid].color
      && (oldSid != newSid ==> oldSid !in st'.players)
      && st'.usedColors == st.usedColors
      && st'.order == Remove(st.order, oldSid) + [newSid]
  {}

  /**
   * A join that reclaims nothing draws a pool colour that is not in use
   * whenever one is free, and otherwise a random triple with every component
   * in [50, 255]; either way the colour is then marked as used. A new session
   * goes last in player order, and a session already present keeps its slot.
   */
  lemma FreshJoinAllocates(st: State, rawName: string, ip: Ip, newSid: Sid, pick: nat, fallback: Color, now: int)
    requires Available(st.usedColors) != [] ==> pick < |Available(st.usedColors)|
    requires InFallbackRange(fallback)
    requires !AllSpace(rawName) && !Reclaims(st, ip)
    ensures var (st', reply) := JoinStep(st, rawName, ip, newSid, pick, fallback, now);
      && reply.Joined?
      && ((exists i :: 0 <= i < |Pool| && Pool[i] !in st.usedColors) ==> reply.color in Pool && reply.color !in st.usedColors)
      && ((forall i :: 0 <= i < |Pool| ==> Pool[i] in st.usedColors) ==> InFallbackRange(reply.color))
      && st'.usedColors == st.usedColors + {reply.color}
      && st'.players[newSid].color == reply.color
      && (newSid !in st.order ==> st'.order == st.order + [newSid])
      && (newSid in st.order ==> st'.order == st.order)
  {}

  /** Every join keeps the invariant of the tables. */
  lemma JoinKeepsInv(st: State, rawName: string, ip: Ip, newSid: Sid, pick: nat, fallback: Color, now: int)
    requires Inv(st)
    requires Available(st.usedColors) != [] ==> pick < |Available(st.usedColors)|
    ensures Inv(JoinStep(st, rawName, ip, newSid, pick, fallback, now).0)
  {
    var name := Strip(rawName);
    if name != [] {
      StripIdempotent(rawName);
      var reclaim := Reclaims(st, ip);
      var order := if reclaim then Remove(st.order, st.ipToSid[ip]) else st.order;
      var players := if reclaim then st.players - {st.ipToSid[ip]} else st.players;
      var color := if reclaim then st.players[st.ipToSid[ip]].color else FreshColor(st.usedColors, pick, fallback);
      var used := if reclaim then st.usedColors else st.usedColors + {color};
      var st' := State(Put(order, newSid), players[newSid := Player(color, name, false, now, ip)],
                       st.ipToSid[ip := newSid], st.playerNames[ip := name], used, st.game);
      assert JoinStep(st, rawName, ip, newSid, pick, fallback, now).0 == st';
      assert Distinct(order) && forall s :: s in order <==> s in players;
      JoinKeepsSessions(st, players, ip, newSid, Player(color, name, false, now, ip));
    }
  }

  /** The session part of the invariant survives removing the reclaimed session and registering the new one. */
  lemma JoinKeepsSessions(st: State, players: map<Sid, Player>, ip: Ip, newSid: Sid, p: Player)
    requires SessionsAgree(st)
    requires Reclaims(st, ip) ==> players == st.players - {st.ipToSid[ip]}
    requires !Reclaims(st, ip) ==> players == st.players
    requires p.ip == ip && p.name != [] && IsStripped(p.name)
    ensures SessionsAgree(st.(players := players[newSid := p], ipToSid := st.ipToSid[ip := newSid],
                               playerNames := st.playerNames[ip := p.name]))
  {}

  // ---------------------------------------------------------------------------
  // disconnect
  // ---------------------------------------------------------------------------

  /**
   * Disconnecting an unknown session changes nothing. Disconnecting a live one
   * deletes its record and every address mapping to it, releases its colour
   * exactly when such a mapping existed, and keeps the remembered names.
   */
  lemma DisconnectEffect(st: State, sid: Sid)
    ensures sid !in st.players ==> DisconnectStep(st, sid) == st
    ensures sid in st.players ==>
      var st' := DisconnectStep(st, sid);
      && st'.players == st.players - {sid}
      && st'.order == Remove(st.order, sid)
      && (forall ip :: ip in st'.ipToSid <==> ip in st.ipToSid && st.ipToSid[ip] != sid)
      && (forall ip :: ip in st'.ipToSid ==> st'.ipToSid[ip] == st.ipToSid[ip])
      && ((exists ip :: ip in st.ipToSid && st.ipToSid[ip] == sid) ==> st'.usedColors == st.usedColors - {st.players[sid].color})
      && ((forall ip :: ip in st.ipToSid ==> st.ipToSid[ip] != sid) ==> st'.usedColors == st.usedColors)
      && st'.playerNames == st.playerNames
      && st'.game == st.game
  {}

  /** In tables that keep the invariant, a live session always has its address mapping, so its colour is released. */
  lemma DisconnectReleasesColour(st: State, sid: Sid)
    requires Inv(st) && sid in st.players
    ensures DisconnectStep(st, sid).usedColors == st.usedColors - {st.players[sid].color}
    ensures st.players[sid].ip !in DisconnectStep(st, sid).ipToSid
  {}

  /** Every disconnect keeps the invariant of the tables. */
  lemma DisconnectKeepsInv(st: State, sid: Sid)
    requires Inv(st)
    ensures Inv(DisconnectStep(st, sid))
  {}

  // ---------------------------------------------------------------------------
  // ready and start_game
  // ---------------------------------------------------------------------------

  /** The ready list is no longer than the key order, and as long exactly when every listed session is ready. */
  lemma {:induction false} ReadyPlayersBound(order: seq<Sid>, players: map<Sid, Player>)
    requires forall s :: s in order ==> s in players
    ensures |ReadyPlayers(order, players)| <= |order|
    ensures |ReadyPlayers(order, players)| == |order| <==> forall s :: s in order ==> players[s].ready
  {
    if order != [] {
      ReadyPlayersBound(order[1..], players);
      assert forall s :: s in order <==> s == order[0] || s in order[1..];
    }
  }

  /** `len(ready_players) == len(players)` holds exactly when every player is ready. */
  lemma ReadyCountIff(st: State)
    requires OrderMatches(st)
    ensures |ReadyPlayers(st.order, st.players)| == |st.players| <==> forall s :: s in st.players ==> st.players[s].ready
  {
    ReadyPlayersBound(st.order, st.players);
    DistinctCard(st.order);
    assert (set x | x in st.order) == st.players.Keys;
  }

  /** `start_game()` opens play in player order with empty score sheets, and touches nothing else. */
  lemma StartGameSetsUp(st: State)
    requires OrderMatches(st)
    ensures var g := StartGameStep(st).game;
      && g.phase == Playing
      && g.turnOrder == st.order
      && (g.currentPlayer.Some? <==> st.order != [])
      && (g.currentPlayer.None? ==> forall s :: s !in st.players)
      && (g.currentPlayer.Some? ==> g.currentPlayer.value == st.order[0] && g.currentPlayer.value in st.players)
      && (forall s :: s in g.scores <==> s in g.turnOrder)
      && (forall s :: s in g.scores ==> g.scores[s] == map[])
      && g.dice == st.game.dice && g.diceKept == st.game.diceKept
      && g.rollCount == st.game.rollCount && g.maxRolls == st.game.maxRolls && g.winner == st.game.winner
      && StartGameStep(st).(game := st.game) == st
  {}

  /**
   * `ready` from an unknown session changes nothing. From a live session it
   * marks that session ready and starts the game exactly when every other
   * player is ready already.
   */
  lemma ReadyEffect(st: State, sid: Sid, now: int)
    requires OrderMatches(st)
    ensures sid !in st.players ==> ReadyStep(st, sid, now) == st
    ensures sid in st.players ==>
      var st' := ReadyStep(st, sid, now);
      var marked := st.players[sid := st.players[sid].(ready := true, lastActive := now)];
      && st'.players == marked
      && st'.players[sid].ready
      && ((forall s :: s in st.players && s != sid ==> st.players[s].ready) ==>
            st'.game == StartGameStep(st).game)
      && (!(forall s :: s in st.players && s != sid ==> st.players[s].ready) ==> st'.game == st.game)
      && st'.(players := st.players, game := st.game) == st
  {
    if sid in st.players {
      ReadyStepCases(st, sid, now);
    }
  }

  /** The two outcomes of a ready from a live session. */
  lemma ReadyStepCases(st: State, sid: Sid, now: int)
    requires OrderMatches(st) && sid in st.players
    ensures var st1 := st.(players := st.players[sid := st.players[sid].(ready := true, lastActive := now)]);
      ReadyStep(st, sid, now) ==
        if forall s :: s in st.players && s != sid ==> st.players[s].ready then StartGameStep(st1) else st1
  {
    var marked := st.players[sid := st.players[sid].(ready := true, lastActive := now)];
    var st1 := st.(players := marked);
    ReadyCountIff(st1);
    assert |marked| >= 1 by {
      assert sid in marked.Keys;
    }
    var othersReady := forall s :: s in st.players && s != sid ==> st.players[s].ready;
    assert othersReady <==> forall s :: s in marked ==> marked[s].ready;
  }

  /** Every ready keeps the invariant of the tables. */
  lemma ReadyKeepsInv(st: State, sid: Sid, now: int)
    requires Inv(st)
    ensures Inv(ReadyStep(st, sid, now))
  {
    if sid in st.players {
      MarkReadyKeepsInv(st, sid, now);
      StartGameKeepsInv(st.(players := st.players[sid := st.players[sid].(ready := true, lastActive := now)]));
    }
  }

  /** Marking a live session ready and touching it keeps the invariant. */
  lemma MarkReadyKeepsInv(st: State, sid: Sid, now: int)
    requires Inv(st) && sid in st.players
    ensures Inv(st.(players := st.players[sid := st.players[sid].(ready := true, lastActive := now)]))
  {}

  /** `start_game()` keeps the invariant. */
  lemma StartGameKeepsInv(st: State)
    requires Inv(st)
    ensures Inv(StartGameStep(st))
  {
    StartGameSetsUp(st);
  }

  // ---------------------------------------------------------------------------
  // colour uniqueness
  // ---------------------------------------------------------------------------

  /**
   * A join keeps players' colours distinct and marked in use, provided that,
   * when the pool is exhausted, the random fallback is not a colour in use.
   */
  lemma JoinKeepsColorsDistinct(st: State, rawName: string, ip: Ip, newSid: Sid, pick: nat, fallback: Color, now: int)
    requires ColorsDistinct(st)
    requires Available(st.usedColors) != [] ==> pick < |Available(st.usedColors)|
    requires Available(st.usedColors) == [] ==> fallback !in st.usedColors
    ensures ColorsDistinct(JoinStep(st, rawName, ip, newSid, pick, fallback, now).0)
  {
    var name := Strip(rawName);
    if name != [] {
      var reclaim := Reclaims(st, ip);
      var players := if reclaim then st.players - {st.ipToSid[ip]} else st.players;
      var color := if reclaim then st.players[st.ipToSid[ip]].color else FreshColor(st.usedColors, pick, fallback);
      var used := if reclaim then st.usedColors else st.usedColors + {color};
      var st' := JoinStep(st, rawName, ip, newSid, pick, fallback, now).0;
      assert st'.players == players[newSid := Player(color, name, false, now, ip)] && st'.usedColors == used;
      if !reclaim {
        assert color !in st.usedColors;
      }
      AddPlayerColor(players, used, newSid, Player(color, name, false, now, ip));
    }
  }

  /** Registering a player whose colour is in use by nobody else keeps the colours distinct. */
  lemma AddPlayerColor(players: map<Sid, Player>, used: set<Color>, sid: Sid, p: Player)
    requires PlayerColorsDistinct(players, used) && p.color in used
    requires forall s :: s in players && s != sid ==> players[s].color != p.color
    ensures PlayerColorsDistinct(players[sid := p], used)
  {}

  /** A disconnect keeps players' colours distinct and marked in use. */
  lemma DisconnectKeepsColorsDistinct(st: State, sid: Sid)
    requires Inv(st) && ColorsDistinct(st)
    ensures ColorsDistinct(DisconnectStep(st, sid))
  {
    if sid in st.players {
      DisconnectReleasesColour(st, sid);
    }
  }

  /** A ready keeps players' colours distinct and marked in use. */
  lemma ReadyKeepsColorsDistinct(st: State, sid: Sid, now: int)
    requires ColorsDistinct(st)
    ensures ColorsDistinct(ReadyStep(st, sid, now))
  {
    if sid in st.players {
      var st' := ReadyStep(st, sid, now);
      assert st'.players == st.players[sid := st.players[sid].(ready := true, lastActive := now)];
      assert st'.usedColors == st.usedColors;
    }
  }

  // ---------------------------------------------------------------------------
  // get_game_state
  // ---------------------------------------------------------------------------

  /**
   * A client is told it cannot join exactly when its address has no remembered
   * name and a game is being played; otherwise it gets the current phase, dice,
   * roll count and scores, and its remembered name, which is empty exactly
   * when it has none.
   */
  lemma GameStateDecision(st: State, ip: Ip)
    requires Inv(st)
    ensures GameStateReply(st, ip).CannotJoin? <==> ip !in st.playerNames && st.game.phase == Playing
    ensures var r := GameStateReply(st, ip);
      r.Snapshot? ==>
        && r.phase == st.game.phase && (r.phase != Playing || ip in st.playerNames)
        && r.dice == st.game.dice && r.rollCount == st.game.rollCount && r.scores == st.game.scores
        && r.isKnownIp == (ip in st.playerNames)
        && (r.savedName == [] <==> ip !in st.playerNames)
        && (ip in st.playerNames ==> r.savedName == st.playerNames[ip])
  {}

  // ---------------------------------------------------------------------------
  // join during play
  // ---------------------------------------------------------------------------

  /**
   * `join` has no phase guard: while a game is being played a client with a
   * name still joins, but `game_state` is untouched, so the new session is not
   * in the turn order and has no score sheet. A rejoin mid-game retires the
   * old session while the turn order, current player and scores stay keyed by it.
   */
  lemma JoinDuringPlay(st: State, rawName: string, ip: Ip, newSid: Sid, pick: nat, fallback: Color, now: int)
    requires Available(st.usedColors) != [] ==> pick < |Available(st.usedColors)|
    requires GameWellFormed(st.game)
    requires st.game.phase == Playing && !AllSpace(rawName) && newSid !in st.game.turnOrder
    ensures var (st', reply) := JoinStep(st, rawName, ip, newSid, pick, fallback, now);
      && reply.Joined? && newSid in st'.players
      && st'.game == st.game && newSid !in st'.game.turnOrder && newSid !in st'.game.scores.Keys
    ensures var st' := JoinStep(st, rawName, ip, newSid, pick, fallback, now).0;
      Reclaims(st, ip) && st.ipToSid[ip] != newSid ==>
        && st.ipToSid[ip] !in st'.players
        && st'.game.turnOrder == st.game.turnOrder && st'.game.currentPlayer == st.game.currentPlayer
        && st'.game.scores == st.game.scores
  {
    JoinRegisters(st, rawName, ip, newSid, pick, fallback, now);
    if Reclaims(st, ip) {
      var oldSid := st.ipToSid[ip];
      var named := st.(playerNames := st.playerNames[ip := Strip(rawName)]);
      var p := JoinStep(st, rawName, ip, newSid, pick, fallback, now).0.players[newSid];
      assert JoinStep(st, rawName, ip, newSid, pick, fallback, now).0 == Register(Retire(named, oldSid), ip, newSid, p);
    }
  }

  // ---------------------------------------------------------------------------
  // join and disconnect together
  // ---------------------------------------------------------------------------

  /**
   * A page refresh: the new connection from the same address joins before the
   * old connection's disconnect arrives. The new session gets the colour of the
   * old one, and the late disconnect of the old session changes nothing.
   */
  lemma RefreshKeepsColour(st: State, name1: string, name2: string, ip: Ip, sid1: Sid, sid2: Sid,
                           pick1: nat, pick2: nat, fallback1: Color, fallback2: Color, t1: int, t2: int)
    requires Inv(st)
    requires Available(st.usedColors) != [] ==> pick1 < |Available(st.usedColors)|
    requires !AllSpace(name1) && !AllSpace(name2) && sid1 != sid2 && sid2 !in st.players
    requires var st1 := JoinStep(st, name1, ip, sid1, pick1, fallback1, t1).0;
      Available(st1.usedColors) != [] ==> pick2 < |Available(st1.usedColors)|
    ensures var (st1, reply1) := JoinStep(st, name1, ip, sid1, pick1, fallback1, t1);
      var (st2, reply2) := JoinStep(st1, name2, ip, sid2, pick2, fallback2, t2);
      && reply1.Joined? && reply2.Joined?
      && reply2.color == reply1.color
      && st2.usedColors == st1.usedColors
      && sid1 !in st2.players
      && DisconnectStep(st2, sid1) == st2
  {
    JoinRegisters(st, name1, ip, sid1, pick1, fallback1, t1);
    JoinKeepsInv(st, name1, ip, sid1, pick1, fallback1, t1);
    var st1 := JoinStep(st, name1, ip, sid1, pick1, fallback1, t1).0;
    assert Reclaims(st1, ip);
    RejoinKeepsColour(st1, name2, ip, sid2, pick2, fallback2, t2);
  }

  /**
   * Disconnect is the inverse of a fresh join that drew a pool colour: players,
   * their order, the address mappings and the colours in use are as before;
   * only the remembered name stays.
   */
  lemma DisconnectUndoesFreshJoin(st: State, rawName: string, ip: Ip, newSid: Sid, pick: nat, fallback: Color, now: int)
    requires OrderMatches(st)
    requires Available(st.usedColors) != [] && pick < |Available(st.usedColors)|
    requires !AllSpace(rawName)
    requires ip !in st.ipToSid && newSid !in st.players && newSid !in st.ipToSid.Values
    ensures var st1 := JoinStep(st, rawName, ip, newSid, pick, fallback, now).0;
      var st2 := DisconnectStep(st1, newSid);
      && st2.players == st.players && st2.order == st.order
      && st2.ipToSid == st.ipToSid && st2.usedColors == st.usedColors
      && st2.playerNames == st.playerNames[ip := Strip(rawName)]
      && st2.game == st.game
  {
    StripEmptyIff(rawName);
    var c := FreshColor(st.usedColors, pick, fallback);
    var st1 := FreshJoinState(st, rawName, ip, newSid, pick, fallback, now);
    DisconnectUnregisters(st, ip, newSid, Player(c, Strip(rawName), false, now, ip), Strip(rawName));
  }

  /** Disconnecting a session that was just registered under a fresh address and colour removes all trace of it but the name. */
  lemma DisconnectUnregisters(st: State, ip: Ip, newSid: Sid, p: Player, name: string)
    requires OrderMatches(st)
    requires ip !in st.ipToSid && newSid !in st.players && newSid !in st.ipToSid.Values
    requires p.color !in st.usedColors
    ensures var st1 := State(Put(st.order, newSid), st.players[newSid := p], st.ipToSid[ip := newSid],
                             st.playerNames[ip := name], st.usedColors + {p.color}, st.game);
      DisconnectStep(st1, newSid) == st.(playerNames := st.playerNames[ip := name])
  {
    var st1 := State(Put(st.order, newSid), st.players[newSid := p], st.ipToSid[ip := newSid],
                     st.playerNames[ip := name], st.usedColors + {p.color}, st.game);
    assert newSid in st1.ipToSid.Values by {
      assert st1.ipToSid[ip] == newSid;
    }
    assert newSid !in st.order;
    RemoveAppended(st.order, newSid);
    assert DropSid(st1.ipToSid, newSid) == st.ipToSid;
    assert st1.players - {newSid} == st.players;
  }

  /** The tables after a join that reclaims nothing, written out. */
  lemma FreshJoinState(st: State, rawName: string, ip: Ip, newSid: Sid, pick: nat, fallback: Color, now: int)
    returns (st1: State)
    requires Available(st.usedColors) != [] ==> pick < |Available(st.usedColors)|
    requires Strip(rawName) != [] && !Reclaims(st, ip)
    ensures var c := FreshColor(st.usedColors, pick, fallback);
      && st1 == JoinStep(st, rawName, ip, newSid, pick, fallback, now).0
      && JoinStep(st, rawName, ip, newSid, pick, fallback, now).1 == Joined(c, st.game)
      && st1 == State(Put(st.order, newSid), st.players[newSid := Player(c, Strip(rawName), false, now, ip)],
                      st.ipToSid[ip := newSid], st.playerNames[ip := Strip(rawName)], st.usedColors + {c}, st.game)
  {
    st1 := JoinStep(st, rawName, ip, newSid, pick, fallback, now).0;
  }

  lemma {:induction false} RemoveAppended(s: seq<Sid>, k: Sid)
    requires k !in s
    ensures Remove(s + [k], k) == s
  {
    if s != [] {
      assert (s + [k])[1..] == s[1..] + [k];
      RemoveAppended(s[1..], k);
    }
  }

  /**
   * Disconnecting first and joining again from the same address does not
   * promise the old colour: the disconnect frees it, the rejoin reclaims
   * nothing, and a different draw from the pool gives a different colour.
   */
  lemma DisconnectThenRejoinMayChangeColour(st: State, rawName: string, ip: Ip, sid1: Sid, sid2: Sid,
                                            pick1: nat, pick2: nat, fallback: Color, t1: int, t2: int)
    requires Inv(st)
    requires pick1 < |Available(st.usedColors)| && pick2 < |Available(st.usedColors)| && pick1 != pick2
    requires !AllSpace(rawName)
    requires ip !in st.ipToSid && sid1 !in st.players && sid1 !in st.ipToSid.Values
    requires var st2 := DisconnectStep(JoinStep(st, rawName, ip, sid1, pick1, fallback, t1).0, sid1);
      Available(st2.usedColors) != [] ==> pick2 < |Available(st2.usedColors)|
    ensures var (st1, reply1) := JoinStep(st, rawName, ip, sid1, pick1, fallback, t1);
      var st2 := DisconnectStep(st1, sid1);
      var reply3 := JoinStep(st2, rawName, ip, sid2, pick2, fallback, t2).1;
      && reply1.Joined? && reply3.Joined?
      && reply1.color !in st2.usedColors
      && reply3.color != reply1.color
  {
    DisconnectUndoesFreshJoin(st, rawName, ip, sid1, pick1, fallback, t1);
    var st2 := DisconnectStep(JoinStep(st, rawName, ip, sid1, pick1, fallback, t1).0, sid1);
    assert !Reclaims(st2, ip);
    AvailableDistinct(st.usedColors);
    StripEmptyIff(rawName);
  }

  /**
   * In a lobby of two players that are not ready, the first and then the
   * second pressing ready starts the game in player order with the first
   * player to play.
   */
  lemma TwoReadiesStart(st: State, sidA: Sid, sidB: Sid, t1: int, t2: int)
    requires OrderMatches(st) && st.order == [sidA, sidB]
    requires !st.players[sidB].ready
    ensures var g := ReadyStep(ReadyStep(st, sidA, t1), sidB, t2).game;
      g.phase == Playing && g.turnOrder == [sidA, sidB] && g.currentPlayer == Some(sidA)
  {
    assert sidA in st.players && sidB in st.players;
    ReadyEffect(st, sidA, t1);
    var st1 := ReadyStep(st, sidA, t1);
    assert st1.order == [sidA, sidB] && st1.players.Keys == st.players.Keys;
    ReadyEffect(st1, sidB, t2);
    assert st1.players[sidA].ready;
    StartGameSetsUp(st1);
  }
}
