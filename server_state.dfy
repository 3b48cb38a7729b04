/**
 * The module-level tables of the lobby server (`players`, `ip_to_sid`,
 * `player_names`, `used_colors`, `game_state`) as one value, and what each
 * Socket.IO handler does to them, as functions from the tables before the
 * event to the tables after it. The class in module Server runs the same
 * handlers in place and is proved against these functions.
 */
module ServerState {
  import opened Wrappers
  import opened PyStrip
  import opened Colors
  import opened InsertionOrder

  /** A Socket.IO session id (`request.sid`); the transport never hands out an empty one. */
  type Sid = s: string | s != [] witness "sid"

  /** A client address (`request.remote_addr`), the key under which a client is recalled. */
  type Ip = string

  /** One entry of `players`. `lastActive` is the opaque `time.time()` of the last join or ready. */
  datatype Player = Player(color: Color, name: string, ready: bool, lastActive: int, ip: Ip)

  datatype Phase = Waiting | Playing | Finished

  /** The `game_state` dict. `scores` maps a session id to its category scores. */
  datatype GameState = GameState(
    phase: Phase,
    currentPlayer: Option<Sid>,
    dice: seq<int>,
    diceKept: seq<bool>,
    rollCount: int,
    maxRolls: int,
    scores: map<Sid, map<string, int>>,
    turnOrder: seq<Sid>,
    winner: Option<Sid>)

  const InitialGame: GameState :=
    GameState(Waiting, None, [1, 1, 1, 1, 1], [false, false, false, false, false], 0, 3, map[], [], None)

  /**
   * All shared tables. `players` is a Python dict, whose keys keep insertion
   * order; `order` holds that order.
   */
  datatype State = State(
    order: seq<Sid>,
    players: map<Sid, Player>,
    ipToSid: map<Ip, Sid>,
    playerNames: map<Ip, string>,
    usedColors: set<Color>,
    game: GameState)

  const Initial: State := State([], map[], map[], map[], {}, InitialGame)

  /** What `join` emits to the requester: `join_error` or `joined`. */
  datatype JoinReply = JoinError(error: string) | Joined(color: Color, game: GameState)

  /** What `get_game_state` emits to the requester. */
  datatype StateReply =
    | CannotJoin(reason: string)
    | Snapshot(
        phase: Phase,
        players: seq<Player>,
        currentPlayer: Option<Sid>,
        dice: seq<int>,
        diceKept: seq<bool>,
        rollCount: int,
        maxRolls: int,
        scores: map<Sid, map<string, int>>,
        isKnownIp: bool,
        savedName: string)

  // ---------------------------------------------------------------------------
  // Invariants kept by every handler
  // ---------------------------------------------------------------------------

  /** `order` lists the keys of `players` once each. */
  ghost predicate OrderMatches(st: State) {
    && Distinct(st.order)
    && forall s :: s in st.order <==> s in st.players
  }

  /** Every live session is the one recalled for its client address. */
  ghost predicate SessionsMapped(players: map<Sid, Player>, ipToSid: map<Ip, Sid>) {
    forall s :: s in players ==> players[s].ip in ipToSid && ipToSid[players[s].ip] == s
  }

  /** Every live session's address has a remembered name, and it is the player's name. */
  ghost predicate NamesRemembered(players: map<Sid, Player>, playerNames: map<Ip, string>) {
    forall s :: s in players ==> players[s].ip in playerNames && playerNames[players[s].ip] == players[s].name
  }

  /** Every remembered name is non-empty and already stripped. */
  ghost predicate NamesStripped(playerNames: map<Ip, string>) {
    forall ip :: ip in playerNames ==> playerNames[ip] != [] && IsStripped(playerNames[ip])
  }

  /** The session tables agree with each other. */
  ghost predicate SessionsAgree(st: State) {
    SessionsMapped(st.players, st.ipToSid) && NamesRemembered(st.players, st.playerNames) && NamesStripped(st.playerNames)
  }

  /** Shape of `game_state` that no handler breaks. */
  ghost predicate GameWellFormed(g: GameState) {
    && |g.dice| == 5 && |g.diceKept| == 5
    && 0 <= g.rollCount <= g.maxRolls
    && (g.currentPlayer.Some? ==> g.currentPlayer.value in g.turnOrder)
    && (g.phase == Playing && g.turnOrder != [] ==> g.currentPlayer.Some?)
    && (forall s :: s in g.scores <==> s in g.turnOrder)
  }

  ghost predicate Inv(st: State) {
    OrderMatches(st) && SessionsAgree(st) && GameWellFormed(st.game)
  }

  /**
   * Every player's colour is marked in use, and no two players share a colour.
   * Kept by every handler as long as the random fallback never repeats a colour
   * in use (see ServerProperties).
   */
  ghost predicate ColorsDistinct(st: State) {
    PlayerColorsDistinct(st.players, st.usedColors)
  }

  ghost predicate PlayerColorsDistinct(players: map<Sid, Player>, used: set<Color>) {
    && (forall s :: s in players ==> players[s].color in used)
    && (forall s, t :: s in players && t in players && s != t ==> players[s].color != players[t].color)
  }

  // ---------------------------------------------------------------------------
  // join
  // ---------------------------------------------------------------------------

  /** True when a join from `ip` takes over an earlier session that is still in `players`. */
  predicate Reclaims(st: State, ip: Ip) {
    ip in st.ipToSid && st.ipToSid[ip] in st.players
  }

  /** `random.choice(available_colors)` as entry `pick`, or the random triple `fallback` when none is free. */
  function FreshColor(used: set<Color>, pick: nat, fallback: Color): Color
    requires Available(used) != [] ==> pick < |Available(used)|
  {
    var available := Available(used);
    if available != [] then available[pick] else fallback
  }

  /** `players.pop(old_sid, None)` on a session that is present. */
  function Retire(st: State, oldSid: Sid): State {
    st.(order := Remove(st.order, oldSid), players := st.players - {oldSid})
  }

  /** `players[new_sid] = p` followed by `ip_to_sid[ip] = new_sid`. */
  function Register(st: State, ip: Ip, newSid: Sid, p: Player): State {
    st.(order := Put(st.order, newSid), players := st.players[newSid := p], ipToSid := st.ipToSid[ip := newSid])
  }

  /**
   * `handle_join(data)` from client `ip` on session `newSid`, where `rawName` is
   * `data.get('name', '')`, `pick` and `fallback` are the random draws and `now`
   * is the clock.
   */
  function JoinStep(st: State, rawName: string, ip: Ip, newSid: Sid, pick: nat, fallback: Color, now: int)
    : (State, JoinReply)
    requires Available(st.usedColors) != [] ==> pick < |Available(st.usedColors)|
  {
    var name := Strip(rawName);
    if name == [] then
      (st, JoinError("Name is required"))
    else
      var named := st.(playerNames := st.playerNames[ip := name]);
      if Reclaims(st, ip) then
        var oldSid := st.ipToSid[ip];
        var color := st.players[oldSid].color;
        (Register(Retire(named, oldSid), ip, newSid, Player(color, name, false, now, ip)), Joined(color, st.game))
      else
        var color := FreshColor(st.usedColors, pick, fallback);
        (Register(named.(usedColors := st.usedColors + {color}), ip, newSid, Player(color, name, false, now, ip)),
         Joined(color, st.game))
  }

  // ---------------------------------------------------------------------------
  // disconnect
  // ---------------------------------------------------------------------------

  /** `ip_to_sid` without the entries that map to `sid`. */
  function DropSid(m: map<Ip, Sid>, sid: Sid): (r: map<Ip, Sid>)
    ensures forall ip :: ip in r <==> ip in m && m[ip] != sid
    ensures forall ip :: ip in r ==> r[ip] == m[ip]
  {
    map ip | ip in m && m[ip] != sid :: m[ip]
  }

  /** `handle_disconnect()` for session `sid`. */
  function DisconnectStep(st: State, sid: Sid): State {
    if sid !in st.players then st
    else
      st.(order := Remove(st.order, sid),
          players := st.players - {sid},
          ipToSid := DropSid(st.ipToSid, sid),
          usedColors := if sid in st.ipToSid.Values then st.usedColors - {st.players[sid].color} else st.usedColors)
  }

  // ---------------------------------------------------------------------------
  // ready and start_game
  // ---------------------------------------------------------------------------

  /** `[p for p in players.values() if p['ready']]`, the values taken in key order. */
  function ReadyPlayers(order: seq<Sid>, players: map<Sid, Player>): seq<Player> {
    if order == [] then []
    else if order[0] in players && players[order[0]].ready then [players[order[0]]] + ReadyPlayers(order[1..], players)
    else ReadyPlayers(order[1..], players)
  }

  /** `start_game()`: the fields of `game_state` it writes. */
  function StartGameStep(st: State): State {
    st.(game := st.game.(
      phase := Playing,
      turnOrder := st.order,
      currentPlayer := if st.order == [] then None else Some(st.order[0]),
      scores := map s | s in st.players :: map[]))
  }

  /** `handle_ready()` for session `sid` at time `now`. */
  function ReadyStep(st: State, sid: Sid, now: int): State {
    if sid !in st.players then st
    else
      var st1 := st.(players := st.players[sid := st.players[sid].(ready := true, lastActive := now)]);
      var readyCount := |ReadyPlayers(st1.order, st1.players)|;
      if readyCount >= 1 && readyCount == |st1.players| then StartGameStep(st1) else st1
  }

  // ---------------------------------------------------------------------------
  // get_game_state
  // ---------------------------------------------------------------------------

  /** `list(players.values())`. */
  function PlayerList(order: seq<Sid>, players: map<Sid, Player>): seq<Player> {
    if order == [] then []
    else (if order[0] in players then [players[order[0]]] else []) + PlayerList(order[1..], players)
  }

  /** The payload `handle_get_game_state()` emits to client `ip`. */
  function GameStateReply(st: State, ip: Ip): StateReply {
    var known := ip in st.playerNames;
    if !known && st.game.phase == Playing then
      CannotJoin("Game already in progress")
    else
      Snapshot(st.game.phase, PlayerList(st.order, st.players), st.game.currentPlayer,
               st.game.dice, st.game.diceKept, st.game.rollCount, st.game.maxRolls, st.game.scores,
               known, if known then st.playerNames[ip] else "")
  }
}
