# Yahtzee lobby server: sessions, colours and the start of play

This project models the lobby of the multiplayer Yahtzee server in
`app/server.py`. The server keeps five module-level tables:

- `players`: session id to player record, a dict whose key order matters;
- `ip_to_sid`: client address to its current session;
- `player_names`: the name remembered per address;
- `used_colors`, drawn from the sixteen colours of `COLOR_POOL`;
- `game_state`.

Each Socket.IO handler changes these tables in place. The handlers modelled are
`join`, `disconnect`, `ready`, `start_game` and the `cannot_join` decision of
`get_game_state`.

The model has two layers.

- `ServerState` holds the tables as one value, `State`. Each handler is a step
  function from the tables before the event to the tables after it (and the
  reply it emits). Module `ServerProperties` proves what the handlers promise
  about these functions: the guard of each handler, its effect on every table,
  the invariant it keeps, and how join and disconnect combine.
- `Server.GameServer` is a class whose fields are the tables. It has one atomic
  method per handler, written statement by statement like the handler. Each
  method is proved to produce exactly the tables and reply of its step function
  and to keep `Valid()`.

Supporting modules:

- `PyStrip` models Python's `str.strip()`.
- `Colors` models the pool and the list of free colours.
- `InsertionOrder` models the key order of a Python dict: assigning to a
  present key keeps its slot, a new key goes last, and `pop`/`del` removes
  the key while the other keys keep their order.
- `Wrappers` holds `Option`.

Modelling choices:

- `random.choice(available_colors)` is the index `pick`, which must be in range
  when the list is non-empty.
- The three `random.randint(50, 255)` draws are the colour `fallback`, whose
  components must all lie in [50, 255].
- `time.time()` is an unconstrained integer `now`.
- `request.remote_addr` and `request.sid` are parameters. A session id is
  never empty, so `if old_sid:` is the same test as "the address has a
  session".

Behaviour of the code that a reader might expect to be otherwise:

- `start_game` does not check that the phase is waiting, does not reset or roll
  the dice and does not touch `roll_count`; it writes only phase, turn order,
  current player and scores (`StartGameSetsUp`).
- A fresh colour is a random free pool entry, not the first free entry.
- `join` has no phase guard. An address that `get_game_state` answers with
  `cannot_join` can still send `join` during play and is registered, but
  `game_state` is untouched, so the new session is not in the turn order and
  has no score sheet. A rejoin during play retires the old session while
  `turn_order`, `current_player` and `scores` stay keyed by it
  (`JoinDuringPlay`).
- A client that disconnects and then rejoins does not keep its old colour for
  certain. The disconnect deletes the record and frees the colour, so the rejoin
  reclaims nothing (`DisconnectThenRejoinMayChangeColour`). The colour is kept
  only when the new connection joins before the old one's disconnect arrives,
  as on a page refresh (`RefreshKeepsColour`).
- No two players share a colour, and every player's colour is marked in use
  (`ColorsDistinct`), as long as the random fallback, drawn only when all
  sixteen pool colours are taken, is not a colour already in use. The code
  does not check the fallback, so this is guaranteed only under that
  condition (`JoinKeepsColorsDistinct`, `DisconnectKeepsColorsDistinct`,
  `ReadyKeepsColorsDistinct`).

## Model

| member | source | states |
|---|---|---|
| Server.GameServer.constructor | app/server.py:26-49 | the tables start empty, with phase waiting, dice all 1, nothing kept, 0 of 3 rolls, no scores, no turn order and no winner; the invariant holds |
| Server.GameServer.Join | app/server.py:153-198 | `handle_join` in place: the tables and the reply are those of `JoinStep`, and the invariant is kept |
| Server.GameServer.Admit | app/server.py:156-193 | the statements of `handle_join`: strip and reject, remember the name, reclaim the old session, choose the colour, register the session; the result equals `JoinStep` |
| Server.GameServer.DropSession | app/server.py:168-172 | `players.pop(old_sid)` removes the old session from the players and from the key order and changes nothing else |
| Server.GameServer.Enrol | app/server.py:185-193 | `players[new_sid] = ...` and `ip_to_sid[ip] = new_sid` with dict key order: a new key goes last |
| Server.GameServer.Disconnect | app/server.py:132-151 | `handle_disconnect` in place: the tables are those of `DisconnectStep`, and the invariant is kept |
| Server.GameServer.DropMappings | app/server.py:144-149 | the loop over a copy of `ip_to_sid.items()` deletes exactly the entries that map to the session and discards the colour iff at least one existed; every other table is unchanged |
| Server.GameServer.Ready | app/server.py:200-213 | `handle_ready` in place: the tables are those of `ReadyStep`, and the invariant is kept |
| Server.GameServer.StartGame | app/server.py:215-226 | `start_game` writes phase, turn order, current player and empty score sheets as `StartGameStep` says, and the invariant is kept |
| Server.GameServer.GetGameState | app/server.py:96-130 | the reply is `cannot_join` exactly when the address has no remembered name and phase is playing; otherwise it is the snapshot of `GameStateReply` |
| ServerProperties.JoinRejectsBlankName | app/server.py:156-162 | a join is rejected with `join_error` iff the name is all whitespace, and a rejected join changes no table |
| ServerProperties.JoinRegisters | app/server.py:156-193 | a successful join remembers the stripped name for the address, registers the session with that name, the address, not ready and the reported colour, maps the address to the session, and leaves `game_state` alone; every other player keeps its record, and the keys of `players` are the old ones less a reclaimed session plus the new one |
| ServerProperties.RejoinKeepsColour | app/server.py:167-185 | rejoining while the old session is live gives the new session exactly the old colour, removes the old session, leaves `used_colors` unchanged and puts the new session last in player order |
| ServerProperties.FreshJoinAllocates | app/server.py:177-185 | a join that reclaims nothing takes a pool colour not in use whenever one exists, and otherwise a triple with every component in [50, 255]; the colour is added to `used_colors`; a new session goes last in player order and a session already present keeps its slot |
| ServerProperties.JoinKeepsInv | app/server.py:153-198 | every join keeps the invariant: key order matches `players`, every player's address maps back to it, every remembered name is non-empty and stripped, and `game_state` is well formed |
| ServerProperties.DisconnectEffect | app/server.py:135-149 | an unknown session changes nothing; a live one loses its record and its slot in player order (the others keep their order) and every address entry that maps to it, its colour is released iff such an entry existed, and names and `game_state` are kept |
| ServerProperties.DisconnectReleasesColour | app/server.py:143-149 | under the invariant, disconnecting a live session always releases its colour and unmaps its address |
| ServerProperties.DisconnectKeepsInv | app/server.py:132-151 | every disconnect keeps the invariant |
| ServerProperties.ReadyCountIff | app/server.py:209-210 | `len(ready_players) == len(players)` holds exactly when every player is ready |
| ServerProperties.StartGameSetsUp | app/server.py:215-223 | phase becomes playing and the turn order is the player key order; the current player is the first entry, and there is none iff there are no players; every player gets an empty score sheet; dice, kept dice, roll counts, winner and all other tables are unchanged |
| ServerProperties.ReadyEffect | app/server.py:203-211 | ready from an unknown session changes nothing; otherwise the session is marked ready, and the game starts iff every other player was ready already, with nothing else changed |
| ServerProperties.ReadyStepCases | app/server.py:204-211 | a ready from a live session gives exactly `start_game` applied to the marked tables when the others are all ready, and the marked tables otherwise |
| ServerProperties.ReadyKeepsInv | app/server.py:200-213 | every ready keeps the invariant |
| ServerProperties.MarkReadyKeepsInv | app/server.py:204-206 | marking a live session ready and touching its timestamp keeps the invariant |
| ServerProperties.StartGameKeepsInv | app/server.py:215-223 | `start_game` keeps the invariant |
| ServerProperties.JoinKeepsColorsDistinct | app/server.py:167-193 | a join keeps every player's colour in use and no colour shared, provided the fallback, when drawn, is not in use |
| ServerProperties.DisconnectKeepsColorsDistinct | app/server.py:136-149 | a disconnect keeps every player's colour in use and no colour shared |
| ServerProperties.ReadyKeepsColorsDistinct | app/server.py:203-211 | a ready keeps every player's colour in use and no colour shared |
| ServerProperties.JoinDuringPlay | app/server.py:153-198 | during play a named join still succeeds and leaves `game_state` alone, so the new session is in no turn order or score sheet; a rejoin retires the old session while turn order, current player and scores stay as they were |
| ServerProperties.TwoReadiesStart | app/server.py:200-223 | in a two-player lobby, the first and then the second player pressing ready starts the game in join order with the first player to play |
| ServerProperties.GameStateDecision | app/server.py:99-128 | `cannot_join` iff the address is unknown and phase is playing; otherwise the reply carries the current phase, dice, roll count and scores, and `saved_name` is the remembered name of the address, and empty iff it has none |
| ServerProperties.RefreshKeepsColour | app/server.py:153-198 | a second join from the same address before the first session disconnects keeps the colour and `used_colors`, and the late disconnect of the first session changes nothing |
| ServerProperties.DisconnectUndoesFreshJoin | app/server.py:132-198 | disconnect undoes a fresh join that drew a pool colour: players, key order, address map and colours in use return to what they were, and only the remembered name stays |
| ServerProperties.DisconnectThenRejoinMayChangeColour | app/server.py:132-182 | after a disconnect, a rejoin from the same address reclaims nothing; the old colour is free again, and a different draw gives a different colour |
| Colors.Available | app/server.py:178 | the free colours are exactly the pool colours not in use |
| Colors.PoolDistinct | app/server.py:43-48 | the pool holds sixteen different colours |
| Colors.AvailableEmptyIff | app/server.py:178-181 | the fallback is taken exactly when every pool colour is in use |
| Colors.AvailableDistinct | app/server.py:178-179 | each free colour is listed once, so different draws give different colours |
| Colors.AvailableCount | app/server.py:178 | the number of free colours is sixteen minus the number of pool colours in use |
| PyStrip.Strip | app/server.py:156 | the stripped name has no whitespace at either end |
| PyStrip.StripIsSlice | app/server.py:156 | the stripped name is the slice of the input between a whitespace prefix and a whitespace suffix |
| PyStrip.StripEmptyIff | app/server.py:156-160 | the stripped name is empty iff the input is all whitespace |
| PyStrip.StripIdempotent | app/server.py:156 | stripping twice gives the same result as stripping once |
| InsertionOrder.Put | app/server.py:185 | dict assignment: the key is present afterwards, no other key is added, there are still no repeats, a new key goes last after the old order, and a present key leaves the order unchanged |
| InsertionOrder.Remove | app/server.py:170 | `pop`/`del`: exactly that key is gone, there are no repeats, the length drops by one when the key was present, and the order is unchanged when it was absent |
| InsertionOrder.RemoveAt | app/server.py:141 | removing the key at slot `i` of a key order without repeats leaves the keys before and after it in their order |
| InsertionOrder.DistinctCard | app/server.py:209-210 | a key order without repeats is as long as its set of keys, which relates `len(players)` to the key order |

## Left out

- Persistence is not modelled: `save_game_state` (app/server.py:51-61), the
  calls to it at the end of each handler, and `load_game_state`
  (app/server.py:63-77). Only `load_game_state` catches errors. A failed write
  in `save_game_state` raises out of the handler after the tables have
  changed, and in `join` and `start_game` after the emit. The tables described
  here are the same either way. The list-to-tuple colour conversion on load
  and in `disconnect` is left out with persistence.
- Emits and HTTP routes are not modelled, apart from the payload each handler
  sends to its own client. These are `emit`, `socketio.emit`, the Flask
  routes, `handle_connect`, `run_server` and the `print` logging.
- `last_active` is the opaque clock value `now`; nothing is proved about time.
- The name is assumed to be a string. If `data.get('name', '')` returns
  something that is not a string, the code raises; that path is not modelled.
- `app/game.py` is not part of this model: it is the Pygame display, which
  reads the tables from another thread. The concurrency between the handlers
  and that thread is also left out, and each handler runs atomically.
- `app/utils.py` and `main.py` are not part of this model: they cover local
  address discovery, QR images and thread start-up.
- Dice rolling, keeping, scoring, turn passing and winner computation are
  not in the modelled code. The dice fields are carried along unchanged.
- PyStrip.Strip: whitespace is the code-point list of Python's
  `str.isspace()`, and strings are sequences of code points.
- Server.GameServer.DropMappings: it takes the entries of the copied
  `ip_to_sid.items()` in an arbitrary order rather than dict order. The
  result does not depend on the order.
