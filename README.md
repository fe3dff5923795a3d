# TypeRush room state machine in Dafny

This project models the client side of a TypeRush typing race: the `GamePlayer`
component that keeps one player's view of a room. The component holds five
state cells: the roster, the game status, the paragraph, the host id and the
typing buffer. It has one handler per server event (`players`, `player-joined`,
`player-left`, `player-score`, `game-started`, `game-finished`, `new-host`,
`error`). It emits `player-typed` and `start-game` under phase and socket
guards, offers the Start button only to the host, and renders a leaderboard by
sorting the roster on score, descending.

Layout:

- `types.dfy` (module `Types`): players, score updates, game status, outbound events.
- `roster.dfy` (module `Roster`): the pure roster updaters passed to `setPlayers`
  (append, filter by id, re-score by id) and their lemmas.
- `standings.dfy` (module `Standings`): the comparator `b.score - a.score`, a
  stable insertion sort driven by it, ranks `index + 1`, and the lemmas that the
  sort is ordered, a permutation, stable, and the only stable sort. ECMAScript
  requires `Array.prototype.sort` to be stable (section 23.1.3.30 of ECMA-262,
  2023 edition).
- `game.dfy` (module `Game`): class `Room` with the state cells as fields, the
  socket's presence and id, and an `outbox` of emitted events. It has one
  method per inbound event, the typing and Start actions, the unload hook and
  the render's in-place sort. `View` gives the state-dependent part of the page.
  `HostRace` is a client that follows one race using only these contracts.

Every handler's `modifies` clause names only the fields it may change, and its
`ensures` state what they become, so "nothing else changes" is part of each
contract. `Room.Valid` is kept by every handler.
It says the socket id exists only when there is a socket, and the typing buffer
is empty whenever no race is running. So `game-started` never clears the buffer,
yet it finds it empty unless it arrives during a running race.

The model keeps these behaviours exactly as the code has them:

- `player-joined` appends without looking for the id (a repeated id is listed twice).
- `players` replaces the roster in every phase, not only before the race.
- `game-started` is accepted in every phase, sets the paragraph and status, and leaves the buffer untouched.
- `startGame` checks only that a socket exists. The host and phase guard exists
  only because the Start button is rendered only for the host while not started
  or finished.
- The leaderboard is not a pure view. `players.sort` reorders the state array
  during render, so the stored roster keeps the order of the last render. Ties
  then follow the previous render's order, not arrival order
  (`Standings.TiesFollowPreviousRender`).
- The typed-input effect fires only when the buffer's value changes. A
  keystroke that leaves the buffer equal sends nothing.

## Model

| member | source | states |
|---|---|---|
| Roster.Joined | app/components/game.tsx:67-69 | the roster grows by one; the earlier entries are unchanged and in order, and the new player is last |
| Roster.JoinedKeepsDuplicates | app/components/game.tsx:67-69 | no dedup by id: the new player's id occurs once more than before; the count of every other id is unchanged |
| Roster.Without | app/components/game.tsx:71-73 | a player is kept iff it was in the roster and its id differs from the departing id; the roster never grows |
| Roster.WithoutAppend | app/components/game.tsx:71-73 | filtering distributes over concatenation, so survivors keep their original relative order |
| Roster.WithoutSingle | app/components/game.tsx:71-73 | a single entry survives exactly when its id differs |
| Roster.WithoutMultiset | app/components/game.tsx:71-73 | each entry with another id survives with its multiplicity; none with the id survives; the length drops by the number of entries with the id |
| Roster.WithoutAbsent | app/components/game.tsx:71-73 | `player-left` for an id nobody has leaves the roster unchanged |
| Roster.WithoutIdempotent | app/components/game.tsx:71-73 | applying the same `player-left` twice equals applying it once |
| Roster.Rescored | app/components/game.tsx:75-87 | length, order, ids and names are preserved; every entry with the id gets the new score; every other entry is unchanged |
| Roster.RescoredAbsent | app/components/game.tsx:75-87 | a score for an absent id is a no-op |
| Roster.RescoredIdempotent | app/components/game.tsx:75-87 | applying the same score update twice equals applying it once |
| Roster.ScoreAfterLeave | app/components/game.tsx:71-87 | a score arriving after a player left does not bring the player back |
| Roster.LeaveAfterScore | app/components/game.tsx:71-87 | a score followed by a departure gives the same roster as the departure alone |
| Standings.Compare | app/components/game.tsx:144 | the comparator is negative iff `a` has the higher score (so `a` goes first) and zero iff the scores tie (so a stable sort keeps their order) |
| Standings.Insert | app/components/game.tsx:144 | one insertion step adds exactly one entry: the multiset grows by that entry |
| Standings.InsertOrdered | app/components/game.tsx:144 | inserting into a score-descending sequence keeps it score-descending |
| Standings.InsertStable | app/components/game.tsx:144 | the inserted entry goes ahead of all entries with its score, and the order of every score class is otherwise kept |
| Standings.Sort | app/components/game.tsx:144 | the sorted roster is a permutation of the roster |
| Standings.SortOrdered | app/components/game.tsx:144 | the sorted roster is in non-increasing score order |
| Standings.SortStable | app/components/game.tsx:144 | stability: for every score, the entries with that score appear in roster order |
| Standings.OrderedAgreementIsEqual | app/components/game.tsx:144 | two score-descending sequences that agree on the ordered entries of every score are equal |
| Standings.SortIsTheStableSort | app/components/game.tsx:144 | any score-descending arrangement that keeps roster order within each score equals `Sort` |
| Standings.SortOfOrdered | app/components/game.tsx:144 | sorting a roster already in leaderboard order changes nothing, so a re-render does not reorder |
| Standings.SortPair | app/components/game.tsx:144 | two entries are swapped iff the second has the strictly higher score |
| Standings.TiesFollowPreviousRender | app/components/game.tsx:75-87 | with the in-place sort, a tied pair can end in the reverse of arrival order after a score rises and falls back |
| Standings.Leaderboard | app/components/game.tsx:143-151 | one card per player; card `i` has rank `i + 1`; scores never increase down the board; the players are a permutation of the roster; ties keep roster order |
| Game.Room.constructor | app/components/game.tsx:15-19 | empty roster, not started, empty paragraph, host and buffer; nothing emitted |
| Game.Room.View | app/components/game.tsx:156-211 | Start is shown iff the local socket id equals the host and the status is not-started or finished; the typing panel shows iff in progress, enabled iff a socket exists |
| Game.Room.OnPlayers | app/components/game.tsx:62-65 | the roster becomes exactly the snapshot, in any status; nothing else changes |
| Game.Room.OnPlayerJoined | app/components/game.tsx:67-69 | the roster becomes the old roster plus the player, without dedup; nothing else changes |
| Game.Room.OnPlayerLeft | app/components/game.tsx:71-73 | the roster becomes the filtered roster: exactly the old entries with another id; nothing else changes |
| Game.Room.OnPlayerScore | app/components/game.tsx:75-87 | each entry with the id takes the score, the others are unchanged, length kept; nothing else changes |
| Game.Room.OnGameStarted | app/components/game.tsx:89-92 | paragraph and in-progress status are set from any phase; roster, host and buffer untouched; the buffer is empty when the race was not already running |
| Game.Room.SetInput | app/components/game.tsx:48-52 | the buffer takes the value; `player-typed` with the whole buffer is appended iff the value changed, a socket exists and the race is running |
| Game.Room.OnGameFinished | app/components/game.tsx:94-97 | status finished, buffer empty, paragraph kept, nothing emitted |
| Game.Room.OnNewHost | app/components/game.tsx:99-101 | the host id is overwritten with the new id; nothing else changes |
| Game.Room.OnError | app/components/game.tsx:103-105 | the message is handed to the notification sink; no state changes |
| Game.Room.LocalType | app/components/game.tsx:184-189 | a keystroke changes the buffer only while in progress with a socket, and is sent iff it changed the buffer; otherwise buffer and outbox are unchanged |
| Game.Room.StartGame | app/components/game.tsx:122-126 | `start-game` is appended iff a socket exists; the status never changes |
| Game.Room.Unload | app/components/game.tsx:128-132 | `leave` is appended iff a socket exists; nothing else changes |
| Game.Room.Render | app/components/game.tsx:143-151 | the stored roster becomes its stable sort; the cards returned are the leaderboard of the old roster, in the new stored order |

## Left out

- Socket construction, connection and disconnection (lines 22-46) are network I/O.
  The socket's presence and id are constructor parameters of `Room` and do not change afterwards.
- The `join-game` emission at connection time (line 32) is part of socket setup and is not modelled.
- Registering and removing listeners (lines 55-60, 108-120) is not modelled. Each handler is a method the environment may call at any time.
- The toast shown for `error` (line 104) is a foreign UI library. `OnError` only returns the message.
- JSX rendering is left out, except the state-dependent choices that `View` records.
- The `incorrectIndex` state (line 20) is never updated and is left out.
- When React renders, and how it batches updates, is left out. `Render` is a method the environment calls between events.
- Scores are JavaScript numbers. They are modelled as `int`, so the comparator `b.score - a.score` is exact.
- Server behaviour (score computation, paragraph choice, host election) is not visible to the client and is not modelled.
- app/page.tsx, app/components/copy.tsx and app/components/leaderboard-card.tsx are not part of this model: a landing form, a clipboard call with a timer, and a card that shows name, score and rank.
