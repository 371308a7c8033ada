# Contexto multiplayer: the session, rank and turn engine in Dafny

This project models the game engine of a multiplayer Contexto clone. Players
guess a hidden target noun. The server ranks each guess by its similarity to
the target, where rank 1 is the target itself. Sessions are either *open*
(anyone guesses at any time) or *alternating* (two registered players take
strict turns).

The server (`server/index.js`) keeps a table `sessionId → game`. Each game
holds a target, a mode, a player list and a turn index. Five handlers change
or read that table: start, restart, guess, mode lookup and the socket `join`.
Node.js runs each handler to completion. So every operation is modelled as a
pure transition from the table to a new table, plus a reply and the ordered
list of events broadcast to the session's room (`new-guess`, `turn-changed`,
`game-restarted`).

Modules:

- `Options` (`options.dfy`): `Option`, which stands for JavaScript's `undefined`.
- `Text` (`text.dfy`): `toLowerCase` and the decimal `toString` of a
  non-negative integer, with the parser that inverts it.
- `SessionIds` (`session_ids.dfy`): `generateSessionId`, i.e. six-digit ids
  drawn by rejection sampling, plus the pigeonhole argument that a fresh id
  exists.
- `Vocabulary` (`vocabulary.dfy`): the noun list, the nouns that have
  vectors, target choice, and the rank of a guess as its position in the
  similarity-sorted list.
- `Engine` (`engine.dfy`): the game table, the five operations, the
  invariants and the turn rules.
- `Traces` (`traces.dfy`): arbitrary sequences of requests, and a two-player
  scenario.

Parameters stand in for everything the engine takes from outside:

- `Math.random` becomes a target index `pick` and a stream of id `draws`. A
  `requires` keeps both in the range `Math.random` can produce.
- Cosine similarity and the float sort become a `ranking` parameter. It must
  be a reordering (equal multiset) of the valid nouns. Where scores matter,
  they come from an arbitrary `sim: string -> real`.
- The noun list and the embedding table become a `Vocab` value: the nouns, and
  the set of nouns that have a vector.

The model reproduces these behaviours of the server code:

- The turn check runs before word validation. An out-of-turn guess of an
  unknown word is reported as a turn error.
- A guess is validated against the noun list only. A listed noun without a
  vector is accepted, with rank `findIndex + 1 = 0`, not rejected.
- There is no finished state. After a correct guess nothing changes, and the
  same mover may keep guessing.
- Any mode string other than `"alternating"` behaves as open play. A start
  request without a mode gets `"open"`.

## Model

| member | source | states |
|---|---|---|
| `SessionIds.GenerateSessionId` | server/index.js:17-23 | The id returned is the first draw whose six-digit id is not a live session. It is not a key of the table, and every earlier draw collided. |
| `SessionIds.FreshIdExists` | server/index.js:17-23 | With fewer than 900000 live sessions, some draw yields a fresh id, so rejection sampling can stop. |
| `SessionIds.IdOf` | server/index.js:20 | `(100000 + d).toString()` is a six-digit string with no leading zero, and its value is `100000 + d`. |
| `SessionIds.IdOfOnto` | server/index.js:20 | Every six-digit id without a leading zero is produced by exactly one draw: its value minus 100000. |
| `SessionIds.IdOfInjective` | server/index.js:17-23 | Distinct draws give distinct ids, so the 900000 draws name 900000 different sessions. |
| `Text.ToDecimal` | server/index.js:20 | `n.toString()` is a non-empty string of digits with no leading zero, and starts with `0` exactly when `n` is 0; parsing it back gives `n` (`Text.ParseToDecimal`). |
| `Text.ParseToDecimal` | server/index.js:20 | Parsing the decimal string of `n` gives `n` back. |
| `Text.ToDecimalParse` | server/index.js:20 | Printing the value of a canonical decimal string gives the string back. |
| `Text.ToDecimalLength` | server/index.js:20 | A number with `k` digits prints as exactly `k` characters. |
| `Text.ToLower` | server/index.js:81 | Lower-casing keeps the length, maps each `A`–`Z` to its lower-case letter (code point + 32), keeps every other character, and leaves no upper-case letter. |
| `Text.ToLowerFixedPoints` | server/index.js:81 | A string is unchanged by lower-casing exactly when it is already lower case. |
| `Text.ToLowerIdempotent` | server/index.js:81 | Lower-casing twice equals lower-casing once. |
| `Vocabulary.FilterEmbedded` | server/index.js:46 | The filter keeps each noun that has a vector, with its full multiplicity, and drops every noun without one. |
| `Vocabulary.Valid` | server/index.js:106 | A word is valid exactly when it is in the noun list and has a vector. |
| `Vocabulary.PickTarget` | server/index.js:47 | A target is defined exactly when some noun is valid, and then it is a valid noun. |
| `Vocabulary.EveryValidNounCanBePicked` | server/index.js:47 | Every valid noun can be chosen as the target. |
| `Vocabulary.IndexOf` | server/index.js:110 | `findIndex` returns -1 exactly when the word is absent. Otherwise it returns the first index holding the word. |
| `Vocabulary.Rank` | server/index.js:110 | The rank is 0 exactly when the word is not in the sorted list. Otherwise it is the 1-based position of the word's first occurrence. |
| `Vocabulary.RankOfNoun` | server/index.js:98-110 | For a listed noun, 1 ≤ rank ≤ (number of valid nouns) exactly when the noun has a vector, and rank = 0 exactly when it has none. |
| `Vocabulary.TargetRankPositive` | server/index.js:104-110 | The target's own rank is at least 1. |
| `Vocabulary.RankWithinTies` | server/index.js:107-110 | In the similarity-sorted list, rank is above the count of strictly closer words and at most the count of words at least as close. |
| `Vocabulary.RankCountsCloserNouns` | server/index.js:106-110 | With no ties, rank = 1 + the number of valid nouns strictly more similar to the target. |
| `Vocabulary.CountPermutation` | server/index.js:107-109 | Reordering the valid nouns (the sort) changes no count of words meeting a condition. |
| `Engine.Start` | server/index.js:43-58 | Start adds exactly the new id and leaves every other session unchanged. The new game has mode as requested (default `"open"`), no players, index 0 and a valid target. |
| `Engine.StartGame` | server/index.js:43-58 | The whole start request returns a fresh six-digit id and creates exactly the session `Engine.Start` describes under it (requested mode or `"open"`, no players, index 0, a valid target, the mode echoed in the reply), adds only that session, and preserves the invariants. |
| `Engine.Restart` | server/index.js:62-76 | An unknown id fails with no change and no events. A known session keeps its mode, gets a valid target, empty players and index 0, and emits exactly one `game-restarted`. No other session changes. |
| `Engine.Join` | server/index.js:136-151 | An unknown session is a no-op. An alternating game appends a name only if it is absent and fewer than 2 are registered. `turn-changed{players[0]}` is emitted exactly when the count becomes 2. Open play changes nothing. |
| `Engine.Guess` | server/index.js:79-125 | Rejections come in order: unknown session, waiting for a second player, not the mover, word not listed. Each leaves the table unchanged and emits nothing. A guess is accepted exactly when the session exists, the turn rules let the guesser play and the lower-cased word is listed. An accepted guess emits `new-guess` first; in alternating play a wrong one moves the index to `(i + 1) % |players|` and announces that player. Only the turn index can change. |
| `Engine.GetMode` | server/index.js:128-132 | The mode of a known session; an invalid-session error otherwise. |
| `Engine.StartPreservesInv` | server/index.js:50-56 | Start preserves the invariants: no duplicate players, at most 2, index 0 below two players and in {0,1} at two, no players in open play, and a valid target. |
| `Engine.RestartPreservesInv` | server/index.js:69-72 | Restart preserves the invariants. |
| `Engine.JoinPreservesInv` | server/index.js:142-149 | Join preserves the invariants, including no duplicates and at most two players. |
| `Engine.GuessPreservesInv` | server/index.js:117-122 | The turn advance `(i + 1) % 2` preserves the invariants. |
| `Engine.TurnCheckBeforeWordCheck` | server/index.js:86-101 | In alternating play, an unlisted word gives a waiting error or a turn error whenever one applies, and a word error only for the mover. |
| `Engine.NobodyGuessesAlone` | server/index.js:87-90 | Before two players join an alternating game, every guess is rejected with no change. |
| `Engine.OutOfTurnRefused` | server/index.js:91-94 | In a two-player alternating game, a guess from anyone but the mover is refused with no change and no events. |
| `Engine.WrongGuessPassesTurn` | server/index.js:86-122 | A wrong guess by the mover of a two-player game emits `new-guess` then `turn-changed` naming the other player. That player becomes mover, and the previous mover's next guess is refused. |
| `Engine.CorrectGuessKeepsPlaying` | server/index.js:112-124 | A correct guess leaves the table unchanged, so the same guess by the same player is accepted again with the same result. |
| `Engine.OpenPlayAcceptsAnyone` | server/index.js:86-124 | In a non-alternating game, anybody's guess of a listed noun is accepted and changes nothing. |
| `Engine.AcceptedGuessRank` | server/index.js:97-112 | For an accepted guess, the rank is in 1..(number of valid nouns) iff the noun has a vector, and 0 iff it has none. `correct` holds iff the guess equals the target, and then rank ≥ 1. |
| `Traces.ApplyKeepsModes` | server/index.js:43-151 | No request changes the mode of an existing session. |
| `Traces.ApplyPreservesInv` | server/index.js:43-151 | Every request preserves the invariants. |
| `Traces.RunPreservesInv` | server/index.js:43-151 | Every table reachable by any sequence of requests satisfies the invariants. |
| `Traces.ModeNeverChanges` | server/index.js:128-132 | After any sequence of requests, including restarts, sessions still exist and `GetMode` gives the same answer. |
| `Traces.ScenarioTwoPlayersJoin` | server/index.js:136-151 | Two joins to a new alternating game: the first emits nothing, the second announces the first player. |
| `Traces.ScenarioTurnsAlternate` | server/index.js:86-122 | In that game the second player's guess is refused. The first player's wrong guess `"Cat"` ranks 2 and hands the turn to the second player. |

## Left out

- `cosineSimilarity` (server/index.js:26-31) and the float sort: floating-point numerics. They are replaced by the `ranking` parameter and, for the count lemmas, an arbitrary `sim` score.
- `Math.random`: replaced by the `pick` and `draws` parameters.
- `SessionIds.GenerateSessionId`: its termination rests on a `requires` that the draw stream contains a fresh id. The source's loop stops only with probability 1. `FreshIdExists` shows that such a draw exists while fewer than 900000 sessions are live.
- `Text.ToLower`: only ASCII `A`–`Z` are lower-cased. Unicode case mapping is not modelled.
- Express routing, HTTP status codes, error message texts and `res.json` framing: transport. They map to the `Reply` and `Error` datatypes.
- Socket.IO rooms: `socket.join(sessionId)` subscribes the caller to broadcasts. The model keeps only the ordered event list, not who receives it. The `disconnect` handler does nothing.
- The `lastSim` field: it is always `null` and nothing reads it.
- The debug `/api/target` endpoint and startup loading (server/index.js:159-175): a plain lookup and I/O.
- A request body without `guess`, where `toLowerCase` on `undefined` throws. A `mode`, `sessionId` or `userName` that is not a string. Keys such as `"constructor"` that a plain JavaScript object inherits from its prototype. All of these are outside the string-keyed model.
- An empty valid-noun list is kept: the target is then `undefined` (`None`). The invariant records this case.
- The client (`client/src/App.js`): its duplicate-guess check and client-side turn gate are presentation logic.
- `server/embeddings.js` and `prune_embeddings.py`: file loading and JSON parsing.
- Concurrency: handlers run to completion, so requests are modelled one after another (`Traces`).
