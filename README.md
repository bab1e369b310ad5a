# Wonder Words: a verified model of the game engine

Wonder Words is a multiplayer word-guessing game served over websockets. One `Game` object holds
the secret word, the revealed mask (a placeholder `_` for every hidden rune and a space for every
space), the turn pointer, the connected players and their scores. Two package variables hold the
shared state: `totalScore` (starts at 0) and `moves`, the remaining wrong guesses (starts at 3).
Players join, leave and send one guess per message. A correct guess reveals the matching runes
and adds 100 points per rune to the shared total. A wrong guess subtracts 100 and one move. The
game resets when the word is fully revealed or when the last move is used.

The model has four modules:

- `Strings` (strings.dfy): Go's `strings.ToLower`, `strings.ToUpper` and `strings.Contains`.
  Strings are sequences of runes.
- `Strconv` (strconv.dfy): `strconv.Itoa`, which is also what `%d` prints, and `strconv.Atoi`.
  It proves that parsing a printed 64-bit value gives the value back, and that printing is injective.
- `Rules` (rules.dfy): the game as values. `State` holds the `Game` fields and `Counters` holds
  `totalScore` and `moves`. It has one function per operation (`AddPlayer`, `RemovePlayer`,
  `NextTurn`, `EndGame`, `MakeGuess`, one message of `handlePlayerInput`) and the invariant `Inv`
  that every reachable game satisfies.
- `WonderWords` (game.dfy): the imperative model. `Game` is a class with the source's fields,
  and `Globals` is a class with the two package variables. Each method is proved to leave exactly
  the state that the matching `Rules` function gives. `NewGame` establishes `Inv`, and every
  method that changes the game keeps it. The mask loops of
  `NewGame` and `MakeGuess` and the counter loop of `countCharacter` are methods with loop
  invariants.
- `Properties` and `Scenarios` (properties.dfy): what the operations promise, stated as lemmas
  about `Rules`. This includes the behaviours of the code that a reader might not expect (listed
  below), and worked examples on fixed games.

Behaviours of main.go that the model pins down:

- The "finished?" test at main.go:206 looks for `"-"`, but the placeholder is `"_"`. So the test
  only fails once a `-` of the word itself has been revealed. From then on, every guess skips all
  scoring and turn bookkeeping (`HyphenSkipsBookkeeping`, `HyphenatedWord`).
- An empty guess, a guess longer than one rune, and a letter already shown in either case are all
  scored as wrong guesses (`EmptyGuessIsWrong`, `LongGuessIsWrong`, `RepeatGuessIsWrong`).
- Points go to the shared `totalScore`; `Scores` only ever holds the zeros that `AddPlayer` wrote
  (part of `Inv`).
- `AddPlayer` uses `len(Players)+1` as the new id. After a lower id has left, that id can belong
  to a live player, whose connection is then replaced (`AddPlayerCollision`,
  `RejoinOverwritesLivePlayer`). Once the turn lies within 1..count (any `NextTurn` puts it
  there), a player whose id exceeds the count never gets it (`HighIdNeverPlays`, `LeaveStallsGame`).
  Right after a leave, though, the turn can exceed the count while its holder is still
  connected. That player then plays once more before the turn wraps (`HighIdPlaysAfterLeave`).
- `EndGame` empties `Players` before its game-over loop, so that loop reaches nobody
  (`GameOverRecipients`).
- The message handler calls `NextTurn` after every `MakeGuess`. So a guess out of turn still moves
  the turn, and a scored guess moves it twice (`OutOfTurnMessageAdvancesTurn`,
  `ScoredMessageAdvancesTwice`, `SeaTower`).

Behaviours a reader might expect that the code does not have:

- The mask is not always as long as the word. `EndGame` clears the word and keeps the mask, so
  `Inv` says `word == [] || |mask| == |word|`.
- There is no game-over status. After a reset the turn is 1, and further guesses by the holder of
  the turn are processed as wrong guesses that keep lowering `moves`, below zero if need be
  (`GuessAfterResetIsWrong`, `EveryGuessAfterResetIsWrong`).
- A leave does not re-point the turn (`Rules.RemovePlayer`).
- A repeated guess does more than use up a turn. It also costs 100 points and a move.
- In the "SEA TOWER" example, guessing "e" gives the mask `_E_ ___E_`. `MakeGuess` hands the turn
  to player 2, and the handler's extra `NextTurn` wraps it back to player 1.
- The loop at main.go:195 ranges over `[]rune(g.Word)`, so its index is a rune index. Word and mask
  are compared rune by rune, and the word does not need to be ASCII. Only the case mapping is
  restricted to ASCII.
- In `handleWebSocket`, `defer game.RemovePlayer(playerID)` runs as soon as the handler returns,
  right after it starts the input goroutine. The model covers this join-then-leave pair
  (`JoinThenLeaveRestores`) but not the connection handler itself. The pair restores the game
  only when no live player held the id the join handed out. Otherwise the join has replaced
  that player's connection, and the leave removes the player.
- The state snapshot after a message skips the player who now holds the turn, not the
  guesser. With players 1, 2 and 3 and the turn at 2, a message from player 1 moves the turn
  to 3. The snapshot then goes to players 1 and 2 (`SnapshotSkipsHolderNotGuesser`).

## Model

| member | source | states |
|---|---|---|
| `Strings.ContainsEmpty` | main.go:194 | `strings.Contains(s, "")` holds for every mask, which is why an empty guess is never fresh |
| `Strings.ContainsRune` | main.go:206 | `Contains` with a one-rune needle is exactly membership of that rune in the string |
| `Strings.ToLower` | main.go:194 | `strings.ToLower` keeps the length, leaves no upper-case letter, and agrees with its input up to case (ASCII letters only) |
| `Strings.ToUpper` | main.go:196 | `strings.ToUpper` keeps the length, leaves no lower-case letter, and agrees with its input up to case (ASCII letters only) |
| `Strings.Contains` | main.go:206 | defined as `substr` occurring at some offset of `s`; its properties are the two lemmas that follow |
| `Strconv.Itoa` | main.go:349 | the printed text is non-empty and starts with `-` exactly for negative values |
| `Strconv.Atoi` | main.go:255 | a parsed value is within the 64-bit range and negative only after a `-`; the empty string is a syntax error |
| `Strconv.FormatNatReadsBack` | main.go:349 | the digits `Itoa` prints for a natural number are non-empty, all decimal digits, and read back as the number |
| `Strconv.AtoiItoa` | main.go:255 | `strconv.Atoi(strconv.Itoa(n))` gives `n` back without error for every 64-bit `n` |
| `Strconv.ItoaInjective` | main.go:349 | two different integers never print the same decimal text |
| `Rules.NewGameSatisfiesInv` | main.go:149-165 | a freshly built game satisfies the invariant, and its mask equals the word only when the word holds only spaces and underscores |
| `Rules.PlayerNameReadsBack` | main.go:348-350 | a display name is "Player " followed by text that parses back to the id |
| `Rules.PlayerNameInjective` | main.go:348-350 | two ids never get the same display name |
| `Rules.PlayerNames` | main.go:332-338 | `getPlayerNames` names exactly the connected ids, and no two alike |
| `Rules.NextTurn` | main.go:231-236 | only the turn changes; it becomes `turn+1` or 1, and lies in `1..max(1, len(Players))` whenever it was not negative |
| `Rules.AddPlayer` | main.go:168-175 | the new id is `len(Players)+1`; the keys of both maps gain exactly that id, which holds the connection and a zero score; every other player keeps their connection and no other field changes; the invariant is kept |
| `Rules.RemovePlayer` | main.go:177-181 | the id leaves the keys of both maps; the remaining players keep their connections; nothing else changes, the turn included; the invariant is kept |
| `Rules.JoinLeaveRecipients` | main.go:280-330 | defined as the ids connected after the change, which the join and leave broadcasts loop over |
| `Rules.PlayerName` | main.go:348-350 | defined as "Player " followed by `strconv.Itoa(id)`; its properties are the two lemmas that follow |
| `Rules.EndGame` | main.go:378-386 | the reset leaves no players, turn 1 and an empty word, keeps the mask and the message, and always satisfies the invariant |
| `Rules.ScoreGuess` | main.go:206-225 | the result is true exactly when something was revealed; while the mask holds `-` nothing changes; `moves` stays or drops by one |
| `Rules.MakeGuess` | main.go:186-229 | a guess out of turn changes nothing and returns false; a correct guess was in turn and fresh |
| `Rules.SnapshotRecipients` | main.go:254-275 | defined as every connected id but the turn holder, once the id text parses; its properties are `MessageBroadcastParses` and `SnapshotSkipsHolderNotGuesser` |
| `Rules.PlayerInputStep` | main.go:106-107 | one message keeps the invariant, and the handler's extra `NextTurn` leaves the counters as `MakeGuess` left them |
| `Rules.GameOverRecipients` | main.go:385-407 | the game-over broadcast of `EndGame` reaches no player at all |
| `Rules.MakeGuessBasics` | main.go:186-229 | a guess keeps the mask's length; `Scores` is kept or emptied by the reset, never changed otherwise; the invariant is preserved |
| `Rules.ScoreGuessBasics` | main.go:206-225 | the score and attempt bookkeeping keeps the mask, keeps or empties `Scores`, and preserves the invariant |
| `WonderWords.Globals.constructor` | main.go:183-184 | the shared counters start at `totalScore = 0`, `moves = 3` |
| `WonderWords.BuildMask` | main.go:149-156 | the mask has the word's length, with a space wherever the word has a space and `_` everywhere else |
| `WonderWords.CountCharacter` | main.go:368-376 | `countCharacter` returns the number of runes whose one-rune string equals `character` |
| `WonderWords.RevealLoop` | main.go:189-201 | the rune-buffer loop produces exactly `Reveal` of the mask and counts exactly the matching positions |
| `WonderWords.Game.NewGame` | main.go:137-165 | `NewGame` with the drawn entry: no players, turn 1, the entry's word and description, the initial mask, empty scores, word list and message; the invariant holds |
| `WonderWords.Game.AddPlayer` | main.go:168-175 | the id is `len(Players)+1`, computed before insertion; the connection and a zero score are stored under it; the join is sent to every player now connected |
| `WonderWords.Game.RemovePlayer` | main.go:177-181 | the id leaves `Players` and `Scores` and nothing else changes; the leave is sent to the remaining players |
| `WonderWords.Game.NextTurn` | main.go:231-236 | the object's turn advances as `Rules.NextTurn` says, and the invariant is kept |
| `WonderWords.Game.EndGame` | main.go:378-408 | turn 1, empty word, description, scores, players and word list; mask, message and counters untouched; nobody is notified; the invariant holds afterwards |
| `WonderWords.Game.MakeGuess` | main.go:186-229 | the object and the package counters end in exactly the state `Rules.MakeGuess` gives, with the same result, and the invariant is kept |
| `WonderWords.Game.ScoreGuess` | main.go:206-225 | the object and the counters end in the state `Rules.ScoreGuess` gives: nothing while the mask holds `-`, otherwise the correct-guess or wrong-guess bookkeeping; the invariant is kept |
| `WonderWords.Game.RewardGuess` | main.go:208-215 | the correct-guess branch ends in the state `Rules.ScoreGuess` gives for a positive count |
| `WonderWords.Game.PenalizeGuess` | main.go:216-224 | the wrong-guess branch ends in the state `Rules.ScoreGuess` gives for a count of zero |
| `WonderWords.Game.HandlePlayerInput` | main.go:106-111 | one message: the guess, then an unconditional `NextTurn`, then the state broadcast to every player but the one now in turn, after parsing the guesser's id |
| `Properties.MatchNeedsOneRune` | main.go:196 | a rune can only match a guess that is exactly one rune long |
| `Properties.MatchCountZero` | main.go:195-201 | the loop counts nothing exactly when no rune of the word matches (both directions) |
| `Properties.NoMatchRevealsNothing` | main.go:195-204 | with no match the mask comes back unchanged |
| `Properties.MatchCountIsNewlyRevealed` | main.go:195-207 | when no matching position is already shown, the loop's count equals the number of mask positions that changed |
| `Properties.FreshGuessMatchesHiddenPositions` | main.go:194 | under the not-yet-revealed guard, no position matching the guess already shows its rune |
| `Properties.MatchCountByOccurrences` | main.go:368-376 | the loop's count equals `countCharacter` of the lower-case form plus, when it differs, of the upper-case form |
| `Properties.OccurrencesIsMultiplicity` | main.go:368-376 | `countCharacter` of a one-rune string is that rune's multiplicity in the word |
| `Properties.OccurrencesOfLongString` | main.go:368-376 | `countCharacter` of a string that is not one rune long is 0 |
| `Properties.GuessRevealsOnlyMatches` | main.go:189-204 | a guess keeps the mask length and changes a position only where the word's rune matches the guess, and then to that rune |
| `Properties.CorrectGuess` | main.go:195-215 | a correct guess was in turn and fresh; the total grows by exactly 100 per newly revealed position (at least one); `moves` is untouched; the turn advances once; the reset happens exactly when the mask equals the word |
| `Properties.WrongGuessCases` | main.go:194-202 | an in-turn guess is wrong exactly when a case form is already in the mask or no rune of the word matches |
| `Properties.WrongGuess` | main.go:216-224 | a wrong guess keeps the mask, takes exactly 100 from the total and 1 from `moves`, sets the message and advances the turn, after a reset exactly when `moves` was 1 |
| `Properties.EmptyGuessIsWrong` | main.go:194 | the empty guess is always scored as wrong and reveals nothing |
| `Properties.LongGuessIsWrong` | main.go:196 | a guess that is not one rune long is always wrong and reveals nothing |
| `Properties.RepeatGuessIsWrong` | main.go:194 | a letter already shown in either case is wrong and reveals nothing |
| `Properties.HyphenSkipsBookkeeping` | main.go:206 | once the mask holds a `-`, an in-turn guess changes at most the mask: no score, message, turn or move change |
| `Properties.HyphenComesFromWord` | main.go:197 | the mask only comes to hold `-` when the word has one |
| `Properties.MovesNonIncreasing` | main.go:217-223 | `moves` never grows and drops by at most one per guess |
| `Properties.GuessAfterResetIsWrong` | main.go:216-224 | in a reset game (empty word), a guess by the turn holder is wrong, costs 100 points and a move, and leaves the word empty and the mask unchanged; with nobody connected the turn is 1 again |
| `Properties.EveryGuessAfterResetIsWrong` | main.go:98-107 | when nobody is connected after a reset, every one of any number of messages from the connection holding id 1 costs 100 points and a move |
| `Properties.OutOfTurnMessageAdvancesTurn` | main.go:106-107 | a message sent out of turn changes nothing but still advances the turn |
| `Properties.ScoredMessageAdvancesTwice` | main.go:106-107 | a scored guess that does not finish the word advances the turn twice |
| `Properties.HighIdNeverPlays` | main.go:231-236 | once the turn lies within 1..max(1, count), a player whose id exceeds the count never gets it; their messages only advance it, and it stays in range |
| `Properties.HighIdPlaysAfterLeave` | main.go:177-181 | after a leave with players 1..n and turn n, the holder's id exceeds the new count, yet that player's next guess is still scored (100 points and a move for a guess that cannot match), and only then does the turn wrap to 1 |
| `Properties.MessageBroadcastParses` | main.go:254-275 | after a message, `BroadcastGameState` never fails to parse the guesser's id, and it writes to every connected id except the turn holder |
| `Properties.SnapshotSkipsHolderNotGuesser` | main.go:254-275 | after a message, the snapshot skips whoever now holds the turn: a connected guesser who sent it out of turn and did not receive the turn gets it, and the new holder does not |
| `Properties.AddPlayerCollision` | main.go:168-171 | the new id is `len(Players)+1` with the connection and a zero score; the player count stays the same exactly when that id was already taken |
| `Properties.RejoinOverwritesLivePlayer` | main.go:168-181 | with players 1 and 2, if 1 leaves, a newcomer gets id 2 and replaces player 2's connection |
| `Properties.JoinThenLeaveRestores` | main.go:85-86 | removing the id that a join just handed out restores the game exactly, when no live player held that id |
| `Scenarios.SeaTowerReveal` | main.go:194-201 | against "SEA TOWER" with nothing revealed, "e" is fresh, matches twice and gives `_E_ ___E_` |
| `Scenarios.SeaTower` | main.go:106-107 | with two players, player 1's "e" scores 200, hands the turn to 2, and the handler's `NextTurn` brings it back to 1 |
| `Scenarios.HyphenatedWord` | main.go:206 | guessing "-" in "T-REX" returns true but gives no points and keeps the turn |
| `Scenarios.LeaveStallsGame` | main.go:177-181 | when player 1 leaves while holding the turn, no connected player has the turn, and player 2's messages leave the game unchanged |

## Left out

- HTTP and websocket plumbing is left out because it is I/O: gin routing, the upgrader,
  `handleWebSocket`, and the `ReadJSON`/`WriteJSON`/`WriteMessage` calls with their JSON encoding
  and write errors (main.go:55-118, 254-330, 388-408). Broadcasts are modelled only by their sets
  of recipient ids.
- Concurrency is left out. The source runs one goroutine per connection, and they change the
  shared `Game` without a lock. The model has one sequential caller.
- `loadWordList`, the `rand` draw and the `log.Fatal` on a missing catalogue are left out because
  they are file I/O and randomness. `NewGame` takes the chosen entry as a parameter.
- Case mapping covers only the ASCII letters. Go's `strings.ToLower`/`ToUpper` also map non-ASCII
  letters.
- `strings.Contains` works on bytes in Go. The model works on runes, which gives the same answers
  for valid UTF-8.
- `GetGameState` is left out because it only copies fields. `getPlayerIDs` is represented by the
  key set of `Players`, because Go's map iteration order is not defined.
- The `server` field of `Game` is never used, so it is left out.
- WonderWords.Game.MakeGuess: the model does not wrap `totalScore` and `moves` around at 64 bits.
  The model's integers are unbounded, and reaching those bounds would take about 10^16 guesses.
