/** The Wonder Words game as values: the fields of a `Game`, the two package counters, and
    one function per operation of main.go. The class in module WonderWords is proved to
    follow these functions; the lemmas here state what the operations promise. */
module Rules {
  import opened Strings
  import opened Strconv

  /** A player's websocket connection; the model only needs to tell connections apart. */
  datatype Conn = Conn(handle: nat)

  /** An entry of the word catalogue. */
  datatype Word = Word(wordID: int, wordEntry: string, description: string)

  /** The fields of a `Game` (the HTTP server handle aside). */
  datatype State = State(
    players: map<int, Conn>,
    turn: int,
    word: string,
    revealedWord: string,
    description: string,
    scores: map<int, int>,
    wordList: seq<Word>,
    message: string)

  /** The package-level variables `totalScore` and `moves`, shared by every player. */
  datatype Counters = Counters(totalScore: int, moves: int)

  /** What `MakeGuess` leaves behind: the game, the counters and its boolean result. */
  datatype GuessOutcome = GuessOutcome(state: State, counters: Counters, isCorrect: bool)

  const Placeholder: char := '_'
  const PointsPerLetter: int := 100
  const InitialCounters := Counters(0, 3)

  /** What every reachable game satisfies. The mask is as long as the word until `EndGame`
      clears the word and keeps the mask; the turn is at least 1; `scores` has the same keys
      as `players`, and every score is still the 0 that `AddPlayer` wrote. */
  predicate Inv(s: State) {
    && s.turn >= 1
    && (s.word == [] || |s.revealedWord| == |s.word|)
    && s.scores.Keys == s.players.Keys
    && forall id :: id in s.scores ==> s.scores[id] == 0
  }

  // ---------------------------------------------------------------------------------------
  // Creating a game

  /** The mask `NewGame` builds: a space where the word has a space, a placeholder elsewhere. */
  predicate IsInitialMask(word: string, mask: string) {
    && |mask| == |word|
    && forall i :: 0 <= i < |word| ==> mask[i] == (if word[i] == ' ' then ' ' else Placeholder)
  }

  /** The game `NewGame` returns once the catalogue draw has picked `entry`. */
  predicate IsNewGame(s: State, entry: Word) {
    && s.players == map[]
    && s.turn == 1
    && s.word == entry.wordEntry
    && IsInitialMask(entry.wordEntry, s.revealedWord)
    && s.description == entry.description
    && s.scores == map[]
    && s.wordList == []
    && s.message == []
  }

  lemma NewGameSatisfiesInv(s: State, entry: Word)
    requires IsNewGame(s, entry)
    ensures Inv(s)
    ensures s.word == s.revealedWord <==> forall i :: 0 <= i < |s.word| ==> s.word[i] in {' ', Placeholder}
  {
    if s.word == s.revealedWord {
      forall i | 0 <= i < |s.word| ensures s.word[i] in {' ', Placeholder} {
        assert s.revealedWord[i] == s.word[i];
      }
    }
  }

  // ---------------------------------------------------------------------------------------
  // Players

  /** `AddPlayer`: the new id is the player count plus one; the connection and a zero score
      are stored under it. */
  function AddPlayer(s: State, conn: Conn): (r: (State, int))
    ensures r.1 == |s.players| + 1
    ensures r.0.players.Keys == s.players.Keys + {r.1}
    ensures r.0.scores.Keys == s.scores.Keys + {r.1}
    ensures r.0.players[r.1] == conn && r.0.scores[r.1] == 0
    ensures forall id :: id in s.players && id != r.1 ==> r.0.players[id] == s.players[id]
    ensures r.0 == s.(players := r.0.players, scores := r.0.scores)
    ensures Inv(s) ==> Inv(r.0)
  {
    var id := |s.players| + 1;
    (s.(players := s.players[id := conn], scores := s.scores[id := 0]), id)
  }

  /** `RemovePlayer`: the id leaves both maps; nothing else changes. */
  function RemovePlayer(s: State, id: int): (r: State)
    ensures r.players.Keys == s.players.Keys - {id}
    ensures r.scores.Keys == s.scores.Keys - {id}
    ensures forall k :: k in r.players ==> r.players[k] == s.players[k]
    ensures r == s.(players := r.players, scores := r.scores)
    ensures Inv(s) ==> Inv(r)
  {
    s.(players := s.players - {id}, scores := s.scores - {id})
  }

  /** The ids told about a join or a leave: everyone in `players` after the change. */
  function JoinLeaveRecipients(s: State): set<int>
  {
    s.players.Keys
  }

  /** `getPlayerName`: "Player " followed by the id in decimal. */
  function PlayerName(id: int): string
  {
    "Player " + Itoa(id)
  }

  /** The id can be read back from the display name. */
  lemma PlayerNameReadsBack(id: int)
    requires MinInt <= id <= MaxInt
    ensures |PlayerName(id)| > 7 && PlayerName(id)[..7] == "Player "
    ensures Atoi(PlayerName(id)[7..]) == Ok(id)
  {
    FormatNatReadsBack(if id < 0 then -id else id);
    assert PlayerName(id)[7..] == Itoa(id);
    AtoiItoa(id);
  }

  /** Two players never share a display name. */
  lemma PlayerNameInjective(a: int, b: int)
    requires PlayerName(a) == PlayerName(b)
    ensures a == b
  {
    assert PlayerName(a)[7..] == Itoa(a);
    assert PlayerName(b)[7..] == Itoa(b);
    ItoaInjective(a, b);
  }

  /** `getPlayerNames`: a display name for every connected id, no two alike. */
  function PlayerNames(players: map<int, Conn>): (names: map<int, string>)
    ensures names.Keys == players.Keys
    ensures forall a, b :: a in names && b in names && a != b ==> names[a] != names[b]
  {
    var names := map id | id in players :: PlayerName(id);
    assert forall a, b :: a in names && b in names && names[a] == names[b] ==> a == b by {
      forall a, b | a in names && b in names && names[a] == names[b] ensures a == b {
        PlayerNameInjective(a, b);
      }
    }
    names
  }

  // ---------------------------------------------------------------------------------------
  // Turns and the end of a game

  /** `NextTurn`: advance the turn and wrap to 1 past the player count. */
  function NextTurn(s: State): (r: State)
    ensures r == s.(turn := r.turn)
    ensures s.turn >= 0 ==> 1 <= r.turn <= (if |s.players| == 0 then 1 else |s.players|)
    ensures r.turn == s.turn + 1 || r.turn == 1
  {
    s.(turn := if s.turn + 1 > |s.players| then 1 else s.turn + 1)
  }

  /** `EndGame`: the reset. The mask, the message and the package counters survive it. */
  function EndGame(s: State): (r: State)
    ensures Inv(r)
    ensures r.players == map[] && r.turn == 1 && r.word == []
    ensures r.revealedWord == s.revealedWord && r.message == s.message
  {
    s.(turn := 1, word := [], description := [], scores := map[], players := map[], wordList := [])
  }

  /** The ids `EndGame`'s game-over loop reaches: it iterates over the map it has just emptied. */
  function GameOverRecipients(s: State): (ids: set<int>)
    ensures ids == {}
  {
    EndGame(s).players.Keys
  }

  // ---------------------------------------------------------------------------------------
  // Guessing

  /** The comparison inside `MakeGuess`'s loop: the word's rune equals the lower- or the
      upper-case form of the whole guess. */
  predicate Matches(c: char, guess: string) {
    [c] == ToLower(guess) || [c] == ToUpper(guess)
  }

  /** The mask after `MakeGuess`'s loop: each position of the word that matches the guess
      gets the word's rune; every other position keeps its mask rune. */
  function Reveal(word: string, mask: string, guess: string): (r: string)
    requires |word| <= |mask|
    ensures |r| == |mask|
  {
    seq(|mask|, i requires 0 <= i < |mask| => if i < |word| && Matches(word[i], guess) then word[i] else mask[i])
  }

  /** The `count` of `MakeGuess`'s loop: the number of positions of the word matching the guess. */
  function MatchCount(word: string, guess: string): nat
  {
    if word == [] then 0
    else MatchCount(word[..|word| - 1], guess) + (if Matches(word[|word| - 1], guess) then 1 else 0)
  }

  /** What `countCharacter` counts: the runes of `word` whose one-rune string equals `character`. */
  function Occurrences(word: string, character: string): nat
  {
    if word == [] then 0
    else Occurrences(word[..|word| - 1], character) + (if [word[|word| - 1]] == character then 1 else 0)
  }

  /** The number of positions at which two equally long strings differ. */
  function Differences(a: string, b: string): nat
    requires |a| == |b|
  {
    if a == [] then 0
    else Differences(a[..|a| - 1], b[..|b| - 1]) + (if a[|a| - 1] == b[|b| - 1] then 0 else 1)
  }

  /** The guard of main.go:194: neither case form of the guess is in the mask yet. */
  predicate IsFreshGuess(mask: string, guess: string) {
    !Contains(mask, ToLower(guess)) && !Contains(mask, ToUpper(guess))
  }

  function RightMessage(totalScore: int): string
  {
    "Right guess! You have a total of " + Itoa(totalScore) + " points."
  }

  function WrongMessage(totalScore: int, movesLeft: int): string
  {
    "Wrong guess! You have a total of " + Itoa(totalScore) + " points. You have "
    + Itoa(movesLeft) + " moves remaining."
  }

  /** The score and attempt bookkeeping of `MakeGuess` (main.go:206-225), once the mask is
      updated and `count` runes matched. It is skipped while the mask holds a "-". */
  function ScoreGuess(s: State, c: Counters, count: nat): (r: GuessOutcome)
    ensures r.isCorrect <==> count > 0
    ensures Contains(s.revealedWord, "-") ==> r.state == s && r.counters == c
    ensures r.counters.moves == c.moves || r.counters.moves == c.moves - 1
  {
    if Contains(s.revealedWord, "-") then GuessOutcome(s, c, count > 0)
    else if count > 0 then
      var total := c.totalScore + PointsPerLetter * count;
      var s1 := NextTurn(s.(message := RightMessage(total)));
      GuessOutcome(if s1.revealedWord == s1.word then EndGame(s1) else s1, c.(totalScore := total), true)
    else
      var s1 := if c.moves == 1 then EndGame(s) else s;
      var total := c.totalScore - PointsPerLetter;
      var s2 := NextTurn(s1.(message := WrongMessage(total, c.moves - 1)));
      GuessOutcome(s2, Counters(total, c.moves - 1), false)
  }

  /** `MakeGuess(playerID, character)` as written: in turn, a fresh guess reveals the
      matching runes and counts them, then the bookkeeping runs. */
  function MakeGuess(s: State, c: Counters, playerID: int, character: string): (r: GuessOutcome)
    requires |s.word| <= |s.revealedWord|
    ensures s.turn != playerID ==> r == GuessOutcome(s, c, false)
    ensures r.isCorrect ==> s.turn == playerID && IsFreshGuess(s.revealedWord, character)
  {
    if s.turn != playerID then GuessOutcome(s, c, false)
    else
      var unseen := IsFreshGuess(s.revealedWord, character);
      var mask := if unseen then Reveal(s.word, s.revealedWord, character) else s.revealedWord;
      var count := if unseen then MatchCount(s.word, character) else 0;
      ScoreGuess(s.(revealedWord := mask), c, count)
  }

  /** A guess keeps the mask's length; `Scores` is kept, or emptied by a reset; and the
      invariant is preserved. */
  lemma MakeGuessBasics(s: State, c: Counters, playerID: int, character: string)
    requires |s.word| <= |s.revealedWord|
    ensures var r := MakeGuess(s, c, playerID, character);
      && |r.state.revealedWord| == |s.revealedWord|
      && (r.state.scores == s.scores || r.state.scores == map[])
      && (Inv(s) ==> Inv(r.state))
  {
    if s.turn == playerID {
      var unseen := IsFreshGuess(s.revealedWord, character);
      var mask := if unseen then Reveal(s.word, s.revealedWord, character) else s.revealedWord;
      ScoreGuessBasics(s.(revealedWord := mask), c, if unseen then MatchCount(s.word, character) else 0);
    }
  }

  /** The bookkeeping keeps the mask, keeps or empties `Scores`, and preserves the invariant. */
  lemma ScoreGuessBasics(s: State, c: Counters, count: nat)
    ensures var r := ScoreGuess(s, c, count);
      && r.state.revealedWord == s.revealedWord
      && (r.state.scores == s.scores || r.state.scores == map[])
      && (Inv(s) ==> Inv(r.state))
  {
    if !Contains(s.revealedWord, "-") {
      if count > 0 {
        var s1 := NextTurn(s.(message := RightMessage(c.totalScore + PointsPerLetter * count)));
        assert s1.revealedWord == s.revealedWord && s1.scores == s.scores;
      } else {
        var s1 := if c.moves == 1 then EndGame(s) else s;
        assert s1.revealedWord == s.revealedWord;
      }
    }
  }

  /** The ids `BroadcastGameState(playerID)` writes to: every connected id except the one
      whose turn it now is, once the id text parses. */
  function SnapshotRecipients(s: State, playerID: string): Result<set<int>>
  {
    match Atoi(playerID)
    case Err(e) => Err(e)
    case Ok(_) => Ok(s.players.Keys - {s.turn})
  }

  /** One message of `handlePlayerInput`: the guess, then an unconditional `NextTurn`. */
  function PlayerInputStep(s: State, c: Counters, playerID: int, character: string): (r: GuessOutcome)
    requires |s.word| <= |s.revealedWord|
    ensures Inv(s) ==> Inv(r.state)
    ensures r.counters == MakeGuess(s, c, playerID, character).counters
  {
    MakeGuessBasics(s, c, playerID, character);
    var r := MakeGuess(s, c, playerID, character);
    r.(state := NextTurn(r.state))
  }
}
