/** The `Game` object of main.go and the package variables its methods update. Every method
    is proved to leave the object in the state the matching function of module Rules gives. */
module WonderWords {
  import opened Strings
  import opened Strconv
  import opened Rules

  /** The package variables `totalScore` (starts at 0) and `moves` (starts at 3). */
  class Globals {
    var totalScore: int
    var moves: int

    constructor ()
      ensures Value() == InitialCounters
    {
      totalScore := 0;
      moves := 3;
    }

    function Value(): Counters
      reads this
    {
      Counters(totalScore, moves)
    }
  }

  /** `NewGame`'s mask loop: one space or placeholder per rune of the word. */
  method BuildMask(word: string) returns (mask: string)
    ensures IsInitialMask(word, mask)
  {
    mask := "";
    var i := 0;
    while i < |word|
      invariant 0 <= i <= |word|
      invariant IsInitialMask(word[..i], mask)
    {
      if word[i] == ' ' {
        mask := mask + " ";
      } else {
        mask := mask + [Placeholder];
      }
      i := i + 1;
    }
    assert word[..i] == word;
  }

  /** `countCharacter`: the number of runes of `word` whose one-rune string equals `character`. */
  method CountCharacter(word: string, character: string) returns (count: nat)
    ensures count == Occurrences(word, character)
  {
    count := 0;
    var i := 0;
    while i < |word|
      invariant 0 <= i <= |word|
      invariant count == Occurrences(word[..i], character)
    {
      assert word[..i + 1][..i] == word[..i];
      if [word[i]] == character {
        count := count + 1;
      }
      i := i + 1;
    }
    assert word[..i] == word;
  }

  /** The loop of `MakeGuess` (main.go:195-201): copy the mask into a rune buffer, write the
      word's rune into every position whose rune matches the guess, and count the writes. */
  method RevealLoop(word: string, mask: string, guess: string) returns (revealed: string, count: nat)
    requires |word| <= |mask|
    ensures revealed == Reveal(word, mask, guess)
    ensures count == MatchCount(word, guess)
  {
    var buffer := new char[|mask|](i requires 0 <= i < |mask| => mask[i]);
    count := 0;
    var i := 0;
    while i < |word|
      invariant 0 <= i <= |word|
      invariant count == MatchCount(word[..i], guess)
      invariant forall k :: 0 <= k < buffer.Length ==>
                  buffer[k] == if k < i && Matches(word[k], guess) then word[k] else mask[k]
    {
      assert word[..i + 1][..i] == word[..i];
      if [word[i]] == ToLower(guess) || [word[i]] == ToUpper(guess) {
        buffer[i] := word[i];
        count := count + 1;
      }
      i := i + 1;
    }
    assert word[..i] == word;
    revealed := buffer[..];
  }

  class Game {
    var players: map<int, Conn>
    var turn: int
    var word: string
    var revealedWord: string
    var description: string
    var scores: map<int, int>
    var wordList: seq<Word>
    var message: string

    /** The fields as a value of Rules.State. */
    function Value(): State
      reads this
    {
      State(players, turn, word, revealedWord, description, scores, wordList, message)
    }

    ghost predicate Valid()
      reads this
    {
      Inv(Value())
    }

    /** `NewGame`, with the random catalogue draw replaced by the chosen `entry`. */
    constructor NewGame(entry: Word)
      ensures IsNewGame(Value(), entry)
      ensures Valid()
    {
      var mask := BuildMask(entry.wordEntry);
      players := map[];
      turn := 1;
      word := entry.wordEntry;
      revealedWord := mask;
      description := entry.description;
      scores := map[];
      wordList := [];
      message := [];
      new;
      NewGameSatisfiesInv(Value(), entry);
    }

    /** `AddPlayer`: returns the new id and the ids the join is broadcast to. */
    method AddPlayer(conn: Conn) returns (playerID: int, notified: set<int>)
      requires Valid()
      modifies this
      ensures Valid()
      ensures (Value(), playerID) == Rules.AddPlayer(old(Value()), conn)
      ensures notified == JoinLeaveRecipients(Value())
    {
      playerID := |players| + 1;
      players := players[playerID := conn];
      scores := scores[playerID := 0];
      notified := players.Keys;
    }

    /** `RemovePlayer`: returns the ids the leave is broadcast to. */
    method RemovePlayer(playerID: int) returns (notified: set<int>)
      requires Valid()
      modifies this
      ensures Valid()
      ensures Value() == Rules.RemovePlayer(old(Value()), playerID)
      ensures notified == JoinLeaveRecipients(Value())
    {
      players := players - {playerID};
      scores := scores - {playerID};
      notified := players.Keys;
    }

    /** `NextTurn`. */
    method NextTurn()
      modifies this
      ensures old(Valid()) ==> Valid()
      ensures Value() == Rules.NextTurn(old(Value()))
    {
      turn := turn + 1;
      if turn > |players| {
        turn := 1;
      }
    }

    /** `EndGame`: the reset, then the game-over broadcast over the (now empty) player map. */
    method EndGame() returns (notified: set<int>)
      modifies this
      ensures Valid()
      ensures Value() == Rules.EndGame(old(Value()))
      ensures notified == GameOverRecipients(old(Value()))
    {
      turn := 1;
      word := [];
      description := [];
      scores := map[];
      players := map[];
      wordList := [];
      notified := players.Keys;
    }

    /** `MakeGuess`: reveals the matching runes of the word, then does the score and
        attempt bookkeeping on the package counters. */
    method MakeGuess(playerID: int, character: string, globals: Globals) returns (isCorrect: bool)
      requires Valid()
      modifies this, globals
      ensures Valid()
      ensures GuessOutcome(Value(), globals.Value(), isCorrect)
           == Rules.MakeGuess(old(Value()), old(globals.Value()), playerID, character)
    {
      ghost var s0, c0 := Value(), globals.Value();
      MakeGuessBasics(s0, c0, playerID, character);
      isCorrect := false;
      if turn == playerID {
        var count := 0;
        var mask := revealedWord;
        if IsFreshGuess(revealedWord, character) {
          mask, count := RevealLoop(word, revealedWord, character);
        }
        revealedWord := mask;
        isCorrect := ScoreGuess(count, globals);
      }
    }

    /** The score and attempt bookkeeping at the end of `MakeGuess`; `count` is the number of
        runes the guess revealed, and the guess was correct when it is positive. */
    method ScoreGuess(count: nat, globals: Globals) returns (isCorrect: bool)
      modifies this, globals
      ensures GuessOutcome(Value(), globals.Value(), isCorrect)
           == Rules.ScoreGuess(old(Value()), old(globals.Value()), count)
      ensures old(Valid()) ==> Valid()
    {
      ghost var s0, c0 := Value(), globals.Value();
      ScoreGuessBasics(s0, c0, count);
      isCorrect := count > 0;
      if !Contains(revealedWord, "-") {
        if isCorrect {
          RewardGuess(count, globals);
        } else {
          PenalizeGuess(globals);
        }
      }
    }

    /** A correct guess: 100 points per revealed rune, the message, the turn, and the reset
        once the mask equals the word. */
    method RewardGuess(count: nat, globals: Globals)
      requires count > 0 && !Contains(revealedWord, "-")
      modifies this, globals
      ensures GuessOutcome(Value(), globals.Value(), true)
           == Rules.ScoreGuess(old(Value()), old(globals.Value()), count)
      ensures old(Valid()) ==> Valid()
    {
      var score := PointsPerLetter * count;
      globals.totalScore := globals.totalScore + score;
      message := RightMessage(globals.totalScore);
      NextTurn();
      if revealedWord == word {
        var _ := EndGame();
      }
    }

    /** A wrong guess: the reset first when this was the last move, then minus 100 points,
        the message, the turn, and one move fewer. */
    method PenalizeGuess(globals: Globals)
      requires !Contains(revealedWord, "-")
      modifies this, globals
      ensures GuessOutcome(Value(), globals.Value(), false)
           == Rules.ScoreGuess(old(Value()), old(globals.Value()), 0)
      ensures old(Valid()) ==> Valid()
    {
      if globals.moves == 1 {
        var _ := EndGame();
      }
      globals.totalScore := globals.totalScore - PointsPerLetter;
      message := WrongMessage(globals.totalScore, globals.moves - 1);
      NextTurn();
      globals.moves := globals.moves - 1;
    }

    /** One message of `handlePlayerInput`: `MakeGuess`, then `NextTurn` whatever the guess
        did, then the state broadcast, whose recipients (or parse error) are returned. */
    method HandlePlayerInput(playerID: int, character: string, globals: Globals)
      returns (recipients: Result<set<int>>)
      requires Valid()
      modifies this, globals
      ensures Valid()
      ensures var r := PlayerInputStep(old(Value()), old(globals.Value()), playerID, character);
              Value() == r.state && globals.Value() == r.counters
      ensures recipients == SnapshotRecipients(Value(), Itoa(playerID))
    {
      var _ := MakeGuess(playerID, character, globals);
      NextTurn();
      recipients := SnapshotRecipients(Value(), Itoa(playerID));
    }
  }
}
