/** What the operations of module Rules promise, and the quirks of main.go pinned down as
    lemmas: guesses and scoring, turns, joining and leaving, and the broadcast recipients. */
module Properties {
  import opened Strings
  import opened Strconv
  import opened Rules

  // ---------------------------------------------------------------------------------------
  // Counting and revealing

  /** A guess can only match when it is exactly one rune long. */
  lemma MatchNeedsOneRune(c: char, guess: string)
    requires Matches(c, guess)
    ensures |guess| == 1
  {
    assert |ToLower(guess)| == |guess|;
  }

  /** No match is counted exactly when no position of the word matches. */
  lemma {:induction false} MatchCountZero(word: string, guess: string)
    ensures MatchCount(word, guess) == 0 <==> forall i :: 0 <= i < |word| ==> !Matches(word[i], guess)
  {
    if word != [] {
      var init := word[..|word| - 1];
      assert forall i :: 0 <= i < |init| ==> init[i] == word[i];
      MatchCountZero(init, guess);
    }
  }

  /** Extending a prefix by one rune adds one to the count exactly when that rune matches. */
  lemma MatchCountPrefix(word: string, k: nat, guess: string)
    requires k < |word|
    ensures MatchCount(word[..k + 1], guess) == MatchCount(word[..k], guess) + (if Matches(word[k], guess) then 1 else 0)
  {
    assert word[..k + 1][..k] == word[..k];
  }

  /** A word with no matching position leaves the mask as it was. */
  lemma NoMatchRevealsNothing(word: string, mask: string, guess: string)
    requires |word| <= |mask|
    requires MatchCount(word, guess) == 0
    ensures Reveal(word, mask, guess) == mask
  {
    MatchCountZero(word, guess);
  }

  /** When no matching position already shows its rune, every match is a newly revealed
      position, so the loop's count is the number of positions the mask changed at. */
  lemma {:induction false} MatchCountIsNewlyRevealed(word: string, mask: string, guess: string)
    requires |word| == |mask|
    requires forall i :: 0 <= i < |word| && Matches(word[i], guess) ==> mask[i] != word[i]
    ensures MatchCount(word, guess) == Differences(mask, Reveal(word, mask, guess))
  {
    if word != [] {
      var n := |word| - 1;
      var r := Reveal(word, mask, guess);
      assert Reveal(word[..n], mask[..n], guess) == r[..n];
      MatchCountIsNewlyRevealed(word[..n], mask[..n], guess);
    }
  }

  /** Under the guard of main.go:194 no matching position is shown yet. */
  lemma FreshGuessMatchesHiddenPositions(word: string, mask: string, guess: string)
    requires |word| == |mask|
    requires IsFreshGuess(mask, guess)
    ensures forall i :: 0 <= i < |word| && Matches(word[i], guess) ==> mask[i] != word[i]
  {
    forall i | 0 <= i < |word| && Matches(word[i], guess) ensures mask[i] != word[i] {
      ContainsRune(mask, word[i]);
    }
  }

  /** The loop's count in terms of `countCharacter`: the occurrences of the lower-case form
      plus, when it differs, those of the upper-case form. */
  lemma {:induction false} MatchCountByOccurrences(word: string, guess: string)
    ensures MatchCount(word, guess)
         == Occurrences(word, ToLower(guess))
            + (if ToLower(guess) == ToUpper(guess) then 0 else Occurrences(word, ToUpper(guess)))
  {
    if word != [] {
      MatchCountByOccurrences(word[..|word| - 1], guess);
    }
  }

  /** `countCharacter` of a one-rune string is that rune's multiplicity in the word. */
  lemma {:induction false} OccurrencesIsMultiplicity(word: string, c: char)
    ensures Occurrences(word, [c]) == multiset(word)[c]
  {
    if word != [] {
      var n := |word| - 1;
      OccurrencesIsMultiplicity(word[..n], c);
      assert word == word[..n] + [word[n]];
      assert multiset(word) == multiset(word[..n]) + multiset{word[n]};
    }
  }

  /** `countCharacter` never counts anything for a string that is not one rune long. */
  lemma {:induction false} OccurrencesOfLongString(word: string, character: string)
    requires |character| != 1
    ensures Occurrences(word, character) == 0
  {
    if word != [] {
      OccurrencesOfLongString(word[..|word| - 1], character);
    }
  }

  // ---------------------------------------------------------------------------------------
  // Guesses

  /** The reveal of `MakeGuess`: the mask keeps its length; a position changes only where the
      word's rune matches the guess, and then it shows that rune. Nothing else moves. */
  lemma GuessRevealsOnlyMatches(s: State, c: Counters, playerID: int, character: string)
    requires |s.word| <= |s.revealedWord|
    ensures var r := MakeGuess(s, c, playerID, character);
      && |r.state.revealedWord| == |s.revealedWord|
      && forall i :: 0 <= i < |s.revealedWord| && r.state.revealedWord[i] != s.revealedWord[i] ==>
           i < |s.word| && Matches(s.word[i], character) && r.state.revealedWord[i] == s.word[i]
  {
    MakeGuessBasics(s, c, playerID, character);
    if s.turn == playerID {
      var unseen := IsFreshGuess(s.revealedWord, character);
      var mask := if unseen then Reveal(s.word, s.revealedWord, character) else s.revealedWord;
      ScoreGuessBasics(s.(revealedWord := mask), c, if unseen then MatchCount(s.word, character) else 0);
    }
  }

  /** A correct guess: at least one match was found in a fresh guess, the shared total grows
      by 100 per newly revealed position, `moves` is untouched, the turn advances once, and
      the game is reset exactly when the mask now equals the word. */
  lemma CorrectGuess(s: State, c: Counters, playerID: int, character: string)
    requires Inv(s)
    requires MakeGuess(s, c, playerID, character).isCorrect
    requires !Contains(MakeGuess(s, c, playerID, character).state.revealedWord, "-")
    ensures var r := MakeGuess(s, c, playerID, character);
      && s.turn == playerID
      && IsFreshGuess(s.revealedWord, character)
      && r.state.revealedWord == Reveal(s.word, s.revealedWord, character)
      && Differences(s.revealedWord, r.state.revealedWord) > 0
      && r.counters.totalScore == c.totalScore + PointsPerLetter * Differences(s.revealedWord, r.state.revealedWord)
      && r.counters.moves == c.moves
      && r.state.message == RightMessage(r.counters.totalScore)
      && (r.state.revealedWord == s.word ==> r.state == EndGame(NextTurn(s)).(revealedWord := s.word, message := r.state.message))
      && (r.state.revealedWord != s.word ==>
            r.state == NextTurn(s).(revealedWord := r.state.revealedWord, message := r.state.message))
  {
    var r := MakeGuess(s, c, playerID, character);
    MatchCountZero(s.word, character);
    assert |s.word| == |s.revealedWord|;
    FreshGuessMatchesHiddenPositions(s.word, s.revealedWord, character);
    MatchCountIsNewlyRevealed(s.word, s.revealedWord, character);
  }

  /** When a guess is wrong: in-turn, and either a case form is already in the mask or no
      position of the word matches. */
  lemma WrongGuessCases(s: State, c: Counters, playerID: int, character: string)
    requires |s.word| <= |s.revealedWord|
    requires s.turn == playerID
    ensures !MakeGuess(s, c, playerID, character).isCorrect
        <==> !IsFreshGuess(s.revealedWord, character)
             || forall i :: 0 <= i < |s.word| ==> !Matches(s.word[i], character)
  {
    MatchCountZero(s.word, character);
  }

  /** A wrong guess reveals nothing, takes exactly 100 from the shared total and one from
      `moves`, and advances the turn; the game is reset first exactly when `moves` was 1. */
  lemma WrongGuess(s: State, c: Counters, playerID: int, character: string)
    requires |s.word| <= |s.revealedWord|
    requires s.turn == playerID
    requires !MakeGuess(s, c, playerID, character).isCorrect
    requires !Contains(s.revealedWord, "-")
    ensures var r := MakeGuess(s, c, playerID, character);
      && r.state.revealedWord == s.revealedWord
      && r.counters == Counters(c.totalScore - PointsPerLetter, c.moves - 1)
      && r.state.message == WrongMessage(c.totalScore - PointsPerLetter, c.moves - 1)
      && (c.moves == 1 ==> r.state == NextTurn(EndGame(s)).(message := r.state.message))
      && (c.moves != 1 ==> r.state == NextTurn(s).(message := r.state.message))
  {
    if IsFreshGuess(s.revealedWord, character) {
      NoMatchRevealsNothing(s.word, s.revealedWord, character);
    }
  }

  /** The empty guess is contained in every mask, so it is scored as a wrong guess. */
  lemma EmptyGuessIsWrong(s: State, c: Counters, playerID: int)
    requires |s.word| <= |s.revealedWord|
    ensures !MakeGuess(s, c, playerID, "").isCorrect
    ensures MakeGuess(s, c, playerID, "").state.revealedWord == s.revealedWord
  {
    ContainsEmpty(s.revealedWord);
  }

  /** A guess that is not exactly one rune long never reveals anything. */
  lemma LongGuessIsWrong(s: State, c: Counters, playerID: int, character: string)
    requires |s.word| <= |s.revealedWord|
    requires |character| != 1
    ensures !MakeGuess(s, c, playerID, character).isCorrect
    ensures MakeGuess(s, c, playerID, character).state.revealedWord == s.revealedWord
  {
    forall i | 0 <= i < |s.word| ensures !Matches(s.word[i], character) {
      if Matches(s.word[i], character) {
        MatchNeedsOneRune(s.word[i], character);
      }
    }
    MatchCountZero(s.word, character);
    if IsFreshGuess(s.revealedWord, character) {
      NoMatchRevealsNothing(s.word, s.revealedWord, character);
    }
  }

  /** A letter already shown in the mask (in either case) is scored as a wrong guess. */
  lemma RepeatGuessIsWrong(s: State, c: Counters, playerID: int, letter: char)
    requires |s.word| <= |s.revealedWord|
    requires LowerRune(letter) in s.revealedWord || UpperRune(letter) in s.revealedWord
    ensures !MakeGuess(s, c, playerID, [letter]).isCorrect
    ensures MakeGuess(s, c, playerID, [letter]).state.revealedWord == s.revealedWord
  {
    ContainsRune(s.revealedWord, LowerRune(letter));
    ContainsRune(s.revealedWord, UpperRune(letter));
    assert ToLower([letter]) == [LowerRune(letter)];
    assert ToUpper([letter]) == [UpperRune(letter)];
  }

  /** The "finished?" test of main.go:206 looks for "-", which the mask only holds once a
      '-' of the word has been revealed; from then on a guess in turn changes the mask at
      most and skips all bookkeeping: no score, no message, no turn change, no lost move. */
  lemma HyphenSkipsBookkeeping(s: State, c: Counters, playerID: int, character: string)
    requires |s.word| <= |s.revealedWord|
    requires Contains(MakeGuess(s, c, playerID, character).state.revealedWord, "-")
    ensures var r := MakeGuess(s, c, playerID, character);
      r.counters == c && r.state == s.(revealedWord := r.state.revealedWord)
  {
  }

  /** The mask can only hold '-' when the word does. */
  lemma HyphenComesFromWord(s: State, c: Counters, playerID: int, character: string)
    requires |s.word| <= |s.revealedWord|
    requires '-' !in s.revealedWord && '-' !in s.word
    ensures '-' !in MakeGuess(s, c, playerID, character).state.revealedWord
  {
  }

  /** `moves` never grows, and drops by at most one per guess. */
  lemma MovesNonIncreasing(s: State, c: Counters, playerID: int, character: string)
    requires |s.word| <= |s.revealedWord|
    ensures var m := MakeGuess(s, c, playerID, character).counters.moves;
      m == c.moves || m == c.moves - 1
  {
  }

  /** After a reset the word is empty, but the turn holder's guesses are still processed:
      each is wrong, costs 100 points and a move, and leaves the word empty and the mask as
      it was. With nobody connected the turn comes back to 1, so the game never stops. */
  lemma GuessAfterResetIsWrong(s: State, c: Counters, playerID: int, character: string)
    requires Inv(s) && s.word == [] && s.turn == playerID
    requires !Contains(s.revealedWord, "-")
    ensures var r := MakeGuess(s, c, playerID, character);
      && !r.isCorrect
      && r.counters == Counters(c.totalScore - PointsPerLetter, c.moves - 1)
      && r.state.word == [] && r.state.revealedWord == s.revealedWord
      && (s.players == map[] ==> r.state.players == map[] && r.state.turn == 1)
  {
    MatchCountZero(s.word, character);
    if IsFreshGuess(s.revealedWord, character) {
      NoMatchRevealsNothing(s.word, s.revealedWord, character);
    }
  }

  /** The counters after the connection holding id 1 sends `guesses` one message at a time
      to a reset game that nobody is connected to. */
  function MessagesAfterReset(s: State, c: Counters, guesses: seq<string>): (r: Counters)
    requires Inv(s) && s.word == [] && s.players == map[] && s.turn == 1
    requires !Contains(s.revealedWord, "-")
    decreases |guesses|
  {
    if guesses == [] then c
    else
      GuessAfterResetIsWrong(s, c, 1, guesses[0]);
      var r := PlayerInputStep(s, c, 1, guesses[0]);
      MessagesAfterReset(r.state, r.counters, guesses[1..])
  }

  /** Every one of those messages costs 100 points and a move: the game keeps accepting
      guesses after it has ended, and `moves` goes below zero. */
  lemma {:induction false} EveryGuessAfterResetIsWrong(s: State, c: Counters, guesses: seq<string>)
    requires Inv(s) && s.word == [] && s.players == map[] && s.turn == 1
    requires !Contains(s.revealedWord, "-")
    ensures MessagesAfterReset(s, c, guesses)
         == Counters(c.totalScore - PointsPerLetter * |guesses|, c.moves - |guesses|)
    decreases |guesses|
  {
    if guesses != [] {
      GuessAfterResetIsWrong(s, c, 1, guesses[0]);
      var r := PlayerInputStep(s, c, 1, guesses[0]);
      EveryGuessAfterResetIsWrong(r.state, r.counters, guesses[1..]);
    }
  }

  // ---------------------------------------------------------------------------------------
  // One message of handlePlayerInput

  /** A guess out of turn changes nothing, but the unconditional `NextTurn` still advances the turn. */
  lemma OutOfTurnMessageAdvancesTurn(s: State, c: Counters, playerID: int, character: string)
    requires |s.word| <= |s.revealedWord|
    requires s.turn != playerID
    ensures PlayerInputStep(s, c, playerID, character) == GuessOutcome(NextTurn(s), c, false)
  {
  }

  /** A scored guess that does not finish the word advances the turn twice. */
  lemma ScoredMessageAdvancesTwice(s: State, c: Counters, playerID: int, character: string)
    requires Inv(s)
    requires MakeGuess(s, c, playerID, character).isCorrect
    requires !Contains(MakeGuess(s, c, playerID, character).state.revealedWord, "-")
    requires MakeGuess(s, c, playerID, character).state.revealedWord != s.word
    ensures PlayerInputStep(s, c, playerID, character).state.turn == NextTurn(NextTurn(s)).turn
  {
    CorrectGuess(s, c, playerID, character);
  }

  /** Once the turn lies within 1..max(1, count), as every `NextTurn` leaves it, a player
      whose id exceeds the player count never gets the turn: that player's messages only
      advance it, and it stays in range. */
  lemma HighIdNeverPlays(s: State, c: Counters, playerID: int, character: string)
    requires |s.word| <= |s.revealedWord|
    requires 1 <= s.turn <= (if |s.players| == 0 then 1 else |s.players|)
    requires playerID > (if |s.players| == 0 then 1 else |s.players|)
    ensures var r := PlayerInputStep(s, c, playerID, character);
      && r == GuessOutcome(NextTurn(s), c, false)
      && 1 <= r.state.turn <= (if |r.state.players| == 0 then 1 else |r.state.players|)
  {
  }

  /** A leave does not move the turn, so right after one the holder's id can exceed the
      player count (players 1, 2 and 3, turn 3, player 1 leaves). That player's next guess
      is still processed (here a guess that cannot match, which costs 100 points and a
      move) and only then does the turn wrap to 1. */
  lemma HighIdPlaysAfterLeave(s: State, c: Counters, leaver: int, character: string)
    requires Inv(s)
    requires s.turn == |s.players| && s.turn in s.players
    requires leaver in s.players && leaver != s.turn
    requires !Contains(s.revealedWord, "-") && |character| != 1 && c.moves != 1
    ensures var t := RemovePlayer(s, leaver);
      && t.turn > |t.players| && t.turn in t.players
      && var r := MakeGuess(t, c, t.turn, character);
         && r.counters == Counters(c.totalScore - PointsPerLetter, c.moves - 1)
         && r.state.turn == 1
  {
    var t := RemovePlayer(s, leaver);
    assert t.players.Keys == s.players.Keys - {leaver};
    assert |t.players| == |s.players| - 1;
    LongGuessIsWrong(t, c, t.turn, character);
    WrongGuess(t, c, t.turn, character);
  }

  /** The broadcast after a message never fails to parse the guesser's id, which is printed
      with `Itoa` and read back with `Atoi`; it goes to everyone but the player now in turn. */
  lemma MessageBroadcastParses(s: State, c: Counters, playerID: int, character: string)
    requires |s.word| <= |s.revealedWord|
    requires MinInt <= playerID <= MaxInt
    ensures var r := PlayerInputStep(s, c, playerID, character);
      SnapshotRecipients(r.state, Itoa(playerID)) == Ok(r.state.players.Keys - {r.state.turn})
  {
    AtoiItoa(playerID);
  }

  /** The snapshot after a message skips the player who now holds the turn, not the guesser:
      a connected player who sends a message out of turn, and does not receive the turn from
      the handler's `NextTurn`, gets the snapshot, and the new holder does not. */
  lemma SnapshotSkipsHolderNotGuesser(s: State, c: Counters, playerID: int, character: string)
    requires |s.word| <= |s.revealedWord|
    requires MinInt <= playerID <= MaxInt
    requires playerID in s.players && s.turn != playerID && NextTurn(s).turn != playerID
    ensures var r := PlayerInputStep(s, c, playerID, character);
      && r.state.turn == NextTurn(s).turn
      && SnapshotRecipients(r.state, Itoa(playerID)) == Ok(s.players.Keys - {NextTurn(s).turn})
      && playerID in s.players.Keys - {NextTurn(s).turn}
  {
    AtoiItoa(playerID);
  }

  // ---------------------------------------------------------------------------------------
  // Joining and leaving

  /** `AddPlayer` keeps the player count when the id it computes is already taken, which
      happens once a player with a lower id has left: the new connection replaces a live one. */
  lemma AddPlayerCollision(s: State, conn: Conn)
    ensures var (t, id) := AddPlayer(s, conn);
      && id == |s.players| + 1
      && t.players[id] == conn && t.scores[id] == 0
      && (id in s.players <==> |t.players| == |s.players|)
  {
    var (t, id) := AddPlayer(s, conn);
    if id !in s.players {
      assert t.players.Keys == s.players.Keys + {id};
    } else {
      assert t.players.Keys == s.players.Keys;
    }
  }

  /** Concretely: players 1 and 2 are connected, 1 leaves, a newcomer gets id 2 and
      takes player 2's place. */
  lemma RejoinOverwritesLivePlayer(s: State, a: Conn, b: Conn, newcomer: Conn)
    requires s.players == map[1 := a, 2 := b] && s.scores == map[1 := 0, 2 := 0]
    ensures var (t, id) := AddPlayer(RemovePlayer(s, 1), newcomer);
      id == 2 && t.players == map[2 := newcomer] && t.scores == map[2 := 0]
  {
    var s1 := RemovePlayer(s, 1);
    assert s1.players == map[2 := b];
    assert |s1.players| == 1;
  }

  /** `RemovePlayer` undoes `AddPlayer` when the new id was free, as when the deferred
      removal of the connection handler runs right after the join. */
  lemma JoinThenLeaveRestores(s: State, conn: Conn)
    requires Inv(s)
    requires |s.players| + 1 !in s.players
    ensures var (t, id) := AddPlayer(s, conn);
      RemovePlayer(t, id) == s
  {
    var (t, id) := AddPlayer(s, conn);
    assert t.players - {id} == s.players;
    assert t.scores - {id} == s.scores;
  }
}

/** Worked examples: the rules applied to fixed games. */
module Scenarios {
  import opened Strings
  import opened Rules
  import Properties

  /** The guess "e" against "SEA TOWER" with nothing revealed: fresh, two matches. */
  lemma SeaTowerReveal()
    ensures IsFreshGuess("___ _____", "e")
    ensures Reveal("SEA TOWER", "___ _____", "e") == "_E_ ___E_"
    ensures !Contains("_E_ ___E_", "-")
    ensures MatchCount("SEA TOWER", "e") == 2
  {
    var word, mask := "SEA TOWER", "___ _____";
    assert ToLower("e") == "e";
    assert ToUpper("e") == "E";
    ContainsRune(mask, 'e');
    ContainsRune(mask, 'E');
    assert Reveal(word, mask, "e") == "_E_ ___E_";
    ContainsRune("_E_ ___E_", '-');
    for k := 0 to |word|
      invariant MatchCount(word[..k], "e") == (if k < 2 then 0 else if k < 8 then 1 else 2)
    {
      Properties.MatchCountPrefix(word, k, "e");
    }
    assert word[..|word|] == word;
  }

  /** Two players; "SEA TOWER" with nothing revealed; player 1 guesses "e". Both E's are
      revealed, the shared total reaches 200 and `MakeGuess` hands the turn to player 2,
      but the message handler's extra `NextTurn` wraps it straight back to player 1. */
  lemma SeaTower(a: Conn, b: Conn)
    ensures var s := State(map[1 := a, 2 := b], 1, "SEA TOWER", "___ _____", "d",
                           map[1 := 0, 2 := 0], [], "");
            var r := MakeGuess(s, InitialCounters, 1, "e");
            && r.isCorrect
            && r.state.revealedWord == "_E_ ___E_"
            && r.counters == Counters(200, 3)
            && r.state.turn == 2
            && PlayerInputStep(s, InitialCounters, 1, "e").state.turn == 1
  {
    SeaTowerReveal();
    var s := State(map[1 := a, 2 := b], 1, "SEA TOWER", "___ _____", "d", map[1 := 0, 2 := 0], [], "");
    assert |s.players| == 2;
    assert "_E_ ___E_" != "SEA TOWER";
  }

  /** A hyphenated word: once its '-' is revealed, the bookkeeping is skipped for good. The
      reveal itself returns true, yet no points are given and the turn does not move. */
  lemma HyphenatedWord(a: Conn)
    ensures var s := State(map[1 := a], 1, "T-REX", "_____", "d", map[1 := 0], [], "");
            var r := MakeGuess(s, InitialCounters, 1, "-");
            && r.isCorrect
            && r.state.revealedWord == "_-___"
            && r.counters == InitialCounters
            && r.state.turn == 1 && r.state.message == ""
  {
    var word, mask := "T-REX", "_____";
    assert ToLower("-") == "-";
    assert ToUpper("-") == "-";
    ContainsRune(mask, '-');
    var revealed := Reveal(word, mask, "-");
    assert revealed == "_-___";
    ContainsRune(revealed, '-');
    for k := 0 to |word|
      invariant MatchCount(word[..k], "-") == (if k < 2 then 0 else 1)
    {
      Properties.MatchCountPrefix(word, k, "-");
    }
    assert word[..|word|] == word;
  }

  /** Player 1 leaves a two-player game while holding the turn. The turn stays 1, which no
      connected player holds, and player 2's messages only wrap it back to 1: the game stalls. */
  lemma LeaveStallsGame(s: State, c: Counters, a: Conn, b: Conn, character: string)
    requires s.players == map[1 := a, 2 := b] && s.scores == map[1 := 0, 2 := 0] && s.turn == 1
    requires |s.word| <= |s.revealedWord|
    ensures var t := RemovePlayer(s, 1);
            && t.turn == 1 && t.turn !in t.players
            && PlayerInputStep(t, c, 2, character) == GuessOutcome(t, c, false)
  {
    var t := RemovePlayer(s, 1);
    assert t.players == map[2 := b];
  }
}
