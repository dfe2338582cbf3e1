/**
  The game operations the service exposes: starting a game, applying a
  guess, cancelling a game and listing the high scores. Applying a guess is
  specified by the pure function Step on a game's state; the method MakeMove
  updates a stored game in place and is proved to agree with it.
*/
module Api {
  import opened Wrappers
  import opened Letters
  import opened Progress
  import opened Models

  // ---------------------------------------------------------------------------
  // Starting a game
  // ---------------------------------------------------------------------------

  datatype NewGameReply = Created(game: Game) | UserNotFound | BadTargetWord(error: WordError) {
    function Message(): string {
      match this
      case Created(_) => "Good luck playing Hangman!"
      case UserNotFound => "A User with that name does not exist!"
      case BadTargetWord(e) => e.Message()
    }
  }

  /**
    new_game of the service: looks the user up by name, lower-cases the
    target word and hands it to the game constructor's checks.
  */
  method NewGame(store: Datastore, userName: string, targetWord: string) returns (r: NewGameReply)
    modifies store
    ensures r.UserNotFound? <==> forall v :: v in old(store.users) ==> v.name != userName
    ensures r.UserNotFound? ==> unchanged(store)
    ensures r.BadTargetWord? ==>
              unchanged(store) && Some(r.error) == CheckTargetWord(Lower(targetWord))
    ensures r.Created? ==>
              && CheckTargetWord(Lower(targetWord)) == None
              && fresh(r.game) && r.game.Valid()
              && r.game.user in store.users && r.game.user.name == userName
              && r.game.State() == InitialState(Lower(targetWord))
              && store.games == old(store.games) + {r.game}
              && store.users == old(store.users) && store.scores == old(store.scores)
    ensures !r.UserNotFound? ==> (r.Created? <==> CheckTargetWord(Lower(targetWord)) == None)
    ensures old(store.Valid()) ==> store.Valid()
  {
    var user := store.FindUser(userName);
    if user == null {
      return UserNotFound;
    }
    var created := Game.NewGame(user, Lower(targetWord), store);
    match created
    case Success(game) => r := Created(game);
    case Failure(e) => r := BadTargetWord(e);
  }

  // ---------------------------------------------------------------------------
  // Applying a guess
  // ---------------------------------------------------------------------------

  /** Why a guess was refused; each refusal leaves the game as it was. */
  datatype GuessError = NotALetter | NotSingleLetter | AlreadyGuessed {
    function Message(): string {
      match this
      case NotALetter => "Letter guess must be an alphabet"
      case NotSingleLetter => "Only single letters allowed as guesses"
      case AlreadyGuessed => "Letter has previously been guessed"
    }
  }

  datatype Outcome = InProgress | Won | Lost

  /** What make_move answers. */
  datatype Reply = AlreadyOver | Refused(error: GuessError) | Moved(message: string, outcome: Outcome) {
    function Message(): string {
      match this
      case AlreadyOver => "Game already over!"
      case Refused(e) => e.Message()
      case Moved(m, _) => m
    }

    /** The replies after which the game was ended and scored. */
    predicate Finished() {
      Moved? && outcome != InProgress
    }
  }

  datatype MoveResult = MoveResult(state: GameState, reply: Reply)

  const CORRECT_MESSAGE := "Correct letter guess!"
  const WRONG_MESSAGE := "Wrong letter guess!"
  const WIN_SUFFIX := " You win!"
  const LOSS_SUFFIX := " Game over!"

  /**
    The guess checks of make_move, in their order: a non-letter first, then
    a guess that is not one character, then a letter already guessed correctly.
    A letter guessed wrongly before passes.
  */
  function CheckGuess(s: GameState, guess: string): (r: Option<GuessError>)
    ensures r == Some(NotALetter) <==> !IsAlphabetic(guess)
    ensures r == Some(NotSingleLetter) <==> IsAlphabetic(guess) && |guess| != 1
    ensures r == Some(AlreadyGuessed) <==>
              IsAlphabetic(guess) && |guess| == 1 && LowerChar(guess[0]) in s.correctLettersGuessed
    ensures r == None <==>
              |guess| == 1 && IsAsciiLetter(guess[0]) && LowerChar(guess[0]) !in s.correctLettersGuessed
  {
    if !IsAlphabetic(guess) then Some(NotALetter)
    else if |guess| != 1 then Some(NotSingleLetter)
    else if LowerChar(guess[0]) in s.correctLettersGuessed then Some(AlreadyGuessed)
    else None
  }

  /** The correct-or-wrong branch of make_move for an accepted lower-case letter. */
  function ApplyLetter(s: GameState, letter: char): (r: (GameState, string))
    ensures r.0.targetWord == s.targetWord && r.0.targetWordLength == s.targetWordLength
    ensures r.0.wrongGuessesAllowed == s.wrongGuessesAllowed && r.0.gameOver == s.gameOver
    ensures r.0.guessHistory == s.guessHistory + [GuessEntry(letter, letter in s.targetWord)]
    ensures r.1 == (if letter in s.targetWord then CORRECT_MESSAGE else WRONG_MESSAGE)
    ensures letter in s.targetWord ==>
              && r.0.correctLettersGuessed == s.correctLettersGuessed + [letter]
              && r.0.wrongGuessesRemaining == s.wrongGuessesRemaining
              && (s.targetWordProgress == Render(s.targetWord, s.correctLettersGuessed) ==>
                    r.0.targetWordProgress == Render(s.targetWord, r.0.correctLettersGuessed))
    ensures letter !in s.targetWord ==>
              && r.0.correctLettersGuessed == s.correctLettersGuessed
              && r.0.wrongGuessesRemaining == s.wrongGuessesRemaining - 1
              && r.0.targetWordProgress == s.targetWordProgress
  {
    if letter in s.targetWord then
      var guessed := s.correctLettersGuessed + [letter];
      (s.(correctLettersGuessed := guessed,
          targetWordProgress := Render(s.targetWord, guessed),
          guessHistory := s.guessHistory + [GuessEntry(letter, true)]),
       CORRECT_MESSAGE)
    else
      (s.(wrongGuessesRemaining := s.wrongGuessesRemaining - 1,
          guessHistory := s.guessHistory + [GuessEntry(letter, false)]),
       WRONG_MESSAGE)
  }

  /** The terminal check of make_move: a solved word wins, tested before running out of guesses. */
  function Conclude(s: GameState, message: string): (r: MoveResult)
    ensures r.reply.Moved? && r.state == s.(gameOver := r.state.gameOver)
    ensures r.reply.outcome == Won <==> s.targetWordProgress == s.targetWord
    ensures r.reply.outcome == Lost <==>
              s.targetWordProgress != s.targetWord && s.wrongGuessesRemaining < 1
    ensures r.reply.Finished() ==> r.state.gameOver
    ensures !r.reply.Finished() ==> r.state == s
  {
    if s.targetWordProgress == s.targetWord then
      MoveResult(s.(gameOver := true), Moved(message + WIN_SUFFIX, Won))
    else if s.wrongGuessesRemaining < 1 then
      MoveResult(s.(gameOver := true), Moved(message + LOSS_SUFFIX, Lost))
    else
      MoveResult(s, Moved(message, InProgress))
  }

  /** make_move on a game's state: the new state and the reply. */
  function Step(s: GameState, guess: string): (r: MoveResult)
    ensures r.state.targetWord == s.targetWord
    ensures r.state.wrongGuessesAllowed == s.wrongGuessesAllowed
    ensures r.reply.Moved? <==> !s.gameOver && CheckGuess(s, guess) == None
    ensures !r.reply.Moved? ==> r.state == s
    ensures r.reply.Moved? ==>
              |r.state.guessHistory| == |s.guessHistory| + 1
              && r.state.guessHistory[..|s.guessHistory|] == s.guessHistory
    ensures r.reply.Finished() <==> !s.gameOver && r.state.gameOver
  {
    if s.gameOver then MoveResult(s, AlreadyOver)
    else match CheckGuess(s, guess)
      case Some(e) => MoveResult(s, Refused(e))
      case None =>
        var (t, message) := ApplyLetter(s, LowerChar(guess[0]));
        Conclude(t, message)
  }

  /** A guess on a finished game changes nothing and is answered 'Game already over!'. */
  lemma StepOnFinishedGame(s: GameState, guess: string)
    requires s.gameOver
    ensures Step(s, guess) == MoveResult(s, AlreadyOver)
    ensures Step(s, guess).reply.Message() == "Game already over!"
  {
  }

  /** A refused guess changes nothing, and the refusal is the first failing check. */
  lemma StepRefused(s: GameState, guess: string)
    requires !s.gameOver && CheckGuess(s, guess).Some?
    ensures Step(s, guess) == MoveResult(s, Refused(CheckGuess(s, guess).value))
  {
  }

  /**
    A correct guess appends the lower-cased letter, re-renders the progress
    under the new letters, keeps the remaining count and adds one history entry.
  */
  lemma StepCorrectGuess(s: GameState, guess: string)
    requires !s.gameOver && CheckGuess(s, guess) == None
    requires LowerChar(guess[0]) in s.targetWord
    ensures var t := Step(s, guess).state;
            var letter := LowerChar(guess[0]);
            && t.correctLettersGuessed == s.correctLettersGuessed + [letter]
            && t.targetWordProgress == Render(s.targetWord, t.correctLettersGuessed)
            && |t.targetWordProgress| == |s.targetWord|
            && t.wrongGuessesRemaining == s.wrongGuessesRemaining
            && t.guessHistory == s.guessHistory + [GuessEntry(letter, true)]
            && t.targetWord == s.targetWord && t.wrongGuessesAllowed == s.wrongGuessesAllowed
    ensures s.Valid() ==> Step(s, guess).reply.Moved? && Step(s, guess).reply.outcome != Lost
  {
  }

  /**
    A wrong guess, including a letter already guessed wrongly before, costs
    exactly one remaining guess, keeps the progress and adds one history entry.
  */
  lemma StepWrongGuess(s: GameState, guess: string)
    requires !s.gameOver && CheckGuess(s, guess) == None
    requires LowerChar(guess[0]) !in s.targetWord
    ensures var t := Step(s, guess).state;
            && t.wrongGuessesRemaining == s.wrongGuessesRemaining - 1
            && t.targetWordProgress == s.targetWordProgress
            && t.correctLettersGuessed == s.correctLettersGuessed
            && t.guessHistory == s.guessHistory + [GuessEntry(LowerChar(guess[0]), false)]
            && t.targetWord == s.targetWord && t.wrongGuessesAllowed == s.wrongGuessesAllowed
  {
  }

  /**
    The terminal check after an accepted guess: won exactly when the progress
    reaches the target word, otherwise lost exactly when no wrong guess
    remains, otherwise still in play; the game is over exactly in the first two
    cases, and the message carries the matching suffix.
  */
  lemma StepConclusion(s: GameState, guess: string)
    requires !s.gameOver && CheckGuess(s, guess) == None
    ensures var r := Step(s, guess);
            var base := if LowerChar(guess[0]) in s.targetWord then CORRECT_MESSAGE else WRONG_MESSAGE;
            && r.reply.Moved?
            && (r.reply.outcome == Won <==> r.state.targetWordProgress == r.state.targetWord)
            && (r.reply.outcome == Lost <==>
                  r.state.targetWordProgress != r.state.targetWord && r.state.wrongGuessesRemaining < 1)
            && (r.state.gameOver <==> r.reply.outcome != InProgress)
            && r.reply.message == base + (match r.reply.outcome
                                           case Won => WIN_SUFFIX
                                           case Lost => LOSS_SUFFIX
                                           case InProgress => "")
  {
  }

  /** The guess that completes the word wins: the progress is solved exactly when every target letter is guessed. */
  lemma StepWinsIffAllLettersGuessed(s: GameState, guess: string)
    requires s.Valid() && !s.gameOver && CheckGuess(s, guess) == None
    ensures var r := Step(s, guess);
            r.reply.outcome == Won <==>
              forall i :: 0 <= i < |s.targetWord| ==> s.targetWord[i] in r.state.correctLettersGuessed
  {
  }

  /**
    Every step keeps the game invariant: in particular 0 <= remaining <=
    allowed, the progress tracks the target, the game is never un-finished,
    the remaining count never grows, the target never changes and the history
    only grows, by exactly one entry for an accepted guess.
  */
  lemma StepKeepsValid(s: GameState, guess: string)
    requires s.Valid()
    ensures var t := Step(s, guess).state;
            && t.Valid()
            && t.targetWord == s.targetWord && t.wrongGuessesAllowed == s.wrongGuessesAllowed
            && (s.gameOver ==> t.gameOver)
            && t.wrongGuessesRemaining <= s.wrongGuessesRemaining
            && s.guessHistory <= t.guessHistory
            && |t.guessHistory| == |s.guessHistory| + (if Step(s, guess).reply.Moved? then 1 else 0)
  {
    if !s.gameOver && CheckGuess(s, guess) == None {
      var letter := LowerChar(guess[0]);
      var t := ApplyLetter(s, letter).0;
      if letter in s.targetWord {
        assert t.correctLettersGuessed == s.correctLettersGuessed + [letter];
        assert t.targetWordProgress == Render(s.targetWord, t.correctLettersGuessed);
      } else {
        assert t.correctLettersGuessed == s.correctLettersGuessed;
        assert t.targetWordProgress == s.targetWordProgress;
      }
    }
  }

  /**
    The score a finished game records: on a loss no wrong guess remains, so
    the final score is 0 and every allowed wrong guess was used; on a win at
    least one wrong guess remains and the final score is that number.
  */
  lemma StepScore(s: GameState, guess: string, user: User, today: Date)
    requires s.Valid() && Step(s, guess).reply.Finished()
    ensures var r := Step(s, guess);
            var score := ScoreOf(user, r.state, r.reply.outcome == Won, today);
            && score.won == (r.reply.outcome == Won)
            && score.finalScore == r.state.wrongGuessesRemaining
            && score.wrongGuesses == s.wrongGuessesAllowed - score.finalScore
            && (r.reply.outcome == Lost <==> score.finalScore == 0)
            && (r.reply.outcome == Won <==> score.finalScore >= 1)
  {
  }

  /** make_move applied to a sequence of guesses, one after another. */
  function Play(s: GameState, guesses: seq<string>): GameState
    decreases |guesses|
  {
    if guesses == [] then s else Play(Step(s, guesses[0]).state, guesses[1..])
  }

  /**
    Across any sequence of guesses the game invariant holds, the remaining
    count never grows and never drops below 0, the history is only appended
    to, and a finished game stays finished and unchanged.
  */
  lemma {:induction false} PlayKeepsValid(s: GameState, guesses: seq<string>)
    requires s.Valid()
    decreases |guesses|
    ensures var t := Play(s, guesses);
            && t.Valid()
            && 0 <= t.wrongGuessesRemaining <= s.wrongGuessesRemaining
            && s.guessHistory <= t.guessHistory
            && t.targetWord == s.targetWord
            && (s.gameOver ==> t == s)
  {
    if guesses != [] {
      var s1 := Step(s, guesses[0]).state;
      StepKeepsValid(s, guesses[0]);
      PlayKeepsValid(s1, guesses[1..]);
      if s.gameOver {
        StepOnFinishedGame(s, guesses[0]);
      }
    }
  }

  /** One single-letter guess per letter. */
  function LetterGuesses(letters: seq<char>): (r: seq<string>)
  {
    seq(|letters|, i requires 0 <= i < |letters| => [letters[i]])
  }

  /**
    Guessing letters that are not in the target, as many as the wrong guesses
    remaining, loses the game at the last of them: each is charged, repeated
    letters included, and the progress does not move. The game is then over
    with 0 remaining, and the history has gained one entry per guess.
  */
  lemma {:induction false} LoseByWrongGuesses(s: GameState, letters: seq<char>)
    requires s.Valid() && !s.gameOver
    requires |letters| == s.wrongGuessesRemaining
    requires forall i :: 0 <= i < |letters| ==> IsLowerLetter(letters[i]) && letters[i] !in s.targetWord
    decreases |letters|
    ensures var t := Play(s, LetterGuesses(letters));
            && t.gameOver && t.wrongGuessesRemaining == 0
            && t.targetWordProgress == s.targetWordProgress
            && t.correctLettersGuessed == s.correctLettersGuessed
            && |t.guessHistory| == |s.guessHistory| + |letters|
  {
    var guesses := LetterGuesses(letters);
    var g := guesses[0];
    assert g == [letters[0]];
    assert LowerChar(g[0]) == letters[0];
    StepKeepsValid(s, g);
    StepWrongGuess(s, g);
    var s1 := Step(s, g).state;
    assert guesses[1..] == LetterGuesses(letters[1..]);
    if |letters| == 1 {
      assert s1.gameOver;
      assert Play(s1, guesses[1..]) == s1;
    } else {
      LoseByWrongGuesses(s1, letters[1..]);
    }
  }

  /** One correct letter, guessed on a game in play: the facts the winning run is built from. */
  lemma CorrectLetterStep(s: GameState, letter: char)
    requires s.Valid() && !s.gameOver
    requires IsLowerLetter(letter) && letter in s.targetWord && letter !in s.correctLettersGuessed
    ensures var t := Step(s, [letter]).state;
            && t.Valid()
            && t.targetWord == s.targetWord
            && t.correctLettersGuessed == s.correctLettersGuessed + [letter]
            && t.wrongGuessesRemaining == s.wrongGuessesRemaining
            && (t.gameOver <==> forall i :: 0 <= i < |s.targetWord| ==> s.targetWord[i] in t.correctLettersGuessed)
            && (t.gameOver ==> t.targetWordProgress == t.targetWord)
  {
    var g := [letter];
    assert LowerChar(g[0]) == letter;
    StepKeepsValid(s, g);
    StepCorrectGuess(s, g);
    StepWinsIffAllLettersGuessed(s, g);
    StepConclusion(s, g);
  }

  /**
    letters are the distinct lower-case target letters that a game in play
    has not guessed yet, all of them.
  */
  predicate MissingLetters(s: GameState, letters: seq<char>) {
    && s.Valid() && !s.gameOver && |letters| > 0
    && (forall i :: 0 <= i < |letters| ==>
          IsLowerLetter(letters[i]) && letters[i] in s.targetWord && letters[i] !in s.correctLettersGuessed)
    && (forall i, j :: 0 <= i < j < |letters| ==> letters[i] != letters[j])
    && (forall i :: 0 <= i < |s.targetWord| ==>
          s.targetWord[i] in s.correctLettersGuessed || s.targetWord[i] in letters)
  }

  /** Guessing the first of several missing letters leaves the game in play, missing the others. */
  lemma MissingLettersAdvance(s: GameState, letters: seq<char>) returns (t: GameState)
    requires MissingLetters(s, letters) && |letters| > 1
    ensures Play(s, LetterGuesses(letters)) == Play(t, LetterGuesses(letters[1..]))
    ensures MissingLetters(t, letters[1..])
    ensures forall u :: WonByGuessing(t, letters[1..], u) ==> WonByGuessing(s, letters, u)
  {
    CorrectLetterStep(s, letters[0]);
    t := Step(s, [letters[0]]).state;
    MissingLettersAfter(s, letters, t);
    PlayFirstLetter(s, letters);
  }

  /** The state after a correct guess of the first missing letter misses exactly the others. */
  lemma MissingLettersAfter(s: GameState, letters: seq<char>, t: GameState)
    requires MissingLetters(s, letters) && |letters| > 1
    requires t.Valid() && t.targetWord == s.targetWord
    requires t.wrongGuessesRemaining == s.wrongGuessesRemaining
    requires t.correctLettersGuessed == s.correctLettersGuessed + [letters[0]]
    requires t.gameOver <==> forall i :: 0 <= i < |s.targetWord| ==> s.targetWord[i] in t.correctLettersGuessed
    ensures MissingLetters(t, letters[1..])
    ensures forall u :: WonByGuessing(t, letters[1..], u) ==> WonByGuessing(s, letters, u)
  {
    var rest := letters[1..];
    var c := letters[1];
    assert !t.gameOver by {
      var i :| 0 <= i < |s.targetWord| && s.targetWord[i] == c;
      assert s.targetWord[i] !in t.correctLettersGuessed;
    }
    forall i | 0 <= i < |t.targetWord|
      ensures t.targetWord[i] in t.correctLettersGuessed || t.targetWord[i] in rest
    {
      if t.targetWord[i] !in t.correctLettersGuessed {
        var j :| 0 <= j < |letters| && letters[j] == t.targetWord[i];
        assert rest[j - 1] == letters[j];
      }
    }
    assert t.correctLettersGuessed + rest == s.correctLettersGuessed + letters;
  }

  /** Playing single-letter guesses is one step on the first letter, then the rest. */
  lemma PlayFirstLetter(s: GameState, letters: seq<char>)
    requires |letters| > 0
    ensures Play(s, LetterGuesses(letters)) == Play(Step(s, [letters[0]]).state, LetterGuesses(letters[1..]))
  {
    var guesses := LetterGuesses(letters);
    assert guesses[0] == [letters[0]];
    assert guesses[1..] == LetterGuesses(letters[1..]);
  }

  /** Guessing the only missing letter wins. */
  lemma MissingLettersLast(s: GameState, letters: seq<char>)
    requires MissingLetters(s, letters) && |letters| == 1
    ensures WonByGuessing(s, letters, Play(s, LetterGuesses(letters)))
  {
    CorrectLetterStep(s, letters[0]);
    PlayFirstLetter(s, letters);
    assert LetterGuesses(letters[1..]) == [];
  }

  /**
    Guessing, one each, the distinct target letters not guessed yet wins the
    game at the last of them, without costing a wrong guess: the progress is
    then the target itself.
  */
  lemma {:induction false} WinByGuessingAllLetters(s: GameState, letters: seq<char>)
    requires MissingLetters(s, letters)
    decreases |letters|
    ensures WonByGuessing(s, letters, Play(s, LetterGuesses(letters)))
  {
    if |letters| == 1 {
      MissingLettersLast(s, letters);
    } else {
      var s1 := MissingLettersAdvance(s, letters);
      WinByGuessingAllLetters(s1, letters[1..]);
    }
  }

  /** t is s won by guessing letters, without a wrong guess. */
  predicate WonByGuessing(s: GameState, letters: seq<char>, t: GameState) {
    && t.gameOver && t.targetWordProgress == t.targetWord == s.targetWord
    && t.wrongGuessesRemaining == s.wrongGuessesRemaining
    && t.correctLettersGuessed == s.correctLettersGuessed + letters
  }

  /**
    make_move on a stored game: applies the checks and the guess to the
    game's fields, ends and scores the game when it is won or lost, and
    agrees with Step on the new state and the reply.
  */
  method MakeMove(store: Datastore, game: Game, guess: string, today: Date) returns (reply: Reply)
    requires game in store.games
    requires game.Valid() && game.user.Valid()
    modifies game, game.user, store
    ensures game.State() == Step(old(game.State()), guess).state
    ensures reply == Step(old(game.State()), guess).reply
    ensures game.Valid() && game.user.Valid()
    ensures store.games == old(store.games) && store.users == old(store.users)
    ensures game.user.name == old(game.user.name) && game.user.email == old(game.user.email)
    ensures reply.Finished() ==>
              && store.scores == old(store.scores) + [ScoreOf(game.user, game.State(), reply.outcome == Won, today)]
              && game.user.Stats() ==
                 old(game.user.Stats()).Record(reply.outcome == Won, game.wrongGuessesRemaining)
    ensures !reply.Finished() ==>
              store.scores == old(store.scores) && game.user.Stats() == old(game.user.Stats())
    ensures old(store.Valid()) ==> store.Valid()
  {
    ghost var before := game.State();
    StepKeepsValid(before, guess);
    if game.gameOver {
      return AlreadyOver;
    }
    if !IsAlphabetic(guess) {
      return Refused(NotALetter);
    }
    if |guess| != 1 {
      return Refused(NotSingleLetter);
    }
    var letter := LowerChar(guess[0]);
    if letter in game.correctLettersGuessed {
      return Refused(AlreadyGuessed);
    }

    var message := GuessLetter(game, letter);
    reply := ConcludeMove(store, game, message, today);
  }

  /** The correct-or-wrong branch of make_move on the game's fields. */
  method GuessLetter(game: Game, letter: char) returns (message: string)
    modifies game
    ensures (game.State(), message) == ApplyLetter(old(game.State()), letter)
  {
    if letter in game.targetWord {
      game.correctLettersGuessed := game.correctLettersGuessed + [letter];
      game.targetWordProgress := ComputeProgress(game.targetWord, game.correctLettersGuessed);
      message := CORRECT_MESSAGE;
      game.guessHistory := game.guessHistory + [GuessEntry(letter, true)];
    } else {
      message := WRONG_MESSAGE;
      game.wrongGuessesRemaining := game.wrongGuessesRemaining - 1;
      game.guessHistory := game.guessHistory + [GuessEntry(letter, false)];
    }
  }

  /** The terminal check of make_move on the game's fields: a won or lost game is ended and scored. */
  method ConcludeMove(store: Datastore, game: Game, message: string, today: Date) returns (reply: Reply)
    requires game.user.Valid()
    modifies game, game.user, store
    ensures game.State() == Conclude(old(game.State()), message).state
    ensures reply == Conclude(old(game.State()), message).reply
    ensures game.user.Valid()
    ensures store.games == old(store.games) && store.users == old(store.users)
    ensures game.user.name == old(game.user.name) && game.user.email == old(game.user.email)
    ensures reply.Finished() ==>
              && store.scores == old(store.scores) + [ScoreOf(game.user, game.State(), reply.outcome == Won, today)]
              && game.user.Stats() ==
                 old(game.user.Stats()).Record(reply.outcome == Won, game.wrongGuessesRemaining)
    ensures !reply.Finished() ==>
              store.scores == old(store.scores) && game.user.Stats() == old(game.user.Stats())
  {
    if game.targetWordProgress == game.targetWord {
      game.EndGame(true, today, store);
      reply := Moved(message + WIN_SUFFIX, Won);
    } else if game.wrongGuessesRemaining < 1 {
      game.EndGame(false, today, store);
      reply := Moved(message + LOSS_SUFFIX, Lost);
    } else {
      reply := Moved(message, InProgress);
    }
  }

  // ---------------------------------------------------------------------------
  // Cancelling a game
  // ---------------------------------------------------------------------------

  datatype CancelReply = Deleted | CancelAlreadyOver | GameNotFound {
    /** The reply text; a deletion names the game by the key the request gave. */
    function Message(gameKey: string): string {
      match this
      case Deleted => "Game " + gameKey + " deleted!"
      case CancelAlreadyOver => "Game is already over!"
      case GameNotFound => "Game not found!"
    }
  }

  /** cancel_game: deletes a stored game that is still in play; a finished game is refused and kept. */
  method CancelGame(store: Datastore, game: Game) returns (r: CancelReply)
    modifies store
    ensures game in old(store.games) && game.gameOver ==> r == CancelAlreadyOver && unchanged(store)
    ensures game in old(store.games) && !game.gameOver ==>
              r == Deleted && store.games == old(store.games) - {game}
              && store.users == old(store.users) && store.scores == old(store.scores)
    ensures game !in old(store.games) ==> r == GameNotFound && unchanged(store)
    ensures old(store.Valid()) ==> store.Valid()
  {
    if game in store.games && game.gameOver {
      r := CancelAlreadyOver;
    } else if game in store.games && !game.gameOver {
      store.games := store.games - {game};
      r := Deleted;
    } else {
      r := GameNotFound;
    }
  }

  // ---------------------------------------------------------------------------
  // High scores
  // ---------------------------------------------------------------------------

  predicate ByFinalScoreDescending(s: seq<Score>) {
    forall i, j :: 0 <= i < j < |s| ==> s[i].finalScore >= s[j].finalScore
  }

  /** A score no lower than the head of a sorted list can go in front of it. */
  lemma ConsSorted(y: Score, r: seq<Score>)
    requires ByFinalScoreDescending(r)
    requires |r| > 0 ==> y.finalScore >= r[0].finalScore
    ensures ByFinalScoreDescending([y] + r)
  {
    forall i, j | 0 <= i < j < |r| + 1 ensures ([y] + r)[i].finalScore >= ([y] + r)[j].finalScore {
      if i == 0 && j > 1 {
        assert r[0].finalScore >= r[j - 1].finalScore;
      }
    }
  }

  lemma TailSorted(s: seq<Score>)
    requires ByFinalScoreDescending(s) && |s| > 0
    ensures ByFinalScoreDescending(s[1..])
    ensures |s| > 1 ==> s[0].finalScore >= s[1].finalScore
  {
  }

  /** The step of the insertion behind a head whose final score is above x's. */
  lemma InsertBehindHead(x: Score, s: seq<Score>, rest: seq<Score>)
    requires |s| > 0 && ByFinalScoreDescending(s) && x.finalScore < s[0].finalScore
    requires ByFinalScoreDescending(rest)
    requires multiset(rest) == multiset(s[1..]) + multiset{x}
    requires |rest| == |s| && (rest[0] == x || (|s| > 1 && rest[0] == s[1]))
    ensures ByFinalScoreDescending([s[0]] + rest)
    ensures multiset([s[0]] + rest) == multiset(s) + multiset{x}
  {
    TailSorted(s);
    ConsSorted(s[0], rest);
    assert s == [s[0]] + s[1..];
  }

  /** Inserts x before the first element whose final score is not above x's. */
  function InsertByFinalScore(x: Score, s: seq<Score>): (r: seq<Score>)
    requires ByFinalScoreDescending(s)
    ensures ByFinalScoreDescending(r)
    ensures multiset(r) == multiset(s) + multiset{x}
    ensures |r| == |s| + 1 && (r[0] == x || (|s| > 0 && r[0] == s[0]))
    decreases |s|
  {
    if s == [] || x.finalScore >= s[0].finalScore then
      ConsSorted(x, s);
      [x] + s
    else
      TailSorted(s);
      var rest := InsertByFinalScore(x, s[1..]);
      InsertBehindHead(x, s, rest);
      [s[0]] + rest
  }

  /** sorted(scores, key=final_score, reverse=True), as an insertion sort. */
  function SortByFinalScore(s: seq<Score>): (r: seq<Score>)
    ensures ByFinalScoreDescending(r)
    ensures multiset(r) == multiset(s)
    decreases |s|
  {
    if s == [] then []
    else
      assert s == [s[0]] + s[1..];
      InsertByFinalScore(s[0], SortByFinalScore(s[1..]))
  }

  /** Scores already in order are returned as they are: the sort moves no tied score. */
  lemma {:induction false} SortKeepsSorted(s: seq<Score>)
    requires ByFinalScoreDescending(s)
    ensures SortByFinalScore(s) == s
  {
    if s != [] {
      SortKeepsSorted(s[1..]);
      assert s == [s[0]] + s[1..];
    }
  }

  /** fetch(number_of_results): the first results of the query, or all of them when no number is given. */
  function Fetch(scores: seq<Score>, limit: Option<nat>): (r: seq<Score>)
    ensures r <= scores
    ensures limit.Some? && limit.value <= |scores| ==> |r| == limit.value
    ensures limit.None? || limit.value >= |scores| ==> r == scores
  {
    match limit
    case None => scores
    case Some(n) => if n <= |scores| then scores[..n] else scores
  }

  /** get_high_scores: the fetched scores, best final score first. */
  function HighScores(scores: seq<Score>, limit: Option<nat>): (r: seq<Score>)
    ensures multiset(r) == multiset(Fetch(scores, limit))
    ensures ByFinalScoreDescending(r)
  {
    SortByFinalScore(Fetch(scores, limit))
  }

  // ---------------------------------------------------------------------------
  // A worked game on the target word "elephant"
  // ---------------------------------------------------------------------------

  /** The word checks on three examples: "elephant" passes, "cat" is too short, "cat1" is not alphabetic. */
  lemma TargetWordExamples()
    ensures CheckTargetWord("elephant") == None
    ensures CheckTargetWord("cat") == Some(TooShort)
    ensures CheckTargetWord("cat1") == Some(NotAlphabetic)
  {
    assert !IsAsciiLetter("cat1"[3]);
  }

  /** The state of the "elephant" game after guessing e, then after guessing Z. */
  function AfterE(): GameState {
    InitialState("elephant").(correctLettersGuessed := ['e'], targetWordProgress := "e*e*****",
                              guessHistory := [GuessEntry('e', true)])
  }

  function AfterEZ(): GameState {
    AfterE().(wrongGuessesRemaining := 9,
              guessHistory := [GuessEntry('e', true), GuessEntry('z', false)])
  }

  /** A new "elephant" game shows eight masks; guessing "e" unmasks both e's and costs nothing. */
  lemma ElephantGuessE()
    ensures InitialState("elephant").targetWordProgress == "********"
    ensures InitialState("elephant").wrongGuessesRemaining == 10
    ensures Step(InitialState("elephant"), "e") == MoveResult(AfterE(), Moved("Correct letter guess!", InProgress))
  {
    var s0 := InitialState("elephant");
    assert "elephant"[0] == 'e';
    assert Render("elephant", ['e']) == "e*e*****";
  }

  /** Guessing "Z" next costs one guess and unmasks nothing; "E" is then refused as already guessed. */
  lemma ElephantGuessZ()
    ensures Step(AfterE(), "Z") == MoveResult(AfterEZ(), Moved("Wrong letter guess!", InProgress))
    ensures Step(AfterEZ(), "E") == MoveResult(AfterEZ(), Refused(AlreadyGuessed))
    ensures Step(AfterEZ(), "z").state.wrongGuessesRemaining == 8
    ensures Step(AfterEZ(), "ez") == MoveResult(AfterEZ(), Refused(NotSingleLetter))
    ensures Step(AfterEZ(), "3") == MoveResult(AfterEZ(), Refused(NotALetter))
  {
  }

  /** The "elephant" game after "e" satisfies the game invariant. */
  lemma AfterEValid()
    ensures AfterE().Valid()
  {
    TargetWordExamples();
    var w := "elephant";
    assert w[0] == 'e';
    assert Render(w, ['e']) == "e*e*****";
    assert "e*e*****"[1] != w[1];
  }

  /** The letters l, p, h, a, n and t are lower-case letters of "elephant" other than e. */
  lemma ElephantRestInWord()
    ensures forall i :: 0 <= i < |"lphant"| ==>
              IsLowerLetter("lphant"[i]) && "lphant"[i] in "elephant" && "lphant"[i] !in ['e']
  {
    forall i | 0 <= i < 6 ensures "lphant"[i] in "elephant" {
      assert "lphant"[i] == "elephant"[[1, 3, 4, 5, 6, 7][i]];
    }
  }

  /** Every letter of "elephant" is e or one of l, p, h, a, n and t. */
  lemma ElephantRestCovers()
    ensures forall i :: 0 <= i < |"elephant"| ==> "elephant"[i] in ['e'] || "elephant"[i] in "lphant"
  {
    forall i | 0 <= i < 8 ensures "elephant"[i] in ['e'] || "elephant"[i] in "lphant" {
      if i != 0 && i != 2 {
        assert "elephant"[i] == "lphant"[[0, 0, 0, 1, 2, 3, 4, 5][i]];
      }
    }
  }

  /** l, p, h, a, n and t are distinct. */
  lemma ElephantRestDistinct()
    ensures forall i, j :: 0 <= i < j < |"lphant"| ==> "lphant"[i] != "lphant"[j]
  {
  }

  /** After "e", the letters l, p, h, a, n and t are exactly what the "elephant" game misses. */
  lemma ElephantMissing()
    ensures MissingLetters(AfterE(), "lphant")
  {
    AfterEValid();
    ElephantRestInWord();
    ElephantRestCovers();
    ElephantRestDistinct();
  }

  /** After "e", guessing l, p, h, a, n and t wins the "elephant" game with all 10 wrong guesses left. */
  lemma ElephantWin()
    ensures var t := Play(AfterE(), LetterGuesses("lphant"));
            t.gameOver && t.targetWordProgress == "elephant" && t.wrongGuessesRemaining == 10
  {
    ElephantMissing();
    WinByGuessingAllLetters(AfterE(), "lphant");
  }

  /** Ten letters that are not in "elephant" lose a new game on it with no wrong guess left. */
  lemma ElephantLoss()
    ensures var t := Play(InitialState("elephant"), LetterGuesses("bcdfgijkmo"));
            t.gameOver && t.wrongGuessesRemaining == 0 && t.targetWordProgress == "********"
  {
    TargetWordExamples();
    InitialStateValid("elephant");
    ElephantWrongLetters();
    LoseByWrongGuesses(InitialState("elephant"), "bcdfgijkmo");
  }

  /** None of b, c, d, f, g, i, j, k, m and o occurs in "elephant". */
  lemma ElephantWrongLetters()
    ensures forall i :: 0 <= i < |"bcdfgijkmo"| ==>
              IsLowerLetter("bcdfgijkmo"[i]) && "bcdfgijkmo"[i] !in "elephant"
  {
  }
}
