/**
  The stored entities of the game: users with their win/loss counters, games
  with their guess state, and the score recorded when a game ends. The
  datastore that `put()` writes to is a class holding the stored entities;
  an object reference stands for its key.
*/
module Models {
  import opened Wrappers
  import opened Letters
  import opened Progress

  /** Shortest target word a game accepts. */
  const MIN_TARGET_LENGTH: nat := 8

  /** Wrong guesses a new game allows. */
  const WRONG_GUESSES_ALLOWED: nat := 10

  /** Why a target word was refused. */
  datatype WordError = NotAlphabetic | TooShort {
    function Message(): string {
      match this
      case NotAlphabetic =>
        "Target word must be a single word and must not contain any numbers or special characters"
      case TooShort => "Target word must be at least 8 characters long"
    }
  }

  /**
    The target-word checks of new_game, in their order: the alphabet check
    first, so a short word with a digit is refused as not alphabetic.
  */
  function CheckTargetWord(word: string): (r: Option<WordError>)
    ensures r == Some(NotAlphabetic) <==> !IsAlphabetic(word)
    ensures r == Some(TooShort) <==> IsAlphabetic(word) && |word| < MIN_TARGET_LENGTH
    ensures r == None <==> IsAlphabetic(word) && |word| >= MIN_TARGET_LENGTH
  {
    if !IsAlphabetic(word) then Some(NotAlphabetic)
    else if |word| < MIN_TARGET_LENGTH then Some(TooShort)
    else None
  }

  /** The calendar date a score is recorded on; the clock is the caller's. */
  datatype Date = Date(year: int, month: int, day: int)

  /** The record written once when a game ends. */
  datatype Score = Score(user: User, date: Date, won: bool, wrongGuesses: int, finalScore: int)

  /** The counters of a user. */
  datatype UserStats = UserStats(wins: nat, gamesPlayed: nat, totalScore: int) {

    predicate Valid() {
      wins <= gamesPlayed
    }

    /**
      The counters after one more finished game: a win counts a game, a win
      and its final score; a loss counts a game and nothing else.
    */
    function Record(won: bool, finalScore: int): (r: UserStats)
      ensures Valid() ==> r.Valid()
      ensures r.gamesPlayed == gamesPlayed + 1
      ensures r.wins >= wins && r.wins <= wins + 1
      ensures r.wins == wins + 1 <==> won
      ensures r.gamesPlayed - r.wins == gamesPlayed - wins + (if won then 0 else 1)
      ensures r.totalScore - totalScore == (if won then finalScore else 0)
    {
      if won then UserStats(wins + 1, gamesPlayed + 1, totalScore + finalScore)
      else UserStats(wins, gamesPlayed + 1, totalScore)
    }
  }

  class User {
    var name: string
    var email: Option<string>
    var wins: nat
    var gamesPlayed: nat
    var totalScore: int

    function Stats(): UserStats
      reads this
    {
      UserStats(wins, gamesPlayed, totalScore)
    }

    ghost predicate Valid()
      reads this
    {
      Stats().Valid()
    }

    /** A new account: every counter starts at 0. */
    constructor (name: string, email: Option<string>)
      ensures this.name == name && this.email == email
      ensures Stats() == UserStats(0, 0, 0) && Valid()
    {
      this.name := name;
      this.email := email;
      wins, gamesPlayed, totalScore := 0, 0, 0;
    }

    method AddWin(finalScore: int)
      modifies this
      ensures wins == old(wins) + 1 && gamesPlayed == old(gamesPlayed) + 1
      ensures totalScore == old(totalScore) + finalScore
      ensures name == old(name) && email == old(email)
      ensures Stats() == old(Stats()).Record(true, finalScore)
      ensures old(Valid()) ==> Valid()
    {
      wins := wins + 1;
      gamesPlayed := gamesPlayed + 1;
      totalScore := totalScore + finalScore;
    }

    method AddLoss()
      modifies this
      ensures gamesPlayed == old(gamesPlayed) + 1
      ensures wins == old(wins) && totalScore == old(totalScore)
      ensures name == old(name) && email == old(email)
      ensures Stats() == old(Stats()).Record(false, 0)
      ensures old(Valid()) ==> Valid()
    {
      gamesPlayed := gamesPlayed + 1;
    }
  }

  /** One entry of the guess history: the guess and its result, as display strings. */
  type HistoryEntry = (string, string)

  function GuessEntry(letter: char, correct: bool): HistoryEntry {
    ("Guess: " + [letter],
     if correct then "Result: Correct letter guess" else "Result: Wrong letter guess")
  }

  /** Everything a game stores except its owner. */
  datatype GameState = GameState(
    targetWord: string,
    targetWordLength: int,
    correctLettersGuessed: seq<char>,
    targetWordProgress: string,
    wrongGuessesAllowed: int,
    wrongGuessesRemaining: int,
    guessHistory: seq<HistoryEntry>,
    gameOver: bool)
  {
    /**
      What holds of every game that new_game creates and make_move updates:
      the target passed the word checks; the guessed letters are distinct
      lower-case letters of the target; the progress is the rendering of the
      target under those letters; the remaining count lies between 0 and the
      allowance; each history entry is either a correct letter or a charged
      wrong guess; and a game still in play has a guess left and no solved word.
    */
    predicate Valid() {
      && CheckTargetWord(targetWord) == None
      && targetWordLength == |targetWord|
      && (forall i :: 0 <= i < |correctLettersGuessed| ==>
            IsLowerLetter(correctLettersGuessed[i]) && correctLettersGuessed[i] in targetWord)
      && (forall i, j :: 0 <= i < j < |correctLettersGuessed| ==>
            correctLettersGuessed[i] != correctLettersGuessed[j])
      && targetWordProgress == Render(targetWord, correctLettersGuessed)
      && 0 <= wrongGuessesRemaining <= wrongGuessesAllowed
      && |guessHistory| == |correctLettersGuessed| + (wrongGuessesAllowed - wrongGuessesRemaining)
      && (!gameOver ==> wrongGuessesRemaining >= 1 && targetWordProgress != targetWord)
    }
  }

  /** The state new_game gives a game for the target word. */
  function InitialState(targetWord: string): GameState {
    GameState(targetWord, |targetWord|, [], Mask(|targetWord|),
              WRONG_GUESSES_ALLOWED, WRONG_GUESSES_ALLOWED, [], false)
  }

  /** A game created from an accepted target word satisfies the game invariant. */
  lemma InitialStateValid(targetWord: string)
    requires CheckTargetWord(targetWord) == None
    ensures InitialState(targetWord).Valid()
    ensures InitialState(targetWord).targetWordProgress == Render(targetWord, [])
  {
    RenderNothingGuessed(targetWord);
    assert Mask(|targetWord|)[0] != targetWord[0];
  }

  /** The score end_game records for a game in state s. */
  function ScoreOf(user: User, s: GameState, won: bool, today: Date): (r: Score)
    ensures r.user == user && r.date == today && r.won == won
    ensures r.finalScore == s.wrongGuessesRemaining
    ensures r.wrongGuesses + r.finalScore == s.wrongGuessesAllowed
    ensures s.Valid() ==> 0 <= r.wrongGuesses <= s.wrongGuessesAllowed && 0 <= r.finalScore <= s.wrongGuessesAllowed
  {
    Score(user, today, won, s.wrongGuessesAllowed - s.wrongGuessesRemaining, s.wrongGuessesRemaining)
  }

  class Game {
    const user: User
    var targetWord: string
    var targetWordLength: int
    var correctLettersGuessed: seq<char>
    var targetWordProgress: string
    var wrongGuessesAllowed: int
    var wrongGuessesRemaining: int
    var guessHistory: seq<HistoryEntry>
    var gameOver: bool

    function State(): GameState
      reads this
    {
      GameState(targetWord, targetWordLength, correctLettersGuessed, targetWordProgress,
                wrongGuessesAllowed, wrongGuessesRemaining, guessHistory, gameOver)
    }

    ghost predicate Valid()
      reads this
    {
      State().Valid()
    }

    /** The entity built by new_game once the target word has passed its checks. */
    constructor (user: User, targetWord: string)
      ensures this.user == user
      ensures State() == InitialState(targetWord)
    {
      this.user := user;
      this.targetWord := targetWord;
      wrongGuessesAllowed := WRONG_GUESSES_ALLOWED;
      wrongGuessesRemaining := WRONG_GUESSES_ALLOWED;
      gameOver := false;
      targetWordLength := |targetWord|;
      correctLettersGuessed := [];
      targetWordProgress := Mask(|targetWord|);
      guessHistory := [];
    }

    /**
      new_game: checks the target word and, when it passes, stores and returns
      a fresh game; a refused word stores nothing.
    */
    static method NewGame(user: User, targetWord: string, store: Datastore)
      returns (r: Result<Game, WordError>)
      modifies store
      ensures CheckTargetWord(targetWord).Some? ==>
                r == Failure(CheckTargetWord(targetWord).value) && unchanged(store)
      ensures CheckTargetWord(targetWord).None? ==>
                && r.Success? && fresh(r.value)
                && r.value.user == user
                && r.value.State() == InitialState(targetWord)
                && r.value.Valid()
                && store.games == old(store.games) + {r.value}
                && store.users == old(store.users) && store.scores == old(store.scores)
      ensures old(store.Valid()) && user in store.users ==> store.Valid()
    {
      var check := CheckTargetWord(targetWord);
      if check.Some? {
        return Failure(check.value);
      }
      var game := new Game(user, targetWord);
      InitialStateValid(targetWord);
      store.games := store.games + {game};
      r := Success(game);
    }

    /**
      end_game: marks the game over, records its score and counts the result
      for the owner. No other field of the game changes.
    */
    method EndGame(won: bool, today: Date, store: Datastore)
      modifies this, user, store
      ensures State() == old(State()).(gameOver := true)
      ensures store.scores == old(store.scores) + [ScoreOf(user, old(State()), won, today)]
      ensures store.games == old(store.games) && store.users == old(store.users)
      ensures user.Stats() == old(user.Stats()).Record(won, old(wrongGuessesRemaining))
      ensures user.name == old(user.name) && user.email == old(user.email)
      ensures old(user.Valid()) ==> user.Valid()
    {
      gameOver := true;
      var score := Score(user, today, won, wrongGuessesAllowed - wrongGuessesRemaining,
                         wrongGuessesRemaining);
      store.scores := store.scores + [score];
      if won {
        user.AddWin(wrongGuessesRemaining);
      } else {
        user.AddLoss();
      }
    }
  }

  /** The stored users, games and scores; the order of `scores` is the order a query returns them in. */
  class Datastore {
    var users: set<User>
    var games: set<Game>
    var scores: seq<Score>

    /**
      What every reachable store satisfies: each stored user keeps wins <=
      games played, and each stored game belongs to a stored user and
      satisfies the game invariant.
    */
    ghost predicate Valid()
      reads this, users, games
    {
      && (forall u :: u in users ==> u.Valid())
      && (forall g :: g in games ==> g.user in users && g.Valid())
    }

    constructor ()
      ensures users == {} && games == {} && scores == []
      ensures Valid()
    {
      users, games, scores := {}, {}, [];
    }

    /** The query for a user by name: some stored user of that name, or null when there is none. */
    method FindUser(name: string) returns (u: User?)
      ensures u != null ==> u in users && u.name == name
      ensures u == null ==> forall v :: v in users ==> v.name != name
    {
      if exists v :: v in users && v.name == name {
        u :| u in users && u.name == name;
      } else {
        u := null;
      }
    }
  }
}
