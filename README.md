# Hangman game engine

A model of the game-state engine of a hangman web service. A user starts a
game on a secret target word, then submits one letter per move. The engine
keeps, per game, the letters guessed correctly, the masked progress string,
the count of wrong guesses left and a history of guesses. It ends the game
when the word is solved (a win) or when no wrong guess is left (a loss).
Ending a game records a score and updates the owner's wins, games played and
total score.

Modules:

- `Wrappers`: `Option` and `Result`.
- `Letters`: the pattern `^[a-zA-Z]+$` that target words and guesses must
  match, and lower-casing of ASCII letters.
- `Progress`: the progress string. `Render` is its definition. `ComputeProgress`
  is the cell-by-cell loop of `make_move` that rewrites a copy of the target
  into it.
- `Models` (models.py): `User` with `AddWin`/`AddLoss`; `Game` with its fields,
  `NewGame` (the word checks and the initial state) and `EndGame` (the score
  and the user update); `Score`. The datastore becomes a class `Datastore`
  holding the stored users, games and scores. `put()` becomes an update of
  those fields, and an object reference stands in for an entity's key.
  `Datastore.Valid()` is the store invariant: every stored user keeps wins <=
  games played, and every stored game belongs to a stored user and satisfies
  the game invariant. Creating, moving on and cancelling games keep it.
  `GameState` is the value of a game's fields and `GameState.Valid()` is the
  game invariant: the target passes the word checks, the length field is the
  target's length, 0 <= remaining <= allowed, the progress is the rendering of
  the target under the guessed letters, the guessed letters are distinct
  lower-case letters of the target, the history length is the number of
  correct letters plus the wrong guesses used, and a game still in play has a
  guess left and an unsolved word.
- `Api` (api.py): `Step` is `make_move` as a function on a game's state.
  `MakeMove` is the in-place method, proved equal to `Step` for the game's new
  state and its reply, and it also states the score and user update when the
  game ends. `NewGame`, `CancelGame` and `HighScores` model the other
  operations.

The clock (`date.today()`) is a `Date` parameter of `MakeMove` and `EndGame`.

Two behaviours of the code worth noting:
- A guess of "e" in a new "elephant" game gives the progress `e*e*****`, since
  the word has two e's (`ElephantGuessE`).
- `Game.new_game` itself accepts upper-case letters. Only the service's
  `new_game` lower-cases the word first (api.py:61). The model keeps the two
  steps apart, as the code does.

## Model

| member | source | states |
|---|---|---|
| `Models.CheckTargetWord` | models.py:72-75 | Refuses a word that is empty or has a character outside a-z/A-Z as not alphabetic. Otherwise it refuses a word shorter than 8 as too short. It accepts exactly the alphabetic words of length 8 or more. The alphabet check wins over the length check. |
| `Models.InitialStateValid` | models.py:76-84 | The state built for an accepted word satisfies the game invariant, and its all-mask progress is the rendering of the word with nothing guessed. |
| `Models.Game.constructor` | models.py:76-84 | A new game has 10 allowed and 10 remaining wrong guesses, is not over, has no guessed letters and no history, has the target length as its length field and has `"*" * len(word)` as its progress. |
| `Models.Game.NewGame` | models.py:68-86 | A refused word returns its word error and stores nothing. An accepted word stores exactly one fresh game, in the initial state, owned by the given user, satisfying the game invariant. When the user is stored, the store invariant is kept. |
| `Models.Game.EndGame` | models.py:100-114 | Sets game over and changes no other field of the game. Appends exactly one score: its wrong guesses are allowed minus remaining, its final score is the remaining count and its won flag is the argument. Records the result on the owner. |
| `Models.UserStats.Record` | models.py:43-53 | One finished game adds exactly 1 to games played. It adds 1 to wins exactly on a win, and it adds the final score to the total only on a win. Neither counter decreases, and wins <= games played is kept. |
| `Models.User.constructor` | models.py:14-18 | A new user has wins, games played and total score 0. |
| `Models.User.AddWin` | models.py:43-48 | Wins and games played each go up by 1, and the total score goes up by the final score. Keeps wins <= games played. |
| `Models.User.AddLoss` | models.py:50-53 | Only games played goes up, by 1. Wins and total score are unchanged, and wins <= games played is kept. |
| `Models.ScoreOf` | models.py:106-108 | The score of a finished game belongs to its owner, carries the date and the won flag, has the remaining count as final score, and its wrong guesses plus its final score make up the allowed count. On a valid game both lie in 0..allowed. |
| `Models.Datastore.FindUser` | api.py:56-59 | Returns a stored user with the given name, or null exactly when no stored user has that name. |
| `Letters.LowerChar` | api.py:100 | Lower-cases an ASCII upper-case letter, keeps every other character and maps letters to lower-case letters. |
| `Letters.LowerKeepsAlphabetic` | api.py:61 | Lower-casing the target word keeps its length and its pass/fail under `^[a-zA-Z]+$`, and turns an alphabetic word into lower-case letters. |
| `Progress.ComputeProgress` | api.py:103-109 | The loop over the target's cells produces exactly `Render`: a cell keeps its character when it is a guessed letter and becomes `*` otherwise. |
| `Progress.RenderShape` | api.py:106-109 | The progress has the target's length. Every position is the target's character or `*`, and it is the target's character exactly when that character was guessed. |
| `Progress.RenderNothingGuessed` | models.py:83 | With no letter guessed, the progress is the all-mask string of the target's length. |
| `Progress.RenderByMembership` | api.py:107 | The progress depends only on which letters were guessed, not on their order. |
| `Progress.RenderSolvedIff` | api.py:117 | The progress equals the target exactly when every target character was guessed (or is `*`). |
| `Progress.RenderOneMore` | api.py:105-109 | Guessing one more letter unmasks exactly the positions holding that letter and leaves the rest as they were. |
| `Api.NewGame` | api.py:54-69 | Reports a missing user exactly when no stored user has the name. Lower-cases the word before checking it, returns the word error and stores nothing on a refused word, and otherwise stores one fresh game in the initial state of the lower-cased word. The store invariant is kept. |
| `Api.CheckGuess` | api.py:96-101 | Runs the guess checks in order: a non-letter, then a length other than 1, then a letter (lower-cased) already among the correct letters. A letter guessed wrongly before is accepted. |
| `Api.ApplyLetter` | api.py:103-115 | The correct-or-wrong branch for an accepted letter. A letter of the target is appended to the correct letters, keeps the remaining count and keeps the progress the rendering of the guessed letters. Any other letter costs one wrong guess and changes neither the letters nor the progress. Either way exactly one history entry is appended, with the matching message, and the target, length, allowed count and game-over flag are kept. The history entry is `GuessEntry`: ('Guess: ' and the letter, 'Result: Correct letter guess' or 'Result: Wrong letter guess'), as api.py:111 and api.py:115 format it. |
| `Api.Conclude` | api.py:117-125 | The terminal check only sets game over. The game is won exactly when the progress equals the target, and lost exactly when it does not and fewer than 1 wrong guess remains. A game still in play is left exactly as it was. |
| `Api.Step` | api.py:91-125 | A move keeps the target and the allowed count. It is applied exactly when the game is in play and the guess passes the checks. Otherwise nothing changes. An applied move appends exactly one history entry. A move finishes the game exactly when the game was in play and is over afterwards. |
| `Api.StepOnFinishedGame` | api.py:94-95 | A guess on a finished game returns 'Game already over!' and leaves the state unchanged. |
| `Api.StepRefused` | api.py:96-101 | A refused guess leaves the state unchanged, and the refusal is the first failing check. |
| `Api.StepCorrectGuess` | api.py:104-111 | A correct guess appends the lower-cased letter, re-renders the progress under the new letters (same length as the target) and keeps the remaining count. It appends one 'Correct letter guess' history entry and never loses a valid game. |
| `Api.StepWrongGuess` | api.py:112-115 | A wrong guess, including a letter guessed wrongly before, takes exactly 1 from the remaining count and appends one 'Wrong letter guess' entry. Progress and guessed letters are unchanged. |
| `Api.StepConclusion` | api.py:117-125 | After an accepted guess the game is won exactly when the progress equals the target. Otherwise it is lost exactly when fewer than 1 wrong guess remains, and otherwise it is still in play. It is over exactly in the first two cases, and the message carries ' You win!', ' Game over!' or nothing. |
| `Api.StepWinsIffAllLettersGuessed` | api.py:104-118 | On a valid game, an accepted guess wins exactly when every letter of the target is then among the correct letters. |
| `Api.StepKeepsValid` | api.py:91-125 | Every move keeps the game invariant, so the remaining count stays in 0..allowed. Game over never goes back to false, the remaining count never grows, and the target never changes. The history is only appended to, by exactly one entry per accepted guess. |
| `Api.StepScore` | models.py:106-108 | When a move ends a valid game, the score's final score is the remaining count: 0 exactly on a loss and at least 1 exactly on a win. Its wrong guesses are allowed minus final score. |
| `Api.PlayKeepsValid` | api.py:91-125 | Over any sequence of moves the invariant holds, the remaining count stays between 0 and its start, the history only grows, and a finished game stays exactly as it was. |
| `Api.LoseByWrongGuesses` | api.py:112-122 | From a game in play, guessing letters missing from the target, as many as the wrong guesses left (repeats allowed), ends the game at the last guess. It is then lost with 0 remaining, the progress has not moved, and the history has one entry per guess. |
| `Api.WinByGuessingAllLetters` | api.py:104-119 | From a game in play, guessing once each of the distinct target letters not yet guessed ends the game at the last of them. It is won: the progress equals the target and no wrong guess was charged. |
| `Api.MakeMove` | api.py:91-125 | The in-place update of a stored game gives that game exactly the state and the reply of `Step`. When the move wins or loses, it appends exactly one score for the new state and records the result on the owner. Otherwise no score is written and the owner is unchanged. The store invariant is kept. |
| `Api.GuessLetter` | api.py:103-115 | The in-place update of the game's fields for an accepted letter gives exactly the state and the message of `ApplyLetter`. |
| `Api.ConcludeMove` | api.py:117-125 | The in-place terminal check gives exactly the state and the reply of `Conclude`. When the game is won or lost it appends one score for the new state and records the result on the owner; otherwise no score is written and the owner is unchanged. |
| `Api.CancelGame` | api.py:175-184 | A stored game still in play is deleted, and nothing else is. A stored finished game is refused and kept. An unknown game is reported as not found. The store invariant is kept. |
| `Api.Fetch` | api.py:193 | The fetched scores are the first `number_of_results` of the query, or all of them when no number is given or there are fewer. |
| `Api.InsertByFinalScore` | api.py:194 | Inserting into a list sorted by final score (highest first) keeps it sorted and adds exactly the one score. |
| `Api.SortByFinalScore` | api.py:194 | The result is sorted by final score from highest to lowest and is a permutation of the input. |
| `Api.SortKeepsSorted` | api.py:194 | Scores already in order are returned unchanged, so tied scores keep their order in that case. |
| `Api.HighScores` | api.py:191-195 | The high-score list is a permutation of the fetched scores, sorted by final score from highest to lowest. |
| `Api.TargetWordExamples` | models.py:72-75 | "elephant" is accepted, "cat" is refused as too short and "cat1" is refused as not alphabetic. |
| `Api.ElephantGuessE` | api.py:103-110 | A new "elephant" game shows `********` with 10 remaining. Guessing "e" gives `e*e*****`, 10 remaining, 'Correct letter guess!', still in play. |
| `Api.ElephantWin` | api.py:104-119 | After "e", guessing l, p, h, a, n and t wins the "elephant" game with progress `elephant` and 10 wrong guesses left. |
| `Api.ElephantLoss` | api.py:112-122 | Ten letters not in "elephant" lose a new game on it, with 0 remaining and progress still `********`. |
| `Api.ElephantGuessZ` | api.py:96-115 | Guessing "Z" next gives 9 remaining and unchanged progress. "E" is then refused as already guessed, "z" again costs one more guess, "ez" is refused as not one letter and "3" as not a letter. |

## Left out

- Cloud Endpoints and protorpc framing, and the `to_form` methods and Form message classes: these are transport glue. The reply strings are kept as `Message()` functions on the reply datatypes: those of `make_move` (`Reply`), of the target-word errors (`WordError`), of the service's `new_game` (`NewGameReply`) and of `cancel_game` (`CancelReply`, which takes the request's key string as a parameter). Their HTTP status (bad request, not found) is not modelled.
- The ndb datastore. `put()`, queries, `fetch`, `key.delete()` and `get_by_urlsafe` become updates and membership tests on the `Datastore` fields. There is no durability, and there is no atomicity across the three writes of `end_game`.
- `MakeMove`: requires the game to be stored; the crash on an unknown key (api.py:93-94) is not modelled.
- The task queue and memcache, with `_cache_average_wrong_guesses_remaining` and `get_average_wrong_guesses_remaining`: a float cache side channel.
- `win_percentage`, `average_score` and `get_users_rankings`: they rely on float division.
- `create_user` (api.py:39-47): user creation with its name-uniqueness check (a second user of the same name is refused with 'A User with that name already exists!'). The model has no operation that adds a user to `Datastore.users`; the store's users are given.
- `get_game`, `get_scores`, `get_user_scores`, `get_user_games` and `get_game_history`: plain lookups outside the game engine.
- `date.today()`: the date is a parameter.
- Python `re` beyond "non-empty, all ASCII letters". In particular, `$` also matches before a trailing newline, so `re.match` accepts a word followed by one newline. The model rejects it.
- `Api.CheckGuess`: rejects a guess followed by a newline as not a letter. In the code, the guess `"a\n"` passes the letter check (api.py:96) and is refused by the length check (api.py:98) with 'Only single letters allowed as guesses'; the model refuses it with 'Letter guess must be an alphabet'. Either way the guess is refused and the game is unchanged.
- `Api.NewGame`: lower-cases ASCII letters only; Python's Unicode `lower()` also maps some non-ASCII letters to ASCII ones (the Kelvin sign to `k`), which the model does not capture.
- `Api.CancelGame`: takes the game as an object reference, not as a urlsafe key; the key string appears only as the parameter of `CancelReply.Message`, which formats 'Game <key> deleted!'.
- `Api.Fetch`: takes the limit as an optional natural number; a negative `number_of_results` is not modelled.
- `Api.SortByFinalScore`: Python's sort is stable, but stability is stated only for input that is already sorted (`SortKeepsSorted`), not for ties in general.
- Concurrent moves on one game: each operation runs alone.
