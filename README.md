# Guess the Number — a Dafny model

The application is a small React game with three pages:

- **Home** draws a secret target in `1..range`. It accepts up to `maxGuesses` guesses and answers each one with "Too high", "Too low" or "Guessed correctly". When the last allowed guess misses, it shows "Out of guesses - the number was N".
- **Settings** saves a new range and attempt limit.
- **Stats** shows how many games were won and the rounded average number of guesses per won game.

The root component `GuessApp` owns the effective settings and the statistics. It gives `Home` a win callback, `onGameWon`.

The model has four modules:

- `JsNumber` (`js_number.dfy`): the two JavaScript conversions the game uses.
  - `parseInt` without a radix. It skips ECMAScript white space, takes an optional sign, reads a `0x`/`0X` hexadecimal prefix or else the longest run of decimal digits, and gives NaN when no digit follows.
  - The decimal rendering of an integer, used in the loss message.
- `Game` (`game.dfy`): the rules of the home page as pure functions of its state (`HomeState`).
  - `AfterGuess` is one press of Guess, `Step`/`Final` are sequences of typing, guessing and restarting, and `Inv` is the invariant of a game.
  - It also holds the lemmas: the outcome of a guess, the invariant, a finished game staying finished until restart, exactly one win report per game, and restart.
- `Stats` (`stats.dfy`): the average shown on the stats page, which is `Math.round(totalGuesses / gamesWon)` in exact integer arithmetic, or 0 before any win.
- `App` (`app.dfy`): the two stateful components as classes.
  - `GuessApp` has the settings and counters as fields. A ghost history `wins` holds the guess counts of the games won.
  - `Home` has the game state as fields and the settings it was shown with as constants. Its `HandleGuess` follows the source line by line and is proved to move the state exactly as `Game.AfterGuess` says, and to report to the root exactly the win `Game.StepReports` names.
  - The state-changing methods are specified with `old` and `modifies`, each against a function of module Game. The lemmas of module Game on `AfterGuess`, `Step` and `Inv` carry what they guarantee.
  - Three small client methods play sample games: a win on the second guess, a loss after two low guesses, and two wins averaging 4.

The random draw `Math.floor(Math.random() * range) + 1` is a parameter, `target`. `Game.CanDraw` says which targets the draw can produce.

Three details of the code that the model keeps:

- Input that is not a number parses to NaN. NaN is not equal to the target and not greater than it, so the code shows "Too low". `Game.Verdict` models that.
- A decimal guess such as "42.5" parses as 42 and can win. `JsNumber.ParseIntOfNumeral` covers this.
- The count sent to `onGameWon` is `guesses.length + 1`, the number of guesses including the winning one.

## Model

| member | source | states |
|---|---|---|
| JsNumber.TrimStartRemovesWhiteSpace | src/App.js:51 | parseInt's trimming removes only white space, and exactly the leading white space |
| JsNumber.DigitPrefixIsLongest | src/App.js:51 | the digits parseInt reads are the longest run of digits at the start |
| JsNumber.ParseInt | src/App.js:51-55 | `parseInt` without a radix; no ensures of its own: `TrimStartRemovesWhiteSpace`, `DigitPrefixIsLongest`, `ParseIntOfNumeral`, `ParseIntRoundTrip` and `EmptyIsNaN` state its properties |
| JsNumber.IntToString | src/App.js:65 | the decimal text of an integer, never empty; `NegativeText` gives its leading '-' for a negative integer, and `ParseIntRoundTrip` proves `ParseInt` reads it back |
| JsNumber.NatToStringValue | src/App.js:65 | the decimal numeral of a natural number denotes that number |
| JsNumber.ParseIntOfNumeral | src/App.js:51-59 | an integer's numeral, followed by text that cannot extend it (end, '.', 'e', ...), parses back to the integer |
| JsNumber.ParseIntRoundTrip | src/App.js:51 | parseInt of an integer's decimal text gives the integer back |
| JsNumber.EmptyIsNaN | src/App.js:51-59 | an empty guess field parses to NaN |
| Game.StatusText | src/App.js:50-65 | the status line texts; only the loss status shows the loss message prefix |
| Game.LossMessageRevealsTarget | src/App.js:65 | the number after the loss prefix reads back as the target |
| Game.StatusTextInjective | src/App.js:52-65 | two statuses show the same text exactly when they are equal |
| Game.CanDraw | src/App.js:41 | the exact integer image of `Math.floor(Math.random() * range) + 1` for an integral range: [1, range] for a positive range, [range + 1, 1] otherwise; a predicate without ensures, used by `DrawIsPossible`, `Inv` and the constructors and `RestartGame` of `Home` |
| Game.DrawIsPossible | src/App.js:41 | the target 1 can always be drawn, whatever the range; the [1, range] bound for a positive range holds by the definition of `CanDraw` |
| Game.Fresh | src/App.js:40-44 | the state of a newly started game; no ensures of its own: `FreshInv`, `RestartStartsNewGame` and `RestartForgets` state its properties |
| Game.Verdict | src/App.js:51-59 | correct exactly when the parsed value equals the target, too high exactly when it is a number above it, too low otherwise (NaN included) |
| Game.AfterGuess | src/App.js:46-71 | the state after pressing Guess; no ensures of its own: `GuessIgnored`, `GuessRecorded`, `GuessWins`, `GuessMisses`, `GuessLoses` and `GuessKeepsInv` state what it does, and `App.Home.HandleGuess` is proved equal to it |
| Game.ReportOf | src/App.js:51-53 | the win a press of Guess reports, the guess count after the winning guess; no ensures of its own: `GuessIgnored`, `GuessWins`, `GuessMisses`, `GuessLoses` and `OneWinReportPerGame` state its properties |
| Game.GuessIgnored | src/App.js:47-49 | a guess on a finished game or past the limit changes nothing and reports no win |
| Game.GuessRecorded | src/App.js:61-62 | an accepted guess appends the raw text to the guesses and keeps the text and target |
| Game.GuessWins | src/App.js:51-54 | a correct accepted guess wins and ends the game, even on the last attempt, and reports the number of guesses made |
| Game.GuessMisses | src/App.js:55-59 | a miss with attempts remaining keeps the game active and says too high or too low, with no win report |
| Game.GuessLoses | src/App.js:64-67 | a miss on the last attempt sets the loss status naming the target and ends the game |
| Game.FreshInv | src/App.js:40-44 | a new game with a drawable target and a limit of at least 1 satisfies the invariant |
| Game.GuessKeepsInv | src/App.js:46-71 | pressing Guess keeps the invariant: the guesses never exceed the limit, an active game has fewer, and the status matches the phase |
| Game.GuessesLeftNonNegative | src/App.js:98 | under the invariant, the guesses-left count is never negative, and is at least 1 while the game is active |
| Game.RunKeepsInv | src/App.js:46-79 | every sequence of typing, guesses and restarts drawn from the range keeps the invariant |
| Game.FinishedUntilRestart | src/App.js:47 | a finished game keeps its target, guesses, status and inactivity, and reports nothing, until a restart |
| Game.OneWinReportPerGame | src/App.js:47-54 | within one game, a win is reported exactly when the game becomes won, once, with the final guess count |
| Game.WinReportedOnceFromStart | src/App.js:40-54 | from a new game, exactly one win is reported if the game ends won and none otherwise |
| Game.RestartStartsNewGame | src/App.js:73-79 | a restart from any state gives an active game with no guesses, no status, an empty field and the drawn target |
| Game.RestartForgets | src/App.js:73-79 | two restarts equal the second one alone; restarts differ only in their targets |
| Stats.Average | src/App.js:32 | 0 when no game is won; otherwise the average rounded half up, as Math.round rounds it |
| Stats.RoundingIsUnique | src/App.js:32 | only one integer is the rounded average, so the contract of Average fixes its value |
| Stats.AverageWithinCounts | src/App.js:32 | when every won game took between lo and hi guesses, so does the average |
| Stats.SumBounds | src/App.js:18 | the total of n guess counts between lo and hi lies between n*lo and n*hi |
| App.GuessApp.constructor | src/App.js:6-9 | start with range 100, limit 5 and zero statistics |
| App.GuessApp.OnSettingsChange | src/App.js:11-14 | saving sets the range and limit and leaves the statistics unchanged |
| App.GuessApp.OnGameWon | src/App.js:16-19 | a win adds one game and its guess count; the counters never decrease and match the history of wins |
| App.GuessApp.StatsView | src/App.js:32 | the stats page shows the games won and the rounded average, 0 before any win |
| App.Home.constructor | src/App.js:39-44 | a new page starts a fresh game with the current settings and satisfies the invariant |
| App.Home.SetGuess | src/App.js:89 | typing changes only the guess field |
| App.Home.HandleGuess | src/App.js:46-71 | the new state is AfterGuess of the old, the root gets exactly the win StepReports names, and the invariant is kept |
| App.Home.RestartGame | src/App.js:73-79 | restart gives a fresh game with the drawn target and re-establishes the invariant |

## Left out

- The page layout, routing, navigation links and CSS are rendering only.
- The Settings page's draft fields, its confirmation message and its 3000 ms `setTimeout` (src/App.js:103-115) are not modelled. Saving is modelled by `OnSettingsChange` receiving the values.
- `Math.random` is a parameter `target` constrained by `Game.CanDraw`. Randomness is outside the model.
- Floating point is not modelled: the model uses unbounded integers.
  - The average uses exact rational rounding, not a floating-point division followed by `Math.round`.
  - `parseInt` of numerals beyond 2^53 loses precision in JavaScript and not in the model.
  - Integers of 1e21 or more are rendered in exponent notation in JavaScript and not in the model.
  - Negative zero is not modelled.
- The settings inputs store strings, and JavaScript coerces them when it compares and multiplies them. The model takes the saved settings as integers, so non-integral and non-numeric settings are not modelled.
- React's asynchronous state updates, batching and stale closures are not modelled. Each handler runs to completion on the state it sees, and `onGameWon` adds to the counters as they are when it is called.
- `Home` receives `range` and `maxGuesses` as props when it is shown. The model fixes them for the life of a `Home` object, because the settings can only change while the Settings page, not Home, is displayed.
- The `disabled` attributes of the guess field and the Guess button are not modelled. `HandleGuess` ignores presses on a finished game in any case.
