/**
  The two stateful components of the game. `GuessApp` is the root: it owns
  the effective settings and the statistics and hands a win callback to the
  home page. `Home` is the home page: its fields are the game state, and its
  methods run the rules of module Game on them.
 */
module App {
  import opened JsNumber
  import opened Game
  import opened Stats

  /** The values the settings page saves. */
  datatype Settings = Settings(range: int, maxGuesses: int)

  /** What the stats page is given to display. */
  datatype StatsProps = StatsProps(gamesWon: nat, averageGuesses: int)

  class GuessApp {
    var range: int
    var maxGuesses: int
    var gamesWon: nat
    var totalGuesses: nat
    /** The guess counts of the games won so far, in order. */
    ghost var wins: seq<nat>

    ghost predicate Valid()
      reads this
    {
      gamesWon == |wins| && totalGuesses == Sum(wins)
    }

    constructor ()
      ensures Valid() && wins == []
      ensures range == 100 && maxGuesses == 5 && gamesWon == 0 && totalGuesses == 0
    {
      range, maxGuesses := 100, 5;
      gamesWon, totalGuesses := 0, 0;
      wins := [];
    }

    /** Saving the settings replaces the effective range and attempt limit
        and leaves the statistics alone. */
    method OnSettingsChange(settings: Settings)
      requires Valid()
      modifies this`range, this`maxGuesses
      ensures Valid()
      ensures range == settings.range && maxGuesses == settings.maxGuesses
      ensures gamesWon == old(gamesWon) && totalGuesses == old(totalGuesses) && wins == old(wins)
    {
      range := settings.range;
      maxGuesses := settings.maxGuesses;
    }

    /** A won game adds one to the games won and its guess count to the
        total; neither counter ever decreases. */
    method OnGameWon(guessCount: nat)
      requires Valid()
      modifies this`gamesWon, this`totalGuesses, this`wins
      ensures Valid()
      ensures wins == old(wins) + [guessCount]
      ensures gamesWon == old(gamesWon) + 1 && totalGuesses == old(totalGuesses) + guessCount
      ensures old(gamesWon) <= gamesWon && old(totalGuesses) <= totalGuesses
    {
      gamesWon := gamesWon + 1;
      totalGuesses := totalGuesses + guessCount;
      wins := wins + [guessCount];
      assert wins[..|wins| - 1] == old(wins);
    }

    /** What the stats page shows: the games won and the average guesses
        per won game, 0 before the first win. */
    function StatsView(): (p: StatsProps)
      reads this
      ensures p.gamesWon == gamesWon
      ensures gamesWon == 0 ==> p.averageGuesses == 0
      ensures gamesWon > 0 ==> IsRounded(p.averageGuesses, totalGuesses, gamesWon)
    {
      StatsProps(gamesWon, Average(totalGuesses, gamesWon))
    }
  }

  class Home {
    /** The root the win callback reports to. */
    const app: GuessApp
    /** The settings the page was displayed with. */
    const range: int
    const maxGuesses: int

    var guess: string
    var number: int
    var guesses: seq<string>
    var status: Status
    var gameActive: bool

    function State(): HomeState
      reads this
    {
      HomeState(guess, number, guesses, status, gameActive)
    }

    /** The page as first displayed, with the settings in effect and a
        target drawn from the range. */
    constructor (app: GuessApp, target: int)
      requires CanDraw(app.range, target)
      ensures this.app == app && range == app.range && maxGuesses == app.maxGuesses
      ensures State() == Fresh(target)
      ensures maxGuesses >= 1 ==> Inv(State(), range, maxGuesses)
    {
      this.app := app;
      range, maxGuesses := app.range, app.maxGuesses;
      guess, number, guesses, status, gameActive := "", target, [], Blank, true;
      new;
      if maxGuesses >= 1 {
        FreshInv(target, range, maxGuesses);
      }
    }

    /** Typing into the guess field. */
    method SetGuess(text: string)
      modifies this`guess
      ensures State() == old(State()).(guess := text)
    {
      guess := text;
    }

    /** Pressing Guess: the state moves as AfterGuess says, and a winning
        guess is reported to the root exactly once. */
    method HandleGuess()
      requires app.Valid()
      modifies this`guesses, this`status, this`gameActive
      modifies app`gamesWon, app`totalGuesses, app`wins
      ensures State() == AfterGuess(old(State()), maxGuesses)
      ensures app.Valid()
      ensures app.wins == old(app.wins) + StepReports(old(State()), Submit, maxGuesses)
      ensures Inv(old(State()), range, maxGuesses) ==> Inv(State(), range, maxGuesses)
    {
      ghost var before := State();
      if !gameActive {
        return;
      }
      if |guesses| < maxGuesses {
        var currentStatus := Blank;
        var parsed := ParseInt(guess);
        if parsed == Int(number) {
          currentStatus := GuessedCorrectly;
          app.OnGameWon(|guesses| + 1);
          gameActive := false;
        } else if parsed.Int? && parsed.value > number {
          currentStatus := TooHigh;
        } else {
          currentStatus := TooLow;
        }
        var newGuesses := guesses + [guess];
        guesses := newGuesses;
        if |newGuesses| >= maxGuesses && currentStatus != GuessedCorrectly {
          currentStatus := OutOfGuesses(number);
          gameActive := false;
        }
        status := currentStatus;
      }
      if Inv(before, range, maxGuesses) {
        GuessKeepsInv(before, range, maxGuesses);
      }
    }

    /** Pressing Restart: a new game with a newly drawn target. */
    method RestartGame(target: int)
      requires CanDraw(range, target)
      modifies this`number, this`guesses, this`status, this`guess, this`gameActive
      ensures State() == Fresh(target)
      ensures maxGuesses >= 1 ==> Inv(State(), range, maxGuesses)
    {
      number := target;
      guesses := [];
      status := Blank;
      guess := "";
      gameActive := true;
      if maxGuesses >= 1 {
        FreshInv(target, range, maxGuesses);
      }
    }
  }

  /** With the default settings and the target 42, "50" is too high and
      "42" then wins in two guesses. */
  method WinOnSecondGuess() {
    ParseIntRoundTrip(50);
    assert IntToString(50) == "50";
    ParseIntRoundTrip(42);
    assert IntToString(42) == "42";
    var app := new GuessApp();
    var home := new Home(app, 42);
    home.SetGuess("50");
    assert home.State() == HomeState("50", 42, [], Blank, true);
    home.HandleGuess();
    assert home.State() == HomeState("50", 42, ["50"], TooHigh, true);
    assert app.wins == [];
    home.SetGuess("42");
    assert home.State() == HomeState("42", 42, ["50"], TooHigh, true);
    home.HandleGuess();
    assert home.State() == HomeState("42", 42, ["50", "42"], GuessedCorrectly, false);
    assert app.wins == [2] && app.gamesWon == 1 && app.totalGuesses == 2;
  }

  /** With range 10, two guesses allowed and the target 7, "1" and "2" are
      too low and the game is then lost. */
  method LoseAfterTwoGuesses() {
    ParseIntRoundTrip(1);
    assert IntToString(1) == "1";
    ParseIntRoundTrip(2);
    assert IntToString(2) == "2";
    var app := new GuessApp();
    app.OnSettingsChange(Settings(10, 2));
    var home := new Home(app, 7);
    home.SetGuess("1");
    assert home.State() == HomeState("1", 7, [], Blank, true);
    home.HandleGuess();
    assert home.State() == HomeState("1", 7, ["1"], TooLow, true);
    home.SetGuess("2");
    assert home.State() == HomeState("2", 7, ["1"], TooLow, true);
    home.HandleGuess();
    assert home.State() == HomeState("2", 7, ["1", "2"], OutOfGuesses(7), false);
    assert StatusText(home.status) == "Out of guesses - the number was 7";
    assert app.gamesWon == 0;
  }

  /** Two games won with 3 and 5 guesses give an average of 4. */
  method AverageOfTwoWins() {
    var app := new GuessApp();
    app.OnGameWon(3);
    app.OnGameWon(5);
    var p := app.StatsView();
    RoundingIsUnique(p.averageGuesses, 4, 8, 2);
    assert p == StatsProps(2, 4);
  }
}
