/**
  The rules of one play session on the home page, as pure functions of its
  state: a guess is ignored, or compared with the target, recorded and
  possibly ends the game; a restart begins a new game. The classes in
  module App run these rules on mutable fields.
 */
module Game {
  import opened JsNumber

  /** The status line of the home page: empty, one of the three verdicts,
      or the loss message naming the target. */
  datatype Status = Blank | GuessedCorrectly | TooHigh | TooLow | OutOfGuesses(target: int)

  const LossPrefix: string := "Out of guesses - the number was "

  /** The text the status line shows. */
  function StatusText(status: Status): (text: string)
    ensures status.OutOfGuesses? <==> |text| > |LossPrefix| && text[..|LossPrefix|] == LossPrefix
  {
    match status
    case Blank => ""
    case GuessedCorrectly => "Guessed correctly"
    case TooHigh => "Too high"
    case TooLow => "Too low"
    case OutOfGuesses(target) => LossPrefix + IntToString(target)
  }

  /** The loss message names the target: reading the number after its
      prefix gives the target back. */
  lemma LossMessageRevealsTarget(target: int)
    ensures ParseInt(StatusText(OutOfGuesses(target))[|LossPrefix|..]) == Int(target)
  {
    assert StatusText(OutOfGuesses(target))[|LossPrefix|..] == IntToString(target);
    ParseIntRoundTrip(target);
  }

  /** Distinct statuses show distinct texts, so comparing statuses is
      comparing the strings the page holds. */
  lemma StatusTextInjective(a: Status, b: Status)
    ensures StatusText(a) == StatusText(b) <==> a == b
  {
    if StatusText(a) == StatusText(b) && a.OutOfGuesses? && b.OutOfGuesses? {
      LossMessageRevealsTarget(a.target);
      LossMessageRevealsTarget(b.target);
    }
  }

  /** The targets `Math.floor(Math.random() * range) + 1` can produce for an
      integral `range`: 1 to `range` when `range` is positive; otherwise the
      product lies in (range, 0] and the target in [range + 1, 1]. */
  predicate CanDraw(range: int, target: int) {
    if range >= 1 then 1 <= target <= range else range + 1 <= target <= 1
  }

  /** Whatever the range, a target can be drawn (1 always can), and for a
      positive range every drawn target lies in [1, range]. */
  lemma DrawIsPossible(range: int, target: int)
    ensures CanDraw(range, 1)
    ensures range >= 1 && CanDraw(range, target) ==> 1 <= target <= range
  {
  }

  /** The state of the home page: the text in the guess field, the target,
      the guesses recorded so far, the status line and whether guessing is
      still enabled. */
  datatype HomeState = HomeState(
    guess: string,
    number: int,
    guesses: seq<string>,
    status: Status,
    gameActive: bool)

  /** The state of a newly started game, on first display and after a
      restart alike. */
  function Fresh(target: int): HomeState {
    HomeState("", target, [], Blank, true)
  }

  /** Whether a press of the Guess button is acted upon. */
  predicate Accepts(s: HomeState, maxGuesses: int) {
    s.gameActive && |s.guesses| < maxGuesses
  }

  /** The status a guess earns before the attempt limit is considered:
      equal, greater, or anything else (NaN included). */
  function Verdict(parsed: IntOrNaN, target: int): (status: Status)
    ensures status == GuessedCorrectly <==> parsed == Int(target)
    ensures status == TooHigh <==> parsed.Int? && parsed.value > target
    ensures status == TooLow <==> parsed.NaN? || parsed.value < target
  {
    if parsed == Int(target) then GuessedCorrectly
    else if parsed.Int? && parsed.value > target then TooHigh
    else TooLow
  }

  /** The state after the Guess button is pressed. */
  function AfterGuess(s: HomeState, maxGuesses: int): HomeState {
    if !Accepts(s, maxGuesses) then s
    else
      var verdict := Verdict(ParseInt(s.guess), s.number);
      var newGuesses := s.guesses + [s.guess];
      var lost := |newGuesses| >= maxGuesses && verdict != GuessedCorrectly;
      s.(guesses := newGuesses,
         status := if lost then OutOfGuesses(s.number) else verdict,
         gameActive := verdict != GuessedCorrectly && !lost)
  }

  /** What a press of the Guess button reports to the statistics. */
  datatype WinReport = NoWin | Won(guessCount: nat)

  function ReportOf(s: HomeState, maxGuesses: int): WinReport {
    if Accepts(s, maxGuesses) && ParseInt(s.guess) == Int(s.number)
    then Won(|s.guesses| + 1)
    else NoWin
  }

  /** A guess that is not accepted changes nothing and reports nothing. */
  lemma GuessIgnored(s: HomeState, maxGuesses: int)
    requires !s.gameActive || |s.guesses| >= maxGuesses
    ensures AfterGuess(s, maxGuesses) == s
    ensures ReportOf(s, maxGuesses) == NoWin
  {
  }

  /** An accepted guess records the raw text of the field after the earlier
      guesses, and leaves the text and the target as they were. */
  lemma GuessRecorded(s: HomeState, maxGuesses: int)
    requires Accepts(s, maxGuesses)
    ensures AfterGuess(s, maxGuesses).guesses == s.guesses + [s.guess]
    ensures AfterGuess(s, maxGuesses).guess == s.guess
    ensures AfterGuess(s, maxGuesses).number == s.number
  {
  }

  /** An accepted guess whose value is the target wins, even when it is the
      last one allowed, and reports the number of guesses made. */
  lemma GuessWins(s: HomeState, maxGuesses: int)
    requires Accepts(s, maxGuesses) && ParseInt(s.guess) == Int(s.number)
    ensures AfterGuess(s, maxGuesses).status == GuessedCorrectly
    ensures !AfterGuess(s, maxGuesses).gameActive
    ensures ReportOf(s, maxGuesses) == Won(|AfterGuess(s, maxGuesses).guesses|)
  {
  }

  /** An accepted guess that misses while guesses remain reports whether it
      was too high or, for anything else (NaN included), too low. */
  lemma GuessMisses(s: HomeState, maxGuesses: int)
    requires Accepts(s, maxGuesses) && ParseInt(s.guess) != Int(s.number)
    requires |s.guesses| + 1 < maxGuesses
    ensures var t := AfterGuess(s, maxGuesses);
      t.gameActive &&
      (t.status == TooHigh <==> ParseInt(s.guess).Int? && ParseInt(s.guess).value > s.number) &&
      (t.status == TooLow <==> !(ParseInt(s.guess).Int? && ParseInt(s.guess).value > s.number))
    ensures ReportOf(s, maxGuesses) == NoWin
  {
  }

  /** An accepted guess that misses on the last allowed attempt loses: the
      status names the target and guessing stops. */
  lemma GuessLoses(s: HomeState, maxGuesses: int)
    requires Accepts(s, maxGuesses) && ParseInt(s.guess) != Int(s.number)
    requires |s.guesses| + 1 >= maxGuesses
    ensures AfterGuess(s, maxGuesses).status == OutOfGuesses(s.number)
    ensures !AfterGuess(s, maxGuesses).gameActive
    ensures ReportOf(s, maxGuesses) == NoWin
  {
  }

  /** The invariant of a game in progress or finished under an attempt
      limit `maxGuesses` and a `range`: the target is one the range can
      draw, at most `maxGuesses` guesses are recorded and fewer while the
      game is active; an active game shows no status or a miss, a finished
      one a win or the loss message (and then every guess has been used);
      the status is empty exactly before the first guess. */
  predicate Inv(s: HomeState, range: int, maxGuesses: int) {
    CanDraw(range, s.number) &&
    |s.guesses| <= maxGuesses &&
    (s.gameActive ==>
      |s.guesses| < maxGuesses && (s.status == Blank || s.status == TooHigh || s.status == TooLow)) &&
    (!s.gameActive ==>
      s.status == GuessedCorrectly ||
      (s.status == OutOfGuesses(s.number) && |s.guesses| == maxGuesses)) &&
    (s.status == Blank <==> s.guesses == [])
  }

  /** A new game satisfies the invariant whenever at least one guess is
      allowed and the target was drawn from the range. */
  lemma FreshInv(target: int, range: int, maxGuesses: int)
    requires maxGuesses >= 1 && CanDraw(range, target)
    ensures Inv(Fresh(target), range, maxGuesses)
  {
  }

  /** Pressing Guess keeps the invariant. */
  lemma GuessKeepsInv(s: HomeState, range: int, maxGuesses: int)
    requires Inv(s, range, maxGuesses)
    ensures Inv(AfterGuess(s, maxGuesses), range, maxGuesses)
  {
  }

  /** The count of guesses left, shown under the status, is never negative
      in a state that satisfies the invariant. */
  function GuessesLeft(s: HomeState, maxGuesses: int): int {
    maxGuesses - |s.guesses|
  }

  lemma GuessesLeftNonNegative(s: HomeState, range: int, maxGuesses: int)
    requires Inv(s, range, maxGuesses)
    ensures GuessesLeft(s, maxGuesses) >= 0
    ensures s.gameActive ==> GuessesLeft(s, maxGuesses) >= 1
  {
  }

  /** What the player can do on the home page: type into the guess field,
      press Guess, or press Restart (with the target it draws). */
  datatype Event = Type(text: string) | Submit | Restart(target: int)

  function Step(s: HomeState, e: Event, maxGuesses: int): HomeState {
    match e
    case Type(text) => s.(guess := text)
    case Submit => AfterGuess(s, maxGuesses)
    case Restart(target) => Fresh(target)
  }

  function StepReports(s: HomeState, e: Event, maxGuesses: int): seq<nat> {
    if e.Submit? then
      match ReportOf(s, maxGuesses)
      case NoWin => []
      case Won(c) => [c]
    else []
  }

  /** The state after a sequence of events. */
  function Final(s: HomeState, events: seq<Event>, maxGuesses: int): HomeState
    decreases |events|
  {
    if events == [] then s
    else Final(Step(s, events[0], maxGuesses), events[1..], maxGuesses)
  }

  /** The guess counts reported as wins during a sequence of events. */
  function Wins(s: HomeState, events: seq<Event>, maxGuesses: int): seq<nat>
    decreases |events|
  {
    if events == [] then []
    else StepReports(s, events[0], maxGuesses) + Wins(Step(s, events[0], maxGuesses), events[1..], maxGuesses)
  }

  predicate DrawsFrom(events: seq<Event>, range: int) {
    forall i :: 0 <= i < |events| && events[i].Restart? ==> CanDraw(range, events[i].target)
  }

  predicate NoRestart(events: seq<Event>) {
    forall i :: 0 <= i < |events| ==> !events[i].Restart?
  }

  /** Every sequence of events, with restarts that draw from the range,
      keeps the invariant. */
  lemma {:induction false} RunKeepsInv(s: HomeState, events: seq<Event>, range: int, maxGuesses: int)
    requires Inv(s, range, maxGuesses) && maxGuesses >= 1 && DrawsFrom(events, range)
    ensures Inv(Final(s, events, maxGuesses), range, maxGuesses)
    decreases |events|
  {
    if events != [] {
      var e := events[0];
      match e {
        case Type(_) =>
        case Submit => GuessKeepsInv(s, range, maxGuesses);
        case Restart(target) => FreshInv(target, range, maxGuesses);
      }
      assert DrawsFrom(events[1..], range) by {
        forall i | 0 <= i < |events[1..]| && events[1..][i].Restart?
          ensures CanDraw(range, events[1..][i].target)
        {
          assert events[1..][i] == events[i + 1];
        }
      }
      RunKeepsInv(Step(s, e, maxGuesses), events[1..], range, maxGuesses);
    }
  }

  /** Who sees the same game: the target, the guesses, the status and
      whether guessing is enabled agree (the guess field may differ). */
  predicate SameGame(a: HomeState, b: HomeState) {
    a.number == b.number && a.guesses == b.guesses && a.status == b.status &&
    a.gameActive == b.gameActive
  }

  /** A finished game stays finished, unchanged and silent, whatever is
      typed or guessed, until Restart is pressed. */
  lemma {:induction false} FinishedUntilRestart(s: HomeState, events: seq<Event>, maxGuesses: int)
    requires !s.gameActive && NoRestart(events)
    ensures SameGame(Final(s, events, maxGuesses), s)
    ensures Wins(s, events, maxGuesses) == []
    decreases |events|
  {
    if events != [] {
      assert !events[0].Restart?;
      assert NoRestart(events[1..]) by {
        forall i | 0 <= i < |events[1..]| ensures !events[1..][i].Restart? {
          assert events[1..][i] == events[i + 1];
        }
      }
      FinishedUntilRestart(Step(s, events[0], maxGuesses), events[1..], maxGuesses);
    }
  }

  /** Within one game (no restart), a win is reported exactly when the game
      was not already won and ends won, and the count reported is the
      number of guesses the game took. */
  lemma {:induction false} OneWinReportPerGame(s: HomeState, events: seq<Event>, range: int, maxGuesses: int)
    requires Inv(s, range, maxGuesses) && NoRestart(events)
    ensures var t := Final(s, events, maxGuesses);
      |Wins(s, events, maxGuesses)| == if s.status != GuessedCorrectly && t.status == GuessedCorrectly then 1 else 0
    ensures |Wins(s, events, maxGuesses)| == 1 ==>
      Wins(s, events, maxGuesses)[0] == |Final(s, events, maxGuesses).guesses|
    decreases |events|
  {
    if events == [] {
    } else if !s.gameActive {
      FinishedUntilRestart(s, events, maxGuesses);
    } else {
      var e := events[0];
      var s' := Step(s, e, maxGuesses);
      assert NoRestart(events[1..]) by {
        forall i | 0 <= i < |events[1..]| ensures !events[1..][i].Restart? {
          assert events[1..][i] == events[i + 1];
        }
      }
      assert !e.Restart?;
      if e.Submit? {
        GuessKeepsInv(s, range, maxGuesses);
      }
      if StepReports(s, e, maxGuesses) != [] {
        assert s'.status == GuessedCorrectly && !s'.gameActive;
        FinishedUntilRestart(s', events[1..], maxGuesses);
      } else {
        assert s'.status != GuessedCorrectly;
        OneWinReportPerGame(s', events[1..], range, maxGuesses);
      }
    }
  }

  /** From the start of a game, exactly one win is reported if the game
      ends won, and none otherwise. */
  lemma WinReportedOnceFromStart(target: int, events: seq<Event>, range: int, maxGuesses: int)
    requires maxGuesses >= 1 && CanDraw(range, target) && NoRestart(events)
    ensures |Wins(Fresh(target), events, maxGuesses)| ==
      if Final(Fresh(target), events, maxGuesses).status == GuessedCorrectly then 1 else 0
  {
    FreshInv(target, range, maxGuesses);
    OneWinReportPerGame(Fresh(target), events, range, maxGuesses);
  }

  /** A restart, whatever the state it interrupts, begins an active game
      with no guesses, no status, an empty guess field and the drawn
      target, which for a positive range lies in [1, range]. */
  lemma RestartStartsNewGame(s: HomeState, target: int, range: int, maxGuesses: int)
    requires CanDraw(range, target)
    ensures var t := Step(s, Restart(target), maxGuesses);
      t.gameActive && t.guesses == [] && t.status == Blank && t.guess == "" &&
      t.number == target && (range >= 1 ==> 1 <= t.number <= range)
  {
  }

  /** A restart forgets the game it ends: two restarts in a row leave the
      state one restart with the second target leaves, and restarts with
      different targets differ in the target only. */
  lemma RestartForgets(s: HomeState, t1: int, t2: int, maxGuesses: int)
    ensures Step(Step(s, Restart(t1), maxGuesses), Restart(t2), maxGuesses) == Step(s, Restart(t2), maxGuesses)
    ensures Step(s, Restart(t1), maxGuesses) == Step(s, Restart(t2), maxGuesses).(number := t1)
  {
  }
}
