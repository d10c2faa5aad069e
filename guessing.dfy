/**
 * One round of the game screen as values: the secret, the chance counter,
 * the guess text and the hint text, and what pressing the keyboard's Done
 * key or the "Check Guess" button does to them.
 */
module Guessing {
  import opened Wrappers
  import opened Int32Arith
  import opened Decimal
  import opened Hint
  import opened Routes

  const FIRST_PROMPT: string := "Make your 1st guess!!"
  const NO_NUMBER: string := "No number entered"

  /** The remembered state of the game screen. */
  datatype Round = Round(secret: int, chances: int, guess: string, hint: string)

  predicate ValidRound(r: Round) {
    1 <= r.secret <= 100 && IsInt32(r.chances)
  }

  /** The two places that submit a guess. */
  datatype Trigger = KeyboardDone | CheckButton

  /** What a handler does besides updating the round. */
  datatype Effect =
    | Stay                  // remain on the game screen
    | Toast(message: string)
    | Navigate(to: Route)

  /** The round the game screen starts with. */
  function NewRound(secret: int, chancesLeft: int): (r: Round)
    ensures r.secret == secret && r.chances == chancesLeft
    ensures r.guess == "" && r.hint == FIRST_PROMPT
  {
    Round(secret, chancesLeft, "", FIRST_PROMPT)
  }

  /** The win test `guess.toIntOrNull() == randomNumber`. */
  predicate Wins(secret: int, guess: string): (w: bool)
    ensures w ==> guess != "" && IsInt32(secret)
  {
    ParseInt(guess) == Some(secret)
  }

  /** The three-way decision both handlers make on the current guess. */
  function Evaluate(r: Round): (res: (Round, Effect))
    ensures res.0.secret == r.secret
    ensures res.1 != Stay ==> res.0 == r
    ensures res.1.Navigate? ==> res.1.to.GameOver?
    ensures ValidRound(r) ==> ValidRound(res.0)
  {
    if Wins(r.secret, r.guess) then
      (r, Navigate(GameOver(true)))
    else if Wrap32(r.chances - 1) == 0 then
      (r, Navigate(GameOver(false)))
    else
      (r.(hint := HintText(r.secret, r.guess), chances := Wrap32(r.chances - 1), guess := ""), Stay)
  }

  /** Submitting the current guess: the button first rejects an empty guess. */
  function Submit(r: Round, t: Trigger): (res: (Round, Effect))
    ensures res.0.secret == r.secret
    ensures res.1 != Stay ==> res.0 == r
    ensures res.1.Navigate? ==> res.1.to.GameOver?
    ensures res.1.Toast? ==> t == CheckButton
    ensures ValidRound(r) ==> ValidRound(res.0)
  {
    if t == CheckButton && r.guess == "" then
      (r, Toast(NO_NUMBER))
    else
      Evaluate(r)
  }

  /** A correct guess wins at once, whatever the chances left. */
  lemma CorrectGuessWins(r: Round, t: Trigger)
    requires Wins(r.secret, r.guess)
    ensures Submit(r, t) == (r, Navigate(GameOver(true)))
  {
    assert r.guess != "";
  }

  /** The texts that win are the secret's numeral with an optional '+' and leading zeros. */
  lemma WinningTexts(r: Round)
    requires ValidRound(r)
    ensures Wins(r.secret, r.guess) <==> IsPaddedNumeral(r.guess, r.secret)
  {
    ParseIntPositive(r.guess, r.secret);
  }

  /** A wrong guess with one chance left loses and changes nothing. */
  lemma LastWrongGuessLoses(r: Round, t: Trigger)
    requires ValidRound(r) && r.chances == 1
    requires !Wins(r.secret, r.guess)
    requires t == CheckButton ==> r.guess != ""
    ensures Submit(r, t) == (r, Navigate(GameOver(false)))
  {
  }

  /**
   * Any other wrong guess costs exactly one chance, clears the guess, sets
   * the hint and keeps the secret.
   */
  lemma WrongGuessCostsOneChance(r: Round, t: Trigger)
    requires ValidRound(r) && r.chances != 1
    requires !Wins(r.secret, r.guess)
    requires t == CheckButton ==> r.guess != ""
    ensures var (next, effect) := Submit(r, t);
      && effect == Stay
      && next.secret == r.secret
      && next.chances == Wrap32(r.chances - 1)
      && (r.chances > MIN ==> next.chances == r.chances - 1)
      && next.guess == ""
      && next.hint == HintText(r.secret, r.guess)
      && ValidRound(next)
  {
    DecrementReachesZeroOnlyFromOne(r.chances);
  }

  /** The button ignores an empty guess: no chance is used and the hint stays. */
  lemma EmptyCheckIsIgnored(r: Round)
    requires r.guess == ""
    ensures Submit(r, CheckButton) == (r, Toast(NO_NUMBER))
  {
  }

  /** The Done key treats an empty or unreadable guess as a wrong one. */
  lemma UnreadableDoneIsWrong(r: Round)
    requires ValidRound(r) && ParseInt(r.guess) == None
    ensures var (next, effect) := Submit(r, KeyboardDone);
      if r.chances == 1 then effect == Navigate(GameOver(false))
      else effect == Stay && next.chances == Wrap32(r.chances - 1)
  {
    DecrementReachesZeroOnlyFromOne(r.chances);
  }

  /** On a non-empty guess the two triggers do the same. */
  lemma TriggersAgreeOnNonEmpty(r: Round)
    requires r.guess != ""
    ensures Submit(r, CheckButton) == Submit(r, KeyboardDone)
  {
  }

  /** Where a sequence of guesses leaves the round. */
  datatype Progress =
    | Playing(round: Round)
    | Over(isWinner: bool, turn: nat)   // the popup, reached on guess number `turn`

  /** Typing each guess in turn and submitting it with `t`. */
  function Play(r: Round, t: Trigger, guesses: seq<string>): (p: Progress)
    ensures p.Over? ==> 1 <= p.turn <= |guesses|
    ensures p.Playing? ==> p.round.secret == r.secret
    ensures p.Playing? && ValidRound(r) ==> ValidRound(p.round)
    decreases |guesses|
  {
    if guesses == [] then Playing(r)
    else
      var (next, effect) := Submit(r.(guess := guesses[0]), t);
      if effect.Navigate? then Over(effect.to.isWinner, 1)
      else Shift(Play(next, t, guesses[1..]))
  }

  /** Every guess is wrong, and none is an empty press of the button. */
  ghost predicate AllWrong(secret: int, t: Trigger, guesses: seq<string>) {
    forall i :: 0 <= i < |guesses| ==>
      !Wins(secret, guesses[i]) && (t == CheckButton ==> guesses[i] != "")
  }

  /**
   * The wrong guess on which a round that starts with `c` chances is lost:
   * the `c`-th for positive `c`.  A non-positive `c` first has to wrap
   * around from `Int.MIN_VALUE` to `Int.MAX_VALUE` before it can count
   * down to 1.
   */
  function LossTurn(c: int): (n: int)
    requires IsInt32(c)
    ensures n >= 1 && (c >= 1 ==> n == c) && (c <= 0 ==> n > MAX)
  {
    if c >= 1 then c else c + MODULUS
  }

  lemma LossTurnStep(c: int)
    requires IsInt32(c) && c != 1
    ensures LossTurn(Wrap32(c - 1)) == LossTurn(c) - 1
  {
    if c == MIN {
      assert Wrap32(c - 1) == MAX;
    }
  }

  /**
   * Wrong guesses only: the round is lost on guess number `LossTurn` and
   * until then is still running with the counter decremented once per guess.
   */
  lemma WrongGuessesLoseOnTurn(r: Round, t: Trigger, guesses: seq<string>)
    requires ValidRound(r) && AllWrong(r.secret, t, guesses)
    ensures |guesses| < LossTurn(r.chances) ==>
      && Play(r, t, guesses).Playing?
      && Play(r, t, guesses).round.secret == r.secret
      && Play(r, t, guesses).round.chances == Countdown(r.chances, |guesses|)
    ensures |guesses| >= LossTurn(r.chances) ==>
      Play(r, t, guesses) == Over(false, LossTurn(r.chances))
  {
    if |guesses| < LossTurn(r.chances) {
      WrongGuessesKeepPlaying(r, t, guesses);
    } else {
      WrongGuessesLose(r, t, guesses);
    }
  }

  lemma {:induction false} WrongGuessesKeepPlaying(r: Round, t: Trigger, guesses: seq<string>)
    requires ValidRound(r) && AllWrong(r.secret, t, guesses)
    requires |guesses| < LossTurn(r.chances)
    ensures Play(r, t, guesses).Playing?
    ensures Play(r, t, guesses).round.secret == r.secret
    ensures Play(r, t, guesses).round.chances == Countdown(r.chances, |guesses|)
    decreases |guesses|
  {
    if guesses != [] {
      var rest := guesses[1..];
      var next := PlayWrongStep(r, t, guesses);
      DecrementValue(r.chances);
      LossTurnStep(r.chances);
      AllWrongRest(r.secret, t, guesses);
      WrongGuessesKeepPlaying(next, t, rest);
    }
  }

  /**
   * The counter after `k` wrapping decrements from `c`, for fewer than
   * `LossTurn(c)` of them: at most one wrap, from `Int.MIN_VALUE` to `Int.MAX_VALUE`.
   */
  function Countdown(c: int, k: int): (n: int)
    requires IsInt32(c) && 0 <= k < LossTurn(c)
    ensures n == Wrap32(c - k)
  {
    if c - k >= MIN then
      c - k
    else
      ModuloDropsMultiple(c - k - MIN + MODULUS, 1);
      c - k + MODULUS
  }

  lemma DecrementValue(c: int)
    requires IsInt32(c)
    ensures Wrap32(c - 1) == if c == MIN then MAX else c - 1
  {
  }

  lemma {:induction false} WrongGuessesLose(r: Round, t: Trigger, guesses: seq<string>)
    requires ValidRound(r) && AllWrong(r.secret, t, guesses)
    requires |guesses| >= LossTurn(r.chances)
    ensures Play(r, t, guesses) == Over(false, LossTurn(r.chances))
    decreases |guesses|
  {
    var next := PlayWrongStep(r, t, guesses);
    if r.chances != 1 {
      LossTurnStep(r.chances);
      AllWrongRest(r.secret, t, guesses);
      WrongGuessesLose(next, t, guesses[1..]);
    }
  }

  lemma AllWrongRest(secret: int, t: Trigger, guesses: seq<string>)
    requires guesses != [] && AllWrong(secret, t, guesses)
    ensures AllWrong(secret, t, guesses[1..])
  {
    var rest := guesses[1..];
    forall i | 0 <= i < |rest| ensures rest[i] == guesses[i + 1] { }
  }

  /** The first of a run of wrong guesses: lost on the last chance, otherwise one chance fewer. */
  lemma PlayWrongStep(r: Round, t: Trigger, guesses: seq<string>) returns (next: Round)
    requires ValidRound(r) && guesses != []
    requires !Wins(r.secret, guesses[0]) && (t == CheckButton ==> guesses[0] != "")
    ensures r.chances == 1 ==> Play(r, t, guesses) == Over(false, 1)
    ensures r.chances != 1 ==>
      && Play(r, t, guesses) == Shift(Play(next, t, guesses[1..]))
      && (Play(next, t, guesses[1..]).Playing? ==> Play(r, t, guesses) == Play(next, t, guesses[1..]))
      && next.secret == r.secret && next.chances == Wrap32(r.chances - 1)
      && ValidRound(next)
  {
    var typed := r.(guess := guesses[0]);
    if r.chances == 1 {
      LastWrongGuessLoses(typed, t);
      next := r;
    } else {
      WrongGuessCostsOneChance(typed, t);
      next := Submit(typed, t).0;
    }
  }

  /** One more guess in front: a finished round finishes one turn later. */
  function Shift(p: Progress): (q: Progress)
    ensures p.Playing? ==> q == p
    ensures p.Over? ==> q == Over(p.isWinner, p.turn + 1)
  {
    match p
    case Playing(x) => Playing(x)
    case Over(w, k) => Over(w, k + 1)
  }

  /** Starting with `c >= 1` chances, the `c`-th wrong guess loses, and no earlier one. */
  lemma LosesOnExactlyTheLastChance(r: Round, t: Trigger, guesses: seq<string>)
    requires ValidRound(r) && r.chances >= 1 && AllWrong(r.secret, t, guesses)
    ensures |guesses| < r.chances ==>
      && Play(r, t, guesses).Playing?
      && Play(r, t, guesses).round.chances == r.chances - |guesses|
    ensures |guesses| >= r.chances ==> Play(r, t, guesses) == Over(false, r.chances)
  {
    WrongGuessesLoseOnTurn(r, t, guesses);
  }

  /**
   * Starting with `c <= 0` chances, `chances - 1 == 0` cannot hold until the
   * counter has wrapped around: the first 2^31 - 1 wrong guesses never end the round.
   */
  lemma NonPositiveChancesOutlastIntRange(r: Round, t: Trigger, guesses: seq<string>)
    requires ValidRound(r) && r.chances <= 0 && AllWrong(r.secret, t, guesses)
    requires |guesses| <= MAX
    ensures Play(r, t, guesses).Playing?
  {
    WrongGuessesLoseOnTurn(r, t, guesses);
  }


  /** A correct guess after wrong ones wins on its own turn, as long as chances remain. */
  lemma {:induction false} WinAfterWrongGuesses(r: Round, t: Trigger, guesses: seq<string>, winning: string)
    requires ValidRound(r) && AllWrong(r.secret, t, guesses)
    requires |guesses| < LossTurn(r.chances)
    requires Wins(r.secret, winning)
    ensures Play(r, t, guesses + [winning]) == Over(true, |guesses| + 1)
    decreases |guesses|
  {
    var all := guesses + [winning];
    if guesses == [] {
      CorrectGuessWins(r.(guess := winning), t);
    } else {
      var rest := guesses[1..];
      assert all[0] == guesses[0] && all[1..] == rest + [winning];
      assert r.chances != 1;
      var next := PlayWrongStep(r, t, all);
      LossTurnStep(r.chances);
      AllWrongRest(r.secret, t, guesses);
      WinAfterWrongGuesses(next, t, rest, winning);
      assert Play(next, t, rest + [winning]) == Over(true, |rest| + 1);
      assert Play(r, t, all) == Shift(Over(true, |rest| + 1));
    }
  }

  /** Secret 50 and two chances: "10" is wrong (hint "Low"), then "50" wins on turn 2. */
  lemma WinOnSecondGuessScenario()
    ensures Play(NewRound(50, 2), KeyboardDone, ["10"]).Playing?
    ensures Play(NewRound(50, 2), KeyboardDone, ["10"]).round == Round(50, 1, "", LOW)
    ensures Play(NewRound(50, 2), KeyboardDone, ["10", "50"]) == Over(true, 2)
  {
    assert IntToString(10) == "10" && IntToString(50) == "50";
    ParseIntToString(10);
    ParseIntToString(50);
    assert HintText(50, "10") == LOW;
    assert ["10", "50"][1..] == ["50"];
  }

  /** Secret 7 and a single chance: the wrong guess "3" loses at once, with no hint. */
  lemma LoseWithOneChanceScenario()
    ensures Play(NewRound(7, 1), KeyboardDone, ["3"]) == Over(false, 1)
  {
    assert IntToString(3) == "3";
    ParseIntToString(3);
  }
}
