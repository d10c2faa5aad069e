/**
 * The navigation host: which screen is showing, and the screen objects
 * whose remembered state the handlers change.
 */
module Navigation {
  import opened Int32Arith
  import Decimal
  import opened Routes
  import opened Guessing
  import opened Setup
  import opened Game

  class App {
    var route: Route
    var rules: RulesScreen
    var game: GameScreen?

    ghost predicate Valid()
      reads this, rules, game
    {
      && rules.Valid()
      && (game != null ==> game.Valid())
      && (route.Game? ==> game != null && IsInt32(route.chancesLeft))
    }

    /** The app opens on the rules screen with its defaults. */
    constructor ()
      ensures Valid() && fresh(rules)
      ensures route == Rules && game == null
      ensures rules.chances == DEFAULT_CHANCES && rules.chancesInput == "3"
    {
      route := Rules;
      rules := new RulesScreen();
      game := null;
    }

    method EditChances(text: string)
      requires Valid() && route == Rules
      modifies rules
      ensures Valid()
      ensures rules.chancesInput == text && rules.chances == ChancesFromText(text)
    {
      rules.EditText(text);
    }

    method PressShortcut(b: Shortcut)
      requires Valid() && route == Rules
      modifies rules
      ensures Valid()
      ensures rules.chances == Wrap32(old(rules.chances) + Amount(b))
      ensures rules.chancesInput == Decimal.IntToString(rules.chances)
    {
      rules.Press(b);
    }

    /**
     * "Start": navigate to the game screen carrying the chance count; the
     * new screen draws its secret (here: `drawn`) and starts its counter
     * from the route's argument.
     */
    method Start(drawn: int)
      requires Valid() && route == Rules && 1 <= drawn <= 100
      modifies this
      ensures Valid() && rules == old(rules)
      ensures route == Game(rules.chances)
      ensures game != null && fresh(game)
      ensures game.State() == NewRound(drawn, rules.chances)
    {
      route := rules.Start();
      game := new GameScreen(route.chancesLeft, drawn);
    }

    method EditGuess(text: string)
      requires Valid() && route.Game?
      modifies game
      ensures Valid()
      ensures game.State() == old(game.State()).(guess := text)
    {
      game.EditGuess(text);
    }

    /** Submitting the guess; a win or a loss opens the popup. */
    method SubmitGuess(t: Trigger) returns (effect: Effect)
      requires Valid() && route.Game?
      modifies this, game
      ensures Valid() && game == old(game) && rules == old(rules)
      ensures (game.State(), effect) == Submit(old(game.State()), t)
      ensures route == if effect.Navigate? then effect.to else old(route)
    {
      if t == KeyboardDone {
        effect := game.OnDone();
      } else {
        effect := game.OnCheckGuess();
      }
      if effect.Navigate? {
        route := effect.to;
      }
    }

    /** "Play Again": back to a fresh rules screen; the finished game is dropped. */
    method PlayAgain()
      requires Valid() && route.GameOver?
      modifies this
      ensures Valid() && fresh(rules)
      ensures route == Rules && game == null
      ensures rules.chances == DEFAULT_CHANCES && rules.chancesInput == "3"
    {
      rules := new RulesScreen();
      game := null;
      route := Rules;
    }
  }

  /**
   * A whole round through the app: two chances typed in, secret 50,
   * "10" then "50" by the Done key, then "Play Again".
   */
  method WinThenPlayAgain() returns (outcome: Route, restart: int)
    ensures outcome == GameOver(true) && restart == DEFAULT_CHANCES
  {
    Decimal.ParseIntToString(2);
    assert Decimal.IntToString(2) == "2";
    Decimal.ParseIntToString(10);
    assert Decimal.IntToString(10) == "10";
    Decimal.ParseIntToString(50);
    assert Decimal.IntToString(50) == "50";

    var app := new App();
    app.EditChances("2");
    assert app.rules.chances == 2;
    app.Start(50);
    app.EditGuess("10");
    assert app.game.State() == Round(50, 2, "10", FIRST_PROMPT);
    WrongGuessCostsOneChance(app.game.State(), KeyboardDone);
    var e1 := app.SubmitGuess(KeyboardDone);
    assert e1 == Stay && app.route == Game(2);
    app.EditGuess("50");
    CorrectGuessWins(app.game.State(), KeyboardDone);
    var e2 := app.SubmitGuess(KeyboardDone);
    outcome := app.route;
    app.PlayAgain();
    restart := app.rules.chances;
  }
}
