/**
 * The game screen: the remembered secret, chance counter, guess text and
 * hint text, and the handlers that change them.
 */
module Game {
  import opened Int32Arith
  import opened Hint
  import opened Routes
  import opened Guessing

  class GameScreen {
    var secret: int      // the random number, drawn once when the screen opens
    var chances: int
    var guess: string
    var hint: string     // the "High"/"Low" text above the input field

    ghost function State(): Round
      reads this
    {
      Round(secret, chances, guess, hint)
    }

    ghost predicate Valid()
      reads this
    {
      ValidRound(State())
    }

    /** Opening the screen with the route's chance count and a drawn secret. */
    constructor (chancesLeft: int, drawn: int)
      requires IsInt32(chancesLeft) && 1 <= drawn <= 100
      ensures Valid()
      ensures State() == NewRound(drawn, chancesLeft)
    {
      secret := drawn;
      chances := chancesLeft;
      guess := "";
      hint := FIRST_PROMPT;
    }

    /** Typing in the guess field. */
    method EditGuess(text: string)
      requires Valid()
      modifies this
      ensures Valid()
      ensures State() == old(State()).(guess := text)
    {
      guess := text;
    }

    /** The keyboard's Done key. */
    method OnDone() returns (effect: Effect)
      requires Valid()
      modifies this
      ensures Valid()
      ensures (State(), effect) == Submit(old(State()), KeyboardDone)
    {
      effect := Judge();
    }

    /** The "Check Guess" button: an empty guess only shows a notice. */
    method OnCheckGuess() returns (effect: Effect)
      requires Valid()
      modifies this
      ensures Valid()
      ensures (State(), effect) == Submit(old(State()), CheckButton)
    {
      if guess == "" {
        effect := Toast(NO_NUMBER);
      } else {
        effect := Judge();
      }
    }

    /** Win, lose, or take a chance and give a hint. */
    method Judge() returns (effect: Effect)
      requires Valid()
      modifies this
      ensures Valid()
      ensures (State(), effect) == Evaluate(old(State()))
    {
      if Wins(secret, guess) {
        effect := Navigate(GameOver(true));
      } else if Wrap32(chances - 1) == 0 {
        effect := Navigate(GameOver(false));
      } else {
        hint := HintText(secret, guess);
        chances := Wrap32(chances - 1);
        guess := "";
        effect := Stay;
      }
    }
  }
}
