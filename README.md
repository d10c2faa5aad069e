# Guess the Number: a Dafny model of the game logic

The Android app `guess-the-number-game` keeps all of its logic in one
Jetpack Compose file, and that file is nearly all layout. Inside the click and keyboard handlers sits a small game
with three screens:

- **Rules screen.** It keeps a chance count (default 3) and the text field
  that mirrors it. Typing sets the count to `text.toIntOrNull() ?: 0`. The
  buttons "+3", "+5", "+10" and "+15" add to the count and re-print the field.
  "Start" opens the game screen with the count.
- **Game screen.** It keeps a secret in 1..100, a chance counter, the guess
  text and a hint text. The keyboard's Done key and the "Check Guess" button
  run the same three-way decision on the guess:
  - a guess whose `toIntOrNull()` equals the secret wins;
  - otherwise, if `chances - 1 == 0`, the round is lost;
  - otherwise the hint is set, one chance is used and the guess is cleared.

  The button first rejects an empty guess with a "No number entered" notice.
  The hint compares the secret's decimal text with the raw guess text as
  strings.
- **Game-over popup.** It shows win or loss. "Play Again" returns to a fresh
  rules screen.

The model has these parts:

- Kotlin's `Int` arithmetic with 32-bit wrap-around (`Int32Arith`).
- `String.toIntOrNull()` and `Int.toString()` (`Decimal`).
- `String.compareTo` (`Lexicographic`).
- The hint (`Hint`).
- The navigation routes (`Routes`).
- A value model of one round, and of a whole sequence of guesses (`Guessing`).
- The two screens as classes whose methods update the remembered fields in
  place (`Setup.RulesScreen`, `Game.GameScreen`).
- The navigation host tying them together (`Navigation.App`).

The random draw of the secret is an input: `drawn` in `GameScreen`'s
constructor and in `App.Start`, with `1 <= drawn <= 100`.

Three behaviours of the code are easy to miss, and the model keeps them:

- The chance count is never checked. Zero or negative counts reach the game
  screen.
- The hint for secret 9 and guess "80" is "Low". That is numerically wrong.
- With Kotlin's wrapping `Int`, a round started with `C <= 0` chances is not
  endless. The counter wraps from `Int.MIN_VALUE` to `Int.MAX_VALUE`, and the
  round is lost on wrong guess number `C + 2^32`. Before wrong guess number
  2^31, such a round never ends.

## Model

All source paths are in `app/src/main/java/com/nandkishor/guesstheno/`; the
table gives them in full.

| member | source | states |
|---|---|---|
| Int32Arith.Wrap32 | app/src/main/java/com/nandkishor/guesstheno/MainActivity.kt:304 | the result of `Int` arithmetic is the one `Int` that differs from the exact value by a multiple of 2^32; it equals the exact value whenever that fits |
| Int32Arith.WrapAtTheEnds | app/src/main/java/com/nandkishor/guesstheno/MainActivity.kt:180-194 | overflow comes back in at the other end: `Int.MAX_VALUE + 1` is `Int.MIN_VALUE`, `Int.MAX_VALUE + 3` is `Int.MIN_VALUE + 2`, and `Int.MIN_VALUE - 1` is `Int.MAX_VALUE` |
| Int32Arith.DecrementReachesZeroOnlyFromOne | app/src/main/java/com/nandkishor/guesstheno/MainActivity.kt:300 | `chances - 1 == 0` in `Int` arithmetic holds exactly when `chances == 1`; the wrap at `Int.MIN_VALUE` does not produce 0 |
| Decimal.NatToString | app/src/main/java/com/nandkishor/guesstheno/MainActivity.kt:111 | `toString` of a non-negative number is a non-empty digit string without leading zeros whose value is the number |
| Decimal.IntToString | app/src/main/java/com/nandkishor/guesstheno/MainActivity.kt:111 | `Int.toString()` is the canonical numeral: a '-' for a negative number, then the digits of the magnitude with no leading zero ("0" for zero), whose value is the magnitude |
| Decimal.ParseInt | app/src/main/java/com/nandkishor/guesstheno/MainActivity.kt:163 | `toIntOrNull` returns only 32-bit values, and never for the empty text |
| Decimal.ParseIntToString | app/src/main/java/com/nandkishor/guesstheno/MainActivity.kt:180 | every `Int` printed with `toString` parses back to itself with `toIntOrNull` |
| Decimal.ParseIntNumeral | app/src/main/java/com/nandkishor/guesstheno/MainActivity.kt:163 | for every `Int` n, a text parses to n exactly when it is n's magnitude numeral after any number of '0's, with an optional '+' when n >= 0 and a '-' when n <= 0 (required for n < 0, optional for 0), in both directions |
| Decimal.OverflowGivesNull | app/src/main/java/com/nandkishor/guesstheno/MainActivity.kt:163 | a digit string whose value exceeds `Int.MAX_VALUE`, with or without a '+', gives null |
| Decimal.NegativeOverflowGivesNull | app/src/main/java/com/nandkishor/guesstheno/MainActivity.kt:163 | '-' followed by a digit string whose value exceeds 2^31 gives null |
| Decimal.ParseIntPositive | app/src/main/java/com/nandkishor/guesstheno/MainActivity.kt:298 | a text parses to a positive `Int` n exactly when it is n's numeral preceded by at most one '+' and any number of '0's (both directions) |
| Decimal.CanonicalNumeral | app/src/main/java/com/nandkishor/guesstheno/MainActivity.kt:163 | a digit string without a leading zero is the `toString` of its value |
| Decimal.ValueIgnoresLeadingZeros | app/src/main/java/com/nandkishor/guesstheno/MainActivity.kt:163 | leading '0's do not change the value `toIntOrNull` reads |
| Lexicographic.LexLessIff | app/src/main/java/com/nandkishor/guesstheno/MainActivity.kt:303 | string `<` holds exactly when the left string is a proper prefix of the right, or the strings first differ at a position where the left character is smaller (both directions) |
| Lexicographic.LexLess | app/src/main/java/com/nandkishor/guesstheno/MainActivity.kt:303 | string `<` (`compareTo < 0`) never holds between equal strings; `LexLessIff` gives its full meaning |
| Lexicographic.LexLessTransitive | app/src/main/java/com/nandkishor/guesstheno/MainActivity.kt:303 | string `<` is transitive |
| Lexicographic.LexLessTotal | app/src/main/java/com/nandkishor/guesstheno/MainActivity.kt:303 | of two different strings, one is less than the other |
| Hint.HintText | app/src/main/java/com/nandkishor/guesstheno/MainActivity.kt:303 | the hint is one of the two texts; it is "Your Guess is High" exactly when the secret's `toString()` sorts before the raw guess text |
| Hint.DigitsOrderIsNumeric | app/src/main/java/com/nandkishor/guesstheno/MainActivity.kt:329 | for digit strings of equal length, string order agrees with numeric order |
| Hint.HintIsNumericForSameWidth | app/src/main/java/com/nandkishor/guesstheno/MainActivity.kt:303 | for a guess typed as a plain numeral with as many digits as the secret, the hint says "High" exactly when the guess is larger |
| Hint.HintIsNotNumeric | app/src/main/java/com/nandkishor/guesstheno/MainActivity.kt:303 | for numerals of different widths the hint can be wrong: secret 80 with "9" gives "High", secret 9 with "80" gives "Low", secret 100 with "99" gives "High" |
| Guessing.NewRound | app/src/main/java/com/nandkishor/guesstheno/MainActivity.kt:279-280 | a game screen starts with the route's chance count, an empty guess and the prompt "Make your 1st guess!!" |
| Guessing.Wins | app/src/main/java/com/nandkishor/guesstheno/MainActivity.kt:298 | only a non-empty guess can equal the secret, and only an `Int` secret can be matched; `WinningTexts` lists the winning texts |
| Guessing.Evaluate | app/src/main/java/com/nandkishor/guesstheno/MainActivity.kt:298-305 | the shared decision never changes the secret; a win or loss leaves the whole state unchanged and leads only to the popup; a valid state stays valid |
| Guessing.Submit | app/src/main/java/com/nandkishor/guesstheno/MainActivity.kt:320-335 | as `Evaluate`, and a notice comes only from the "Check Guess" button |
| Guessing.CorrectGuessWins | app/src/main/java/com/nandkishor/guesstheno/MainActivity.kt:324-325 | a guess whose parse equals the secret wins on either trigger, whatever the chances left, and changes nothing |
| Guessing.WinningTexts | app/src/main/java/com/nandkishor/guesstheno/MainActivity.kt:298 | the winning texts are exactly the secret's numeral with an optional '+' and any leading zeros ("050", "+50" win for 50) |
| Guessing.LastWrongGuessLoses | app/src/main/java/com/nandkishor/guesstheno/MainActivity.kt:300-301 | a wrong guess with one chance left loses and leaves chances, guess and hint unchanged |
| Guessing.WrongGuessCostsOneChance | app/src/main/java/com/nandkishor/guesstheno/MainActivity.kt:302-305 | any other wrong guess keeps the secret, lowers `chances` by exactly one (wrapping at `Int.MIN_VALUE`), clears the guess and sets the hint for the old guess text |
| Guessing.EmptyCheckIsIgnored | app/src/main/java/com/nandkishor/guesstheno/MainActivity.kt:321-322 | "Check Guess" on an empty guess only shows "No number entered"; no chance is used and the hint stays |
| Guessing.UnreadableDoneIsWrong | app/src/main/java/com/nandkishor/guesstheno/MainActivity.kt:297-305 | the Done key treats an empty or unparsable guess as wrong: it loses on the last chance and otherwise uses a chance |
| Guessing.TriggersAgreeOnNonEmpty | app/src/main/java/com/nandkishor/guesstheno/MainActivity.kt:323-334 | on a non-empty guess, "Check Guess" does exactly what the Done key does |
| Guessing.Play | app/src/main/java/com/nandkishor/guesstheno/MainActivity.kt:297-308 | a sequence of guesses ends, if at all, on one of its own turns; a running round keeps its secret and stays valid |
| Guessing.LossTurn | app/src/main/java/com/nandkishor/guesstheno/MainActivity.kt:300-304 | the losing turn is `C` for `C >= 1` chances and beyond `Int.MAX_VALUE` for `C <= 0` |
| Guessing.Countdown | app/src/main/java/com/nandkishor/guesstheno/MainActivity.kt:304 | before the losing turn, the counter after k wrapping `chances--` steps from C is the wrapped value of C - k |
| Guessing.DecrementValue | app/src/main/java/com/nandkishor/guesstheno/MainActivity.kt:304 | `chances--` lowers the counter by one, except that `Int.MIN_VALUE` wraps to `Int.MAX_VALUE` |
| Guessing.LossTurnStep | app/src/main/java/com/nandkishor/guesstheno/MainActivity.kt:304 | one wrong guess brings the losing turn one step closer |
| Guessing.WrongGuessesLoseOnTurn | app/src/main/java/com/nandkishor/guesstheno/MainActivity.kt:297-308 | with only wrong guesses, the round is lost on guess number `LossTurn(C)` and not before; until then it runs with `Countdown(C, k)` chances after k guesses |
| Guessing.WrongGuessesKeepPlaying | app/src/main/java/com/nandkishor/guesstheno/MainActivity.kt:302-305 | fewer wrong guesses than `LossTurn(C)` leave the round running with the secret kept and the counter lowered once per guess |
| Guessing.WrongGuessesLose | app/src/main/java/com/nandkishor/guesstheno/MainActivity.kt:300-301 | at least `LossTurn(C)` wrong guesses end the round lost exactly on turn `LossTurn(C)` |
| Guessing.LosesOnExactlyTheLastChance | app/src/main/java/com/nandkishor/guesstheno/MainActivity.kt:218 | starting with `C >= 1` chances, the C-th wrong guess loses and every earlier one leaves `C - k` chances |
| Guessing.NonPositiveChancesOutlastIntRange | app/src/main/java/com/nandkishor/guesstheno/MainActivity.kt:201 | starting with `C <= 0` chances, the first 2^31 - 1 wrong guesses never end the round |
| Guessing.WinAfterWrongGuesses | app/src/main/java/com/nandkishor/guesstheno/MainActivity.kt:298-299 | a correct guess after k wrong ones, with chances remaining, wins on turn k + 1 |
| Guessing.WinOnSecondGuessScenario | app/src/main/java/com/nandkishor/guesstheno/MainActivity.kt:297-308 | secret 50 and 2 chances: "10" leaves 1 chance and "Your Guess is Low"; then "50" wins on turn 2 |
| Guessing.LoseWithOneChanceScenario | app/src/main/java/com/nandkishor/guesstheno/MainActivity.kt:300-301 | secret 7 and 1 chance: "3" loses on turn 1 |
| Setup.Amount | app/src/main/java/com/nandkishor/guesstheno/MainActivity.kt:180-194 | every shortcut adds a positive amount of at most 15 (the buttons add 3, 5, 10 and 15) |
| Setup.ChancesFromText | app/src/main/java/com/nandkishor/guesstheno/MainActivity.kt:163 | the typed text sets an `Int` count: its parse when it parses, and a non-zero count only from a text that parses to it |
| Setup.ChancesFromTextNumeral | app/src/main/java/com/nandkishor/guesstheno/MainActivity.kt:163 | a text sets a non-zero count n exactly when it is one of n's numeral texts (sign rule, leading zeros), both directions |
| Setup.ChancesFromTextExamples | app/src/main/java/com/nandkishor/guesstheno/MainActivity.kt:163 | typing "abc", "", "-0" or an out-of-range numeral such as "2147483648" sets 0 chances; typing "12" sets 12 and "-05" sets -5 |
| Setup.TextMirrorsCount | app/src/main/java/com/nandkishor/guesstheno/MainActivity.kt:180 | the re-printed field reads back as the count |
| Setup.RulesScreen.constructor | app/src/main/java/com/nandkishor/guesstheno/MainActivity.kt:110-111 | the rules screen starts with 3 chances and the text "3", with the invariant that the field reads back as the count |
| Setup.RulesScreen.EditText | app/src/main/java/com/nandkishor/guesstheno/MainActivity.kt:161-164 | typing keeps the text and sets the count to its parse, or 0; the invariant holds |
| Setup.RulesScreen.Press | app/src/main/java/com/nandkishor/guesstheno/MainActivity.kt:180-194 | a "+N" button adds N in `Int` arithmetic and re-prints the field as `chances.toString()`; the invariant holds |
| Setup.RulesScreen.Start | app/src/main/java/com/nandkishor/guesstheno/MainActivity.kt:199-201 | "Start" opens the game route carrying the current count, unchecked |
| Setup.PressPlusThreeTwice | app/src/main/java/com/nandkishor/guesstheno/MainActivity.kt:180 | from the default, "+3" twice gives 9 chances and the text "9" |
| Game.GameScreen.constructor | app/src/main/java/com/nandkishor/guesstheno/MainActivity.kt:217-218 | the game screen keeps the drawn secret and the route's chance count, with an empty guess and the first prompt |
| Game.GameScreen.EditGuess | app/src/main/java/com/nandkishor/guesstheno/MainActivity.kt:294 | typing replaces the guess text and nothing else |
| Game.GameScreen.OnDone | app/src/main/java/com/nandkishor/guesstheno/MainActivity.kt:297-308 | the Done key changes the state and navigates exactly as `Submit` with the keyboard trigger |
| Game.GameScreen.OnCheckGuess | app/src/main/java/com/nandkishor/guesstheno/MainActivity.kt:320-335 | "Check Guess" changes the state and navigates or shows the notice exactly as `Submit` with the button trigger |
| Game.GameScreen.Judge | app/src/main/java/com/nandkishor/guesstheno/MainActivity.kt:298-305 | the shared three-way decision updates the fields exactly as `Evaluate` |
| Navigation.App.constructor | app/src/main/java/com/nandkishor/guesstheno/MainActivity.kt:90-95 | the app starts on the rules screen with 3 chances and the text "3" |
| Navigation.App.EditChances | app/src/main/java/com/nandkishor/guesstheno/MainActivity.kt:161-164 | typing on the rules screen sets the count to the text's parse, or 0 |
| Navigation.App.PressShortcut | app/src/main/java/com/nandkishor/guesstheno/MainActivity.kt:180-194 | a "+N" button on the rules screen adds N in `Int` arithmetic and re-prints the field as `chances.toString()` |
| Navigation.App.Start | app/src/main/java/com/nandkishor/guesstheno/MainActivity.kt:97-99 | "Start" shows the game route with the current count; a fresh game screen starts from that count and the drawn secret |
| Navigation.App.EditGuess | app/src/main/java/com/nandkishor/guesstheno/MainActivity.kt:294 | typing on the game screen replaces only the guess |
| Navigation.App.SubmitGuess | app/src/main/java/com/nandkishor/guesstheno/MainActivity.kt:297-335 | either trigger updates the game as `Submit` does; the route becomes the popup exactly when the handler navigates |
| Navigation.App.PlayAgain | app/src/main/java/com/nandkishor/guesstheno/MainActivity.kt:375-379 | "Play Again" returns to a fresh rules screen with 3 chances and drops the finished game |
| Navigation.WinThenPlayAgain | app/src/main/java/com/nandkishor/guesstheno/MainActivity.kt:376-378 | typing "2" chances, secret 50, guesses "10" then "50": the popup shows a win, and "Play Again" restores 3 chances |

## Left out

- Compose layout, theming, images, text styles, padding and the previews
  (lines 57-69, 113-158, 219-229, 231-278, 281-293, 295-296, 309-318,
  336-347, 353-373, 380-416). They are presentation with no game logic.
- `Random.nextInt(1, 101)` (line 217). The secret is a parameter with
  `1 <= drawn <= 100`. Uniformity, and a new secret on each round, are
  properties of the random generator and are not modelled.
- `Toast.makeText(...).show()` (line 322). It appears only as the effect
  `Toast("No number entered")`, with no change of state.
- The "Exit" button, `navController.popBackStack()` (line 230). What the
  rules screen shows after popping depends on how the navigation library
  keeps a popped-to entry's remembered state.
- The system back button and the rest of the back stack below the popup.
  They are navigation library behaviour. Navigation is modelled only as the
  current route, and `popUpTo(RulesScreen) { inclusive = true }` only as
  "start a fresh rules screen and drop the game".
- The `KeyboardActions { defaultKeyboardAction(ImeAction.Done) }` objects
  (lines 167, 306, 332). Line 167 sets the rules field's Done action, which
  only runs the keyboard's default action. Lines 306 and 332 build an object
  and discard it. None of them changes the game state.
- Compose recomposition. The model treats each `remember`ed variable as a
  field that lives as long as its screen object.
- Decimal.ParseInt: treats only ASCII '0'..'9' as digits. On the JVM,
  `toIntOrNull` also accepts the other Unicode decimal digits, because it
  uses `Character.digit`.
- Lexicographic.LexLess: compares Dafny characters (Unicode scalar values),
  not UTF-16 code units. The two orders agree whenever one of the strings is
  ASCII. The hint always compares against the secret's ASCII numeral, so the
  hint is unaffected.
