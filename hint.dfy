/**
 * The hint shown after a wrong guess: the game compares the secret's
 * decimal text with the raw guess text as strings, not as numbers.
 */
module Hint {
  import opened Decimal
  import opened Lexicographic

  const HIGH: string := "Your Guess is High"
  const LOW: string := "Your Guess is Low"

  /** The hint for `guess` when the secret is `secret`. */
  function HintText(secret: int, guess: string): (h: string)
    ensures h == HIGH <==> LexLess(IntToString(secret), guess)
    ensures h == HIGH || h == LOW
  {
    if LexLess(IntToString(secret), guess) then HIGH else LOW
  }

  /** On digit strings of one length, string order is numeric order. */
  lemma {:induction false} DigitsOrderIsNumeric(a: string, b: string)
    requires |a| == |b| && IsDigits(a) && IsDigits(b)
    ensures LexLess(a, b) <==> Value(a) < Value(b)
    decreases |a|
  {
    if a != [] {
      var a', b' := a[..|a| - 1], b[..|b| - 1];
      var x, y := a[|a| - 1], b[|b| - 1];
      assert a == a' + [x] && b == b' + [y];
      LexLessAppend(a', b', x, y);
      DigitsOrderIsNumeric(a', b');
      DigitsOrderIsNumeric(b', a');
      if a' != b' {
        LexLessTotal(a', b');
      }
    }
  }

  /**
   * When the guess is typed as a plain non-negative numeral with as many
   * digits as the secret, the hint is numerically right: "High" exactly when
   * the guess exceeds the secret.
   */
  lemma HintIsNumericForSameWidth(secret: nat, n: nat)
    requires |NatToString(n)| == |NatToString(secret)|
    ensures HintText(secret, IntToString(n)) == HIGH <==> n > secret
  {
    DigitsOrderIsNumeric(NatToString(secret), NatToString(n));
  }

  /** With numerals of different widths it can be wrong both ways. */
  lemma HintIsNotNumeric()
    ensures HintText(80, "9") == HIGH  // 9 is below 80
    ensures HintText(9, "80") == LOW   // 80 is above 9
    ensures HintText(100, "99") == HIGH
  {
    assert IntToString(80) == "80";
    assert IntToString(9) == "9";
    assert IntToString(100) == "100";
  }
}
