/**
 * The rules screen: a chance count and the text field that mirrors it,
 * edited by typing or by four "+N" buttons, and the "Start" button.
 */
module Setup {
  import opened Wrappers
  import opened Int32Arith
  import opened Decimal
  import opened Routes

  const DEFAULT_CHANCES: int := 3

  /** The four buttons that raise the chance count. */
  datatype Shortcut = PlusThree | PlusFive | PlusTen | PlusFifteen

  /** What a button adds: a positive number, at most fifteen. */
  function Amount(b: Shortcut): (a: int)
    ensures 0 < a <= 15
  {
    match b
    case PlusThree => 3
    case PlusFive => 5
    case PlusTen => 10
    case PlusFifteen => 15
  }

  /** `text.toIntOrNull() ?: 0`: the chance count a typed text sets. */
  function ChancesFromText(text: string): (n: int)
    ensures IsInt32(n)
    ensures n != 0 ==> ParseInt(text) == Some(n)
    ensures ParseInt(text).Some? ==> n == ParseInt(text).value
  {
    match ParseInt(text)
    case Some(v) => v
    case None => 0
  }

  /**
   * Unreadable or out-of-range text sets zero chances; readable text sets
   * its value, signs and leading zeros included.
   */
  lemma ChancesFromTextExamples()
    ensures ChancesFromText("abc") == 0
    ensures ChancesFromText("") == 0
    ensures ChancesFromText("12") == 12
    ensures ChancesFromText("-05") == -5
    ensures ChancesFromText("-0") == 0
    ensures ChancesFromText(NatToString(MAX + 1)) == 0
  {
    assert IntToString(12) == "12";
    ParseIntToString(12);
    assert NatToString(5) == "5" && "-05"[1..] == "05";
    ParseIntNumeral("-05", -5);
    OverflowGivesNull(NatToString(MAX + 1));
  }

  /** The texts that set a given non-zero count are exactly its numeral texts ("+012", "007"). */
  lemma ChancesFromTextNumeral(text: string, n: int)
    requires IsInt32(n) && n != 0
    ensures ChancesFromText(text) == n <==> IsNumeralText(text, n)
  {
    ParseIntNumeral(text, n);
  }

  /** Every count survives being shown in the text field and read back. */
  lemma {:induction false} TextMirrorsCount(c: int)
    requires IsInt32(c)
    ensures ChancesFromText(IntToString(c)) == c
  {
    ParseIntToString(c);
  }

  class RulesScreen {
    var chances: int
    var chancesInput: string

    /** The count is an `Int`, and the field always reads back as the count. */
    ghost predicate Valid()
      reads this
    {
      IsInt32(chances) && ChancesFromText(chancesInput) == chances
    }

    constructor ()
      ensures Valid()
      ensures chances == DEFAULT_CHANCES && chancesInput == "3"
    {
      chances := DEFAULT_CHANCES;
      chancesInput := IntToString(DEFAULT_CHANCES);
      TextMirrorsCount(DEFAULT_CHANCES);
    }

    /** Typing in the field: keep the text, take its value or zero. */
    method EditText(text: string)
      modifies this
      ensures Valid()
      ensures chancesInput == text && chances == ChancesFromText(text)
    {
      chancesInput := text;
      chances := ChancesFromText(text);
    }

    /** A "+N" button: add N in `Int` arithmetic and re-print the field. */
    method Press(b: Shortcut)
      requires Valid()
      modifies this
      ensures Valid()
      ensures chances == Wrap32(old(chances) + Amount(b))
      ensures chancesInput == IntToString(chances)
    {
      chances := Wrap32(chances + Amount(b));
      chancesInput := IntToString(chances);
      TextMirrorsCount(chances);
    }

    /** "Start": open the game screen with the current count, unchecked. */
    method Start() returns (route: Route)
      requires Valid()
      ensures route == Game(chances) && IsInt32(route.chancesLeft)
    {
      route := Game(chances);
    }
  }

  /** From the default 3, pressing "+3" twice gives 9 and the field shows "9". */
  method PressPlusThreeTwice() returns (chances: int, shown: string)
    ensures chances == 9 && shown == "9"
  {
    var screen := new RulesScreen();
    screen.Press(PlusThree);
    screen.Press(PlusThree);
    chances, shown := screen.chances, screen.chancesInput;
  }
}
