/** Cards: their faces, their reveal flags and the two texts a player can be shown. */
module Cards {

  /** EMPTY is the colour of the card that an exhausted deck deals. */
  datatype Colour = RED | BLUE | GREEN | YELLOW | WHITE | EMPTY

  const NUM_COLOURS := 5

  /** The enumerator's value. Value 5 is the count of colours, so EMPTY is 6 and has no table stack. */
  function Index(c: Colour): nat {
    match c
    case RED => 0
    case BLUE => 1
    case GREEN => 2
    case YELLOW => 3
    case WHITE => 4
    case EMPTY => 6
  }

  function ColourAt(i: nat): (c: Colour)
    requires i < NUM_COLOURS
    ensures c != EMPTY && Index(c) == i
  {
    if i == 0 then RED else if i == 1 then BLUE else if i == 2 then GREEN else if i == 3 then YELLOW else WHITE
  }

  /** What is printed on a card: the part of it that play never changes. */
  datatype Face = Face(number: int, colour: Colour)

  const EMPTY_FACE := Face(0, EMPTY)

  datatype Card = Card(number: int, colour: Colour, colourRevealed: bool, numberRevealed: bool) {
    function GetFace(): Face {
      Face(number, colour)
    }

    /** A card with a printed colour and a number from 1 to 5. */
    predicate IsPrinted() {
      colour != EMPTY && 1 <= number <= 5
    }

    predicate IsFresh() {
      IsPrinted() && !colourRevealed && !numberRevealed
    }

    function FullRepr(): string {
      var colourStr := ColourString(colour);
      var numberStr := IntToString(number);
      if colourRevealed && numberRevealed then "Card([" + colourStr + ", " + numberStr + "])"
      else if colourRevealed then "Card([" + colourStr + "], ?" + numberStr + "?)"
      else if numberRevealed then "Card(?" + colourStr + "?, [" + numberStr + "])"
      else "Card(?" + colourStr + ", " + numberStr + "?)"
    }

    function HiddenRepr(): string {
      var colourStr := ColourString(colour);
      var numberStr := IntToString(number);
      if colourRevealed && numberRevealed then "Card([" + colourStr + ", " + numberStr + "])"
      else if colourRevealed then "Card([" + colourStr + "], ??)"
      else if numberRevealed then "Card(??, [" + numberStr + "])"
      else "Card(??, ??)"
    }
  }

  const EMPTY_CARD := Card(0, EMPTY, true, true)

  function NewCard(number: int, colour: Colour): Card {
    Card(number, colour, false, false)
  }

  // ----- Texts

  function ColourString(c: Colour): (s: string)
    ensures |s| == 6
  {
    match c
    case RED => "Red   "
    case BLUE => "Blue  "
    case GREEN => "Green "
    case YELLOW => "Yellow"
    case WHITE => "White "
    case EMPTY => "      "
  }

  function Digit(d: nat): char
    requires d < 10
  {
    (48 + d) as char
  }

  function NatToString(n: nat): (s: string)
    ensures |s| >= 1 && '0' <= s[0] <= '9'
  {
    if n < 10 then [Digit(n)] else NatToString(n / 10) + [Digit(n % 10)]
  }

  function IntToString(n: int): string {
    if n < 0 then "-" + NatToString(-n) else NatToString(n)
  }

  /** The number that a text of decimal digits stands for. */
  function Value(s: string): int {
    if s == "" then 0 else 10 * Value(s[..|s| - 1]) + (s[|s| - 1] as int - '0' as int)
  }

  /** The text of a number is its decimal form without leading zeros. */
  lemma {:induction false} NatToStringIsDecimal(n: nat)
    ensures forall i :: 0 <= i < |NatToString(n)| ==> '0' <= NatToString(n)[i] <= '9'
    ensures Value(NatToString(n)) == n
    ensures n > 0 ==> NatToString(n)[0] != '0'
  {
    if n < 10 {
      assert [Digit(n)][..0] == "";
    } else {
      NatToStringIsDecimal(n / 10);
      var s := NatToString(n);
      assert s[..|s| - 1] == NatToString(n / 10);
    }
  }

  lemma {:induction false} NatToStringInjective(m: nat, n: nat)
    requires NatToString(m) == NatToString(n)
    ensures m == n
    decreases m
  {
    var s, t := NatToString(m), NatToString(n);
    assert s[|s| - 1] == Digit(m % 10) && t[|t| - 1] == Digit(n % 10);
    if m >= 10 && n >= 10 {
      assert NatToString(m / 10) == s[..|s| - 1] && NatToString(n / 10) == t[..|t| - 1];
      NatToStringInjective(m / 10, n / 10);
    }
  }

  lemma IntToStringInjective(m: int, n: int)
    requires IntToString(m) == IntToString(n)
    ensures m == n
  {
    var s, t := IntToString(m), IntToString(n);
    if m < 0 && n < 0 {
      assert s[1..] == NatToString(-m) && t[1..] == NatToString(-n);
      NatToStringInjective(-m, -n);
    } else if m >= 0 && n >= 0 {
      NatToStringInjective(m, n);
    }
  }

  /** Two equal texts with fields of equal length after equal beginnings agree on the field and on the tail. */
  lemma SplitTexts(left: string, a: string, b: string, c: string, d: string)
    requires left + a + c == left + b + d
    requires |a| == |b| || |c| == |d|
    ensures a == b && c == d
  {
    var s, t := left + a + c, left + b + d;
    assert |a| == |b| && |c| == |d|;
    assert s[|left|..|left| + |a|] == a && t[|left|..|left| + |b|] == b;
    assert s[|left| + |a|..] == c && t[|left| + |b|..] == d;
  }

  lemma ColourStringInjective(a: Colour, b: Colour)
    requires ColourString(a) == ColourString(b)
    ensures a == b
  {
    assert ColourString(a)[0] == ColourString(b)[0];
  }

  /** A text that shows both components between fixed delimiters determines both of them. */
  lemma BothShown(c: Colour, m: int, d: Colour, n: int, left: string, mid: string, right: string)
    requires left + ColourString(c) + mid + IntToString(m) + right
             == left + ColourString(d) + mid + IntToString(n) + right
    ensures c == d && m == n
  {
    var x, y := ColourString(c), ColourString(d);
    var p, q := IntToString(m), IntToString(n);
    assert left + x + (mid + p + right) == left + x + mid + p + right;
    assert left + y + (mid + q + right) == left + y + mid + q + right;
    SplitTexts(left, x, y, mid + p + right, mid + q + right);
    ColourStringInjective(c, d);
    SplitTexts(mid, p, q, right, right);
    IntToStringInjective(m, n);
  }

  lemma NumberShown(m: int, n: int, left: string, right: string)
    requires left + IntToString(m) + right == left + IntToString(n) + right
    ensures m == n
  {
    SplitTexts(left, IntToString(m), IntToString(n), right, right);
    IntToStringInjective(m, n);
  }

  /** The fixed characters that tell the four layouts of the full text apart. */
  lemma FullReprMarks(a: Card)
    ensures |a.FullRepr()| >= 13
    ensures a.FullRepr()[5] == if a.colourRevealed then '[' else '?'
    ensures a.FullRepr()[12] == if a.colourRevealed == a.numberRevealed then ','
                                else if a.colourRevealed then ']' else '?'
  {
    var c, n := ColourString(a.colour), IntToString(a.number);
    assert ("Card([" + c)[5] == '[' && ("Card(?" + c)[5] == '?';
  }

  /** The full text identifies colour, number and both flags, for every integer. */
  lemma FullReprInjective(a: Card, b: Card)
    requires a.FullRepr() == b.FullRepr()
    ensures a == b
  {
    FullReprMarks(a);
    FullReprMarks(b);
    assert a.colourRevealed == b.colourRevealed && a.numberRevealed == b.numberRevealed;
    if a.colourRevealed && a.numberRevealed {
      BothShown(a.colour, a.number, b.colour, b.number, "Card([", ", ", "])");
    } else if a.colourRevealed {
      BothShown(a.colour, a.number, b.colour, b.number, "Card([", "], ?", "?)");
    } else if a.numberRevealed {
      BothShown(a.colour, a.number, b.colour, b.number, "Card(?", "?, [", "])");
    } else {
      BothShown(a.colour, a.number, b.colour, b.number, "Card(?", ", ", "?)");
    }
  }

  /** Both flags agree, and so does every component that they reveal. */
  predicate SameToOwner(a: Card, b: Card) {
    && a.colourRevealed == b.colourRevealed
    && a.numberRevealed == b.numberRevealed
    && (a.colourRevealed ==> a.colour == b.colour)
    && (a.numberRevealed ==> a.number == b.number)
  }

  lemma HiddenReprMarks(a: Card)
    ensures |a.HiddenRepr()| >= 12
    ensures a.HiddenRepr()[5] == if a.colourRevealed then '[' else '?'
    ensures a.colourRevealed ==> |a.HiddenRepr()| >= 13 && a.HiddenRepr()[12] == if a.numberRevealed then ',' else ']'
    ensures !a.colourRevealed ==> a.HiddenRepr()[9] == if a.numberRevealed then '[' else '?'
  {
  }

  /** The owner's text shows the revealed facts, all of them and nothing else. */
  lemma HiddenReprShowsExactlyTheRevealed(a: Card, b: Card)
    ensures a.HiddenRepr() == b.HiddenRepr() <==> SameToOwner(a, b)
  {
    if a.HiddenRepr() == b.HiddenRepr() {
      HiddenReprMarks(a);
      HiddenReprMarks(b);
      assert a.colourRevealed == b.colourRevealed && a.numberRevealed == b.numberRevealed;
      if a.colourRevealed && a.numberRevealed {
        BothShown(a.colour, a.number, b.colour, b.number, "Card([", ", ", "])");
      } else if a.colourRevealed {
        SplitTexts("Card([", ColourString(a.colour), ColourString(b.colour), "], ??)", "], ??)");
        ColourStringInjective(a.colour, b.colour);
      } else if a.numberRevealed {
        NumberShown(a.number, b.number, "Card(??, [", "])");
      }
    }
  }

  /** What is shown of the colours. */
  lemma ColoursAsShown()
    ensures ColourString(RED) == "Red   " && ColourString(BLUE) == "Blue  " && ColourString(GREEN) == "Green "
    ensures ColourString(YELLOW) == "Yellow" && ColourString(WHITE) == "White " && ColourString(EMPTY) == "      "
  {
  }

  /** What is shown of a card in each of the ways in which it can be revealed. */
  lemma FullTextsAsShown()
    ensures Card(3, BLUE, true, true).FullRepr() == "Card([Blue  , 3])"
    ensures Card(3, BLUE, true, false).FullRepr() == "Card([Blue  ], ?3?)"
    ensures Card(3, BLUE, false, true).FullRepr() == "Card(?Blue  ?, [3])"
    ensures Card(3, BLUE, false, false).FullRepr() == "Card(?Blue  , 3?)"
  {
    assert IntToString(3) == "3";
  }

  lemma HiddenTextsAsShown()
    ensures Card(3, BLUE, true, true).HiddenRepr() == "Card([Blue  , 3])"
    ensures Card(3, BLUE, true, false).HiddenRepr() == "Card([Blue  ], ??)"
    ensures Card(3, BLUE, false, true).HiddenRepr() == "Card(??, [3])"
    ensures Card(3, BLUE, false, false).HiddenRepr() == "Card(??, ??)"
    ensures EMPTY_CARD.FullRepr() == EMPTY_CARD.HiddenRepr() == "Card([      , 0])"
  {
    assert IntToString(3) == "3" && IntToString(0) == "0";
  }
}
