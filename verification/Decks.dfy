/** The draw pile: 50 cards in a shuffled order, dealt from the front, then EMPTY cards for ever. */
module Decks {
  import opened Cards

  // ----- What a new deck holds

  /** The number of cards of each number, in every colour. */
  function Copies(number: int): nat {
    if number == 1 then 3 else if 2 <= number <= 4 then 2 else if number == 5 then 1 else 0
  }

  /** Two cards of each number from first up to, but not including, past. */
  function Pairs(first: int, past: int, colour: Colour): seq<Card>
    decreases past - first
  {
    if past <= first then []
    else Pairs(first, past - 1, colour) + [NewCard(past - 1, colour), NewCard(past - 1, colour)]
  }

  /** The ten cards of one colour, in the order in which they are pushed. */
  function ColourBlock(colour: Colour): seq<Card> {
    [NewCard(1, colour), NewCard(1, colour), NewCard(1, colour)] + Pairs(2, 5, colour) + [NewCard(5, colour)]
  }

  const TOTAL_CARDS := 50

  /** The number of cards of a face in the full set. */
  function CopiesOf(face: Face): nat {
    if face.colour == EMPTY then 0 else Copies(face.number)
  }

  /** The cards of the first n colours. */
  function Blocks(n: nat): seq<Card>
    requires n <= NUM_COLOURS
  {
    if n == 0 then [] else Blocks(n - 1) + ColourBlock(ColourAt(n - 1))
  }

  // ----- Counting cards

  /** What is counted: the cards with a face, copies of one card with its flags, or all but the EMPTY ones. */
  datatype Kind = OfFace(face: Face) | Exactly(card: Card) | NonEmpty

  function Weight(c: Card, kind: Kind): nat {
    match kind
    case OfFace(face) => if c.GetFace() == face then 1 else 0
    case Exactly(d) => if c == d then 1 else 0
    case NonEmpty => if c.colour == EMPTY then 0 else 1
  }

  /** How many cards of s are of a kind. */
  function Count(s: seq<Card>, kind: Kind): nat {
    if s == [] then 0 else Weight(s[0], kind) + Count(s[1..], kind)
  }

  lemma {:induction false} CountConcat(a: seq<Card>, b: seq<Card>, kind: Kind)
    ensures Count(a + b, kind) == Count(a, kind) + Count(b, kind)
  {
    if a == [] {
      assert a + b == b;
    } else {
      CountConcat(a[1..], b, kind);
      assert (a + b)[1..] == a[1..] + b;
    }
  }

  lemma CountAppend(a: seq<Card>, c: Card, kind: Kind)
    ensures Count(a + [c], kind) == Count(a, kind) + Weight(c, kind)
  {
    CountConcat(a, [c], kind);
  }

  lemma {:induction false} CountUpdate(s: seq<Card>, k: nat, c: Card, kind: Kind)
    requires k < |s|
    ensures Count(s[k := c], kind) + Weight(s[k], kind) == Count(s, kind) + Weight(c, kind)
  {
    if k == 0 {
      assert s[k := c][1..] == s[1..];
    } else {
      CountUpdate(s[1..], k - 1, c, kind);
      assert s[k := c][1..] == s[1..][k - 1 := c];
    }
  }

  lemma {:induction false} CountBound(s: seq<Card>, k: nat, kind: Kind)
    requires k < |s|
    ensures Weight(s[k], kind) <= Count(s, kind)
  {
    if k > 0 {
      CountBound(s[1..], k - 1, kind);
    }
  }

  // ----- The contents of every shuffled deck

  /** How often a card occurs in a new deck. */
  function NewDeckCopies(c: Card): nat {
    if c.IsFresh() then Copies(c.number) else 0
  }

  lemma {:induction false} PairsContents(first: int, past: int, colour: Colour, c: Card)
    requires first <= past
    ensures |Pairs(first, past, colour)| == 2 * (past - first)
    ensures Count(Pairs(first, past, colour), Exactly(c))
            == if c == NewCard(c.number, colour) && first <= c.number < past then 2 else 0
    decreases past - first
  {
    if first < past {
      PairsContents(first, past - 1, colour, c);
      var d := NewCard(past - 1, colour);
      CountConcat(Pairs(first, past - 1, colour), [d, d], Exactly(c));
      assert Count([d, d], Exactly(c)) == Weight(d, Exactly(c)) + Count([d], Exactly(c));
    }
  }

  lemma ColourBlockContents(colour: Colour, c: Card)
    requires colour != EMPTY
    ensures |ColourBlock(colour)| == 10
    ensures Count(ColourBlock(colour), Exactly(c)) == if c.colour == colour then NewDeckCopies(c) else 0
  {
    var one, pairs, five := NewCard(1, colour), Pairs(2, 5, colour), NewCard(5, colour);
    PairsContents(2, 5, colour, c);
    CountConcat([one, one, one] + pairs, [five], Exactly(c));
    CountConcat([one, one, one], pairs, Exactly(c));
    assert Count([one, one, one], Exactly(c)) == Weight(one, Exactly(c)) + Count([one, one], Exactly(c));
    assert Count([one, one], Exactly(c)) == Weight(one, Exactly(c)) + Count([one], Exactly(c));
  }

  lemma {:induction false} BlocksContents(n: nat, c: Card)
    requires n <= NUM_COLOURS
    ensures |Blocks(n)| == 10 * n
    ensures Count(Blocks(n), Exactly(c)) == if Index(c.colour) < n then NewDeckCopies(c) else 0
  {
    if n > 0 {
      var colour := ColourAt(n - 1);
      assert c.colour == colour <==> Index(c.colour) == n - 1;
      BlocksContents(n - 1, c);
      ColourBlockContents(colour, c);
      CountConcat(Blocks(n - 1), ColourBlock(colour), Exactly(c));
    }
  }

  /** The same cards, each equally often. */
  ghost predicate IsRearrangement(a: seq<Card>, b: seq<Card>) {
    |a| == |b| && forall c :: Count(a, Exactly(c)) == Count(b, Exactly(c))
  }

  /** A possible outcome of building and shuffling a deck. */
  ghost predicate IsShuffledDeck(cards: seq<Card>) {
    |cards| == TOTAL_CARDS && forall c :: Count(cards, Exactly(c)) == NewDeckCopies(c)
  }

  lemma {:induction false} CountOfFresh(s: seq<Card>, face: Face)
    requires forall c :: c in s ==> c.IsFresh()
    ensures Count(s, OfFace(face)) == Count(s, Exactly(NewCard(face.number, face.colour)))
  {
    if s != [] {
      assert s[0] in s;
      CountOfFresh(s[1..], face);
    }
  }

  lemma BlocksAreADeck(n: nat)
    requires n == NUM_COLOURS
    ensures IsShuffledDeck(Blocks(n))
  {
    forall c
      ensures |Blocks(n)| == TOTAL_CARDS && Count(Blocks(n), Exactly(c)) == NewDeckCopies(c)
    {
      BlocksContents(n, c);
    }
  }

  /** A deck in the order in which it was built: its fourth card is no 1. */
  lemma UnshuffledDeck(n: nat)
    requires n == NUM_COLOURS
    ensures IsShuffledDeck(Blocks(n)) && Blocks(n)[3] == NewCard(2, RED)
  {
    BlocksAreADeck(n);
    FirstBlock(n);
    assert Pairs(2, 5, RED) == Pairs(2, 4, RED) + [NewCard(4, RED), NewCard(4, RED)];
  }

  lemma {:induction false} FirstBlock(n: nat)
    requires 1 <= n <= NUM_COLOURS
    ensures ColourBlock(RED) <= Blocks(n)
  {
    if n > 1 {
      FirstBlock(n - 1);
    }
  }

  /** After any shuffle: 50 unrevealed cards; in each colour 3, 2, 2, 2 and 1 of the numbers 1 to 5. */
  lemma ShuffledDeckContents(cards: seq<Card>, face: Face)
    requires IsShuffledDeck(cards)
    ensures forall c :: c in cards ==> c.IsFresh()
    ensures Count(cards, OfFace(face)) == CopiesOf(face)
  {
    forall k | 0 <= k < |cards|
      ensures cards[k].IsFresh()
    {
      CountBound(cards, k, Exactly(cards[k]));
    }
    CountOfFresh(cards, face);
  }

  // ----- Drawing

  /** The card that a pile deals at a cursor position. */
  function CardAt(cards: seq<Card>, next: nat): Card {
    if next < |cards| then cards[next] else EMPTY_CARD
  }

  function Advance(cards: seq<Card>, next: nat): nat {
    if next < |cards| then next + 1 else next
  }

  /** The first n cards dealt from a cursor position. */
  function Draws(cards: seq<Card>, next: nat, n: nat): seq<Card>
    decreases n
  {
    if n == 0 then [] else [CardAt(cards, next)] + Draws(cards, Advance(cards, next), n - 1)
  }

  lemma {:induction false} DrawsAt(cards: seq<Card>, next: nat, n: nat, i: nat)
    requires i < n
    ensures |Draws(cards, next, n)| == n
    ensures Draws(cards, next, n)[i] == CardAt(cards, next + i)
    decreases n
  {
    if n == 1 {
      assert Draws(cards, Advance(cards, next), 0) == [];
    } else {
      DrawsAt(cards, Advance(cards, next), n - 1, if i == 0 then 0 else i - 1);
    }
  }

  /** However long the game, the draws are an arrangement of the full set followed by EMPTY cards only. */
  lemma DrawStream(cards: seq<Card>, n: nat, i: nat, face: Face)
    requires IsShuffledDeck(cards) && TOTAL_CARDS <= i < n
    ensures |Draws(cards, 0, n)| == n
    ensures Count(Draws(cards, 0, n)[..TOTAL_CARDS], OfFace(face)) == CopiesOf(face)
    ensures Draws(cards, 0, n)[i] == EMPTY_CARD
  {
    var d := Draws(cards, 0, n);
    ShuffledDeckContents(cards, face);
    forall j | 0 <= j < n
      ensures |d| == n && d[j] == CardAt(cards, j)
    {
      DrawsAt(cards, 0, n, j);
    }
    DrawsAt(cards, 0, n, 0);
    assert d[..TOTAL_CARDS] == cards;
  }

  // ----- The deck object

  class Deck {
    var cards: seq<Card>
    var nextCardIndex: nat
    var totalCards: nat

    ghost predicate Valid()
      reads this
    {
      totalCards == |cards|
    }

    /** A new deck; shuffled is what its random source makes of the 50 cards. */
    constructor (shuffled: seq<Card>)
      requires IsShuffledDeck(shuffled)
      ensures Valid() && nextCardIndex == 0 && cards == shuffled
    {
      cards := [];
      nextCardIndex := 0;
      totalCards := 0;
      new;
      for colNum := 0 to NUM_COLOURS
        invariant nextCardIndex == 0 && cards == Blocks(colNum)
      {
        PushColour(ColourAt(colNum));
      }
      BlocksAreADeck(NUM_COLOURS);
      totalCards := |cards|;
      assert IsRearrangement(shuffled, cards);
      Shuffle(shuffled);
    }

    /** The body of the constructor's outer loop. */
    method PushColour(colour: Colour)
      modifies this`cards
      ensures cards == old(cards) + ColourBlock(colour)
    {
      var one := NewCard(1, colour);
      ghost var before := cards;
      cards := cards + [one];
      cards := cards + [one];
      cards := cards + [one];
      assert cards == before + [one, one, one];
      for num := 2 to 5
        invariant cards == before + [one, one, one] + Pairs(2, num, colour)
      {
        ghost var pairs := Pairs(2, num, colour);
        cards := cards + [NewCard(num, colour)];
        cards := cards + [NewCard(num, colour)];
        assert Pairs(2, num + 1, colour) == pairs + [NewCard(num, colour), NewCard(num, colour)];
      }
      cards := cards + [NewCard(5, colour)];
      assert cards == before + ([one, one, one] + Pairs(2, 5, colour) + [NewCard(5, colour)]);
    }

    /** Puts the cards in the order that the random source picks. */
    method Shuffle(order: seq<Card>)
      requires Valid() && IsRearrangement(order, cards)
      modifies this`cards
      ensures Valid() && cards == order
    {
      cards := order;
    }

    method Draw() returns (c: Card)
      requires Valid()
      modifies this`nextCardIndex
      ensures Valid()
      ensures c == CardAt(cards, old(nextCardIndex)) && nextCardIndex == Advance(cards, old(nextCardIndex))
    {
      if nextCardIndex < totalCards {
        c := cards[nextCardIndex];
        nextCardIndex := nextCardIndex + 1;
        return;
      }
      c := EMPTY_CARD;
    }
  }
}
