/** The card value model of the poker engine: suits, cards, their total order,
    the two deck generators, and a player's hand of two hole cards. Suits, cards
    and hands are immutable values. */
module Cards {

  /** Number of entries in the suit-name table (Clubs, Diamonds, Hearts, Spades). */
  const SuitCount: int := 4

  /** Number of entries in the face table: two placeholders for 0 and 1, then the
      faces of 2 through 10, J, Q, K and A. Card values must index a real face. */
  const FaceCount: int := 15

  /** A suit index accepted by the suit constructor. */
  type SuitIndex = i: int | 0 <= i < SuitCount

  /** A card value accepted by the card constructor (11 = J, 12 = Q, 13 = K, 14 = A). */
  type Rank = v: int | 1 < v < FaceCount witness 2

  /** Which constructor assertion rejected its argument. */
  datatype CardError = SuitOutOfRange | ValueTooLow | ValueTooHigh

  datatype Result<T> = Ok(value: T) | Err(error: CardError)

  datatype Suit = Suit(index: SuitIndex) {

    /** Suit equality compares the indices. */
    function Equals(other: Suit): (r: bool)
      ensures r <==> this == other
    {
      index == other.index
    }

    /** Suits are ordered by their index. */
    function Less(other: Suit): (r: bool)
      ensures r ==> this != other
    {
      index < other.index
    }
  }

  /** The suit order is a strict total order consistent with equality. */
  lemma SuitOrderStrictTotal(a: Suit, b: Suit, c: Suit)
    ensures !a.Less(a)
    ensures a.Less(b) ==> !b.Less(a)
    ensures a.Less(b) && b.Less(c) ==> a.Less(c)
    ensures a.Less(b) || a == b || b.Less(a)
  {
  }

  /** The named suit and face constants. */
  const Clubs: Suit := Suit(0)
  const Diamonds: Suit := Suit(1)
  const Hearts: Suit := Suit(2)
  const Spades: Suit := Suit(3)
  const Jack: Rank := 11
  const Queen: Rank := 12
  const King: Rank := 13
  const Ace: Rank := 14

  /** The suit constructor: it accepts exactly the indices of the suit-name table. */
  function NewSuit(suit: int): (r: Result<Suit>)
    ensures r.Ok? <==> 0 <= suit < SuitCount
    ensures r.Ok? ==> r.value.index == suit
    ensures r.Err? ==> r.error == SuitOutOfRange
  {
    if 0 <= suit < SuitCount then Ok(Suit(suit)) else Err(SuitOutOfRange)
  }

  datatype Card = Card(value: Rank, suit: Suit) {

    /** Two cards pair when their values agree. */
    function IsPair(other: Card): (r: bool)
      ensures r <==> OrderKey(this) / SuitCount == OrderKey(other) / SuitCount
    {
      value == other.value
    }

    /** Two cards are suited when their suits agree. */
    function IsSuited(other: Card): (r: bool)
      ensures r && IsPair(other) <==> this == other
    {
      suit.Equals(other.suit)
    }

    /** Card equality: same value and same suit. */
    function Equals(other: Card): (r: bool)
      ensures r <==> this == other
    {
      value == other.value && suit.Equals(other.suit)
    }

    /** The comparison of the pairs (value, suit) as tuples: the first position
        whose entries differ decides, and equal pairs are not less. */
    function Less(other: Card): (r: bool)
      ensures r <==> OrderKey(this) < OrderKey(other)
    {
      if value != other.value then value < other.value
      else if !suit.Equals(other.suit) then suit.Less(other.suit)
      else false
    }

    /** `>` as derived from `<` and `==` by total ordering: not less and not equal. */
    function Greater(other: Card): (r: bool)
      ensures r <==> other.Less(this)
    {
      !Less(other) && !Equals(other)
    }

    /** `<=` as derived from `<` and `==` by total ordering: less or equal. */
    function LessOrEqual(other: Card): (r: bool)
      ensures r <==> !other.Less(this)
    {
      Less(other) || Equals(other)
    }
  }

  /** An independent reference for the card order: a card's rank in the list of
      all cards sorted by value and then by suit. */
  function OrderKey(c: Card): int
  {
    SuitCount * c.value + c.suit.index
  }

  /** The card constructor: the value must exceed 1 and index the face table
      (checked in that order); the suit is typed, so it is always a suit. */
  function NewCard(value: int, suit: Suit): (r: Result<Card>)
    ensures r.Ok? <==> 2 <= value <= 14
    ensures r.Ok? ==> r.value.value == value && r.value.suit == suit
    ensures value <= 1 ==> r == Err(ValueTooLow)
    ensures value >= 15 ==> r == Err(ValueTooHigh)
  {
    if !(value > 1) then Err(ValueTooLow)
    else if !(value < FaceCount) then Err(ValueTooHigh)
    else Ok(Card(value, suit))
  }

  /** The card-level pair and suited tests do not depend on argument order. */
  lemma CardTestsSymmetric(a: Card, b: Card)
    ensures a.IsPair(b) <==> b.IsPair(a)
    ensures a.IsSuited(b) <==> b.IsSuited(a)
  {
  }

  /** Every card value can be rebuilt through the constructors from its fields. */
  lemma ConstructorsRoundTrip(c: Card)
    ensures NewSuit(c.suit.index) == Ok(c.suit)
    ensures NewCard(c.value, c.suit) == Ok(c)
  {
  }

  /** Distinct cards have distinct order keys. */
  lemma OrderKeyInjective(a: Card, b: Card)
    ensures OrderKey(a) == OrderKey(b) <==> a == b
  {
  }

  /** The card order is a strict total order consistent with equality: for any two
      cards exactly one of `a < b`, `a == b`, `b < a` holds, and `<` is transitive. */
  lemma CardOrderStrictTotal(a: Card, b: Card, c: Card)
    ensures !a.Less(a)
    ensures a.Less(b) ==> !b.Less(a)
    ensures a.Less(b) && b.Less(c) ==> a.Less(c)
    ensures a.Less(b) || a == b || b.Less(a)
    ensures a.Less(b) <==> a.Greater(b) == false && !a.Equals(b)
  {
  }

  /** The named suits are the four suits in index order, and the named faces
      ascend to the ace, the largest value the face table admits. */
  lemma ConstantsOrdered()
    ensures Clubs.Less(Diamonds) && Diamonds.Less(Hearts) && Hearts.Less(Spades)
    ensures NewSuit(0) == Ok(Clubs) && NewSuit(SuitCount - 1) == Ok(Spades)
    ensures Jack < Queen < King < Ace == FaceCount - 1
  {
  }

  // ---------------------------------------------------------------- decks

  /** Number of cards in one suit. */
  const SuitSize: int := FaceCount - 2

  /** Number of cards in the full deck. */
  const DeckSize: int := SuitCount * SuitSize

  /** The position of a card in the full deck: suits in index order, and within a
      suit the values in ascending order. */
  function DeckIndex(c: Card): (i: int)
    ensures 0 <= i < DeckSize
  {
    SuitSize * c.suit.index + (c.value - 2)
  }

  /** The card at position i of the full deck. */
  function DeckCard(i: int): (c: Card)
    requires 0 <= i < DeckSize
    ensures DeckIndex(c) == i
  {
    Card(i % SuitSize + 2, Suit(i / SuitSize))
  }

  /** DeckCard inverts DeckIndex, so DeckIndex is a bijection onto 0..51. */
  lemma DeckIndexRoundTrip(c: Card)
    ensures DeckCard(DeckIndex(c)) == c
  {
  }

  /** The full deck, position by position. */
  function StandardDeck(): (deck: seq<Card>)
    ensures |deck| == DeckSize
    ensures forall i :: 0 <= i < DeckSize ==> deck[i] == DeckCard(i)
  {
    seq(DeckSize, i requires 0 <= i < DeckSize => DeckCard(i))
  }

  /** Builds the full deck with two nested loops, appending the thirteen values of
      each suit in turn. */
  method FullDeck() returns (deck: seq<Card>)
    ensures deck == StandardDeck()
  {
    deck := [];
    for s := 0 to SuitCount
      invariant |deck| == SuitSize * s
      invariant forall i :: 0 <= i < |deck| ==> deck[i] == DeckCard(i)
    {
      var suit := Suit(s);
      for v := 2 to FaceCount
        invariant |deck| == SuitSize * s + (v - 2)
        invariant forall i :: 0 <= i < |deck| ==> deck[i] == DeckCard(i)
      {
        var card := Card(v, suit);
        DeckIndexRoundTrip(card);
        deck := deck + [card];
      }
    }
  }

  /** The thirteen cards of one suit, values ascending; the suit index goes through
      the suit constructor and is rejected when out of range. */
  function OneSuit(suitValue: int): (r: Result<seq<Card>>)
    ensures r.Ok? <==> 0 <= suitValue < SuitCount
    ensures r.Err? ==> r.error == SuitOutOfRange
    ensures r.Ok? ==> |r.value| == SuitSize
    ensures r.Ok? ==> forall i :: 0 <= i < |r.value| ==>
                        r.value[i].suit.index == suitValue && r.value[i].value == i + 2
  {
    match NewSuit(suitValue)
    case Err(e) => Err(e)
    case Ok(suit) => Ok(seq(SuitSize, i requires 0 <= i < SuitSize => Card(i + 2, suit)))
  }

  /** Pairwise distinct elements. */
  predicate Distinct<T(==)>(s: seq<T>)
  {
    forall i, j :: 0 <= i < j < |s| ==> s[i] != s[j]
  }

  /** In a sequence without repetitions every element occurs exactly once. */
  lemma {:induction false} DistinctOccursOnce<T>(s: seq<T>, x: T)
    requires Distinct(s)
    ensures multiset(s)[x] == if x in s then 1 else 0
  {
    if s != [] {
      assert s == [s[0]] + s[1..];
      assert Distinct(s[1..]) by {
        forall i, j | 0 <= i < j < |s[1..]| ensures s[1..][i] != s[1..][j] {
          assert s[1..][i] == s[i + 1] && s[1..][j] == s[j + 1];
        }
      }
      DistinctOccursOnce(s[1..], x);
      if x == s[0] {
        assert x !in s[1..] by {
          forall k | 0 <= k < |s[1..]| ensures s[1..][k] != x {
            assert s[1..][k] == s[k + 1];
          }
        }
      }
    }
  }

  /** The full deck holds every one of the 52 cards exactly once. */
  lemma FullDeckComplete(c: Card)
    ensures Distinct(StandardDeck())
    ensures StandardDeck()[DeckIndex(c)] == c
    ensures multiset(StandardDeck())[c] == 1
  {
    var deck := StandardDeck();
    forall i, j | 0 <= i < j < |deck| ensures deck[i] != deck[j] {
      assert DeckIndex(deck[i]) == i && DeckIndex(deck[j]) == j;
    }
    DeckIndexRoundTrip(c);
    DistinctOccursOnce(deck, c);
  }

  /** The full deck is ordered suit-major: a later card has a larger suit index, or
      the same suit and a larger value. It is therefore not sorted by the card
      order, which is value-major: the ace of clubs precedes the two of diamonds. */
  lemma FullDeckSuitMajor(i: int, j: int)
    requires 0 <= i < j < DeckSize
    ensures var a, b := StandardDeck()[i], StandardDeck()[j];
            a.suit.index < b.suit.index || (a.suit == b.suit && a.value < b.value)
    ensures StandardDeck()[SuitSize] == Card(2, Diamonds) && StandardDeck()[SuitSize - 1] == Card(Ace, Clubs)
    ensures Card(2, Diamonds).Less(Card(Ace, Clubs))
  {
  }

  /** Each one-suit deck is the corresponding block of thirteen in the full deck,
      and is strictly ascending in the card order. */
  lemma OneSuitIsDeckSlice(s: SuitIndex)
    ensures OneSuit(s) == Ok(StandardDeck()[SuitSize * s .. SuitSize * s + SuitSize])
    ensures forall i, j :: 0 <= i < j < SuitSize ==> OneSuit(s).value[i].Less(OneSuit(s).value[j])
  {
    var block := StandardDeck()[SuitSize * s .. SuitSize * s + SuitSize];
    var cards := OneSuit(s).value;
    forall i | 0 <= i < SuitSize ensures cards[i] == block[i] {
      DeckIndexRoundTrip(cards[i]);
    }
    assert cards == block;
  }

  // ---------------------------------------------------------------- hands

  /** A player's two hole cards, stored canonically as the higher and the lower card
      under the card order, with the pre-flop tests built on them. */
  datatype Hand = Hand(high: Card, low: Card) {

    /** The invariant the constructor establishes: the low card is at most the high one. */
    predicate Canonical()
    {
      low.LessOrEqual(high)
    }

    /** Hand equality: the (high, low) pairs agree card by card. */
    function Equals(other: Hand): (r: bool)
      ensures r <==> this == other
    {
      high.Equals(other.high) && low.Equals(other.low)
    }

    /** The two cards have the same value. */
    function IsPair(): (r: bool)
      ensures r <==> high.IsPair(low) && low.IsPair(high)
    {
      high.value == low.value
    }

    /** The two cards have the same suit. */
    function IsSuited(): (r: bool)
      ensures r <==> high.suit == low.suit
    {
      high.suit.Equals(low.suit)
    }

    /** The number of values strictly between the two cards; a pair gives -1. */
    function CardGap(): (g: int)
      ensures g == -1 <==> IsPair()
      ensures Canonical() ==> -1 <= g <= Ace - 2 - 1
    {
      (high.value - low.value) - 1
    }

    /** The two values are adjacent, the high one just above the low one. */
    function IsConnected(): (r: bool)
      ensures r <==> high.value == low.value + 1
    {
      CardGap() == 0
    }
  }

  /** The hand constructor: the card the order ranks above the other becomes `high`;
      when neither is greater (equal cards) the second argument becomes `high`. */
  function NewHand(card1: Card, card2: Card): (h: Hand)
    ensures h.Canonical()
    ensures multiset{h.high, h.low} == multiset{card1, card2}
  {
    if card1.Greater(card2) then Hand(card1, card2) else Hand(card2, card1)
  }

  /** The argument order does not matter: both orders give equal hands. */
  lemma NewHandSymmetric(card1: Card, card2: Card)
    ensures NewHand(card1, card2).Equals(NewHand(card2, card1))
  {
  }

  /** Two constructions give equal hands exactly when they were given the same two
      cards, in either order. */
  lemma NewHandEqualIff(a: Card, b: Card, c: Card, d: Card)
    ensures NewHand(a, b) == NewHand(c, d) <==> multiset{a, b} == multiset{c, d}
  {
  }

  /** A canonical hand is the constructor's image of its own two cards. */
  lemma CanonicalIsFixedPoint(h: Hand)
    requires h.Canonical()
    ensures NewHand(h.high, h.low) == h
    ensures NewHand(h.low, h.high) == h
  {
  }

  /** The hand tests agree with the card-level tests on the constructor's arguments,
      and the gap measures the distance between the two values. */
  lemma NewHandTests(card1: Card, card2: Card)
    ensures NewHand(card1, card2).IsPair() == card1.IsPair(card2)
    ensures NewHand(card1, card2).IsSuited() == card1.IsSuited(card2)
    ensures var d := card1.value - card2.value;
            NewHand(card1, card2).CardGap() == (if d < 0 then -d else d) - 1
    ensures var d := card1.value - card2.value;
            NewHand(card1, card2).IsConnected() <==> d == 1 || d == -1
  {
  }
}
