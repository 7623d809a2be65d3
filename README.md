# Poker card value model

A Dafny model of the card value layer of a Texas Hold'em engine for bot
competitions (`pokeher/cards.py`): suits, cards, their total order, the two deck
generators and a player's two hole cards.

Everything is in `cards.dfy`, module `Cards`, as it is all in one source file.

- `Suit` and `Card` are datatypes whose fields are
  subset types (`SuitIndex` is 0..3, `Rank` is 2..14), so every value satisfies
  the constructor assertions. The constructors themselves, which reject bad
  arguments, are `NewSuit` and `NewCard`; they return `Err` naming the assertion
  that failed. The card order is the tuple comparison of `(value, suit)`.
  `Greater` and `LessOrEqual` are derived from `Less` and `Equals` the way
  total ordering derives them. An integer key, `OrderKey`, serves as an
  independent reference for that order. `FullDeck` is the source's nested loop,
  which appends to a list, and it is proved equal to `StandardDeck`, defined
  position by position through `DeckCard`. `DeckCard` inverts `DeckIndex`.
  `OneSuit` is the one-suit comprehension.
- `Hand` is a datatype `(high, low)`. The constructor
  is `NewHand`, which puts the greater card in `high`. It also has the
  pair/suited/gap/connected tests.

The hand constructor (pokeher/cards.py:86-92) does not check that its two cards
differ, so `NewHand(c, c)` is a valid hand: a pair with gap -1.

## Model

| member | source | states |
|---|---|---|
| `Cards.NewSuit` | pokeher/cards.py:9-11 | succeeds exactly for indices 0..3 and yields the suit with that index; any other index fails with SuitOutOfRange |
| `Cards.Suit.Equals` | pokeher/cards.py:16-19 | suit equality by index is the same as equality of suit values |
| `Cards.Suit.Less` | pokeher/cards.py:21-22 | a suit is never less than itself |
| `Cards.SuitOrderStrictTotal` | pokeher/cards.py:16-22 | the suit order is irreflexive, asymmetric, transitive and total |
| `Cards.NewCard` | pokeher/cards.py:30-36 | succeeds exactly for values 2..14 and keeps value and suit; a value of 1 or less fails with ValueTooLow and one of 15 or more with ValueTooHigh |
| `Cards.ConstructorsRoundTrip` | pokeher/cards.py:9-36 | every suit and card value is what the constructors build from its own fields |
| `Cards.Card.IsPair` | pokeher/cards.py:38-39 | two cards pair exactly when their order keys fall in the same block of four (one block per value); the test is symmetric (CardTestsSymmetric), together with IsSuited it holds exactly for equal cards, and `NewHand(c1, c2).IsPair()` agrees with `c1.IsPair(c2)` (NewHandTests) |
| `Cards.Card.IsSuited` | pokeher/cards.py:38-42 | two cards are both suited and paired exactly when they are the same card |
| `Cards.CardTestsSymmetric` | pokeher/cards.py:38-42 | the card-level pair and suited tests are symmetric in their two arguments |
| `Cards.Card.Equals` | pokeher/cards.py:56-59 | card equality (same value and suit) is the same as equality of card values |
| `Cards.Card.Less` | pokeher/cards.py:61-64 | the tuple comparison on (value, suit) agrees with the order of the integer key 4*value + suit |
| `Cards.OrderKeyInjective` | pokeher/cards.py:56-64 | two cards have the same key exactly when they are equal, so the order is consistent with equality |
| `Cards.CardOrderStrictTotal` | pokeher/cards.py:56-64 | the card order is irreflexive, asymmetric and transitive; for any two cards one of a<b, a==b, b<a holds; a<b exactly when a is neither greater than nor equal to b |
| `Cards.Card.Greater` | pokeher/cards.py:24-25 | `>` derived as "not less and not equal" is exactly the converse of `<` |
| `Cards.Card.LessOrEqual` | pokeher/cards.py:24-25 | `<=` derived as "less or equal" is exactly "the other card is not less" |
| `Cards.ConstantsOrdered` | pokeher/cards.py:121-131 | clubs < diamonds < hearts < spades, clubs and spades are suits 0 and 3, and J < Q < K < A, with the ace the largest admitted value |
| `Cards.DeckIndex` | pokeher/cards.py:67-75 | the position 13*suit + (value-2) of a card in the full deck lies in 0..51 |
| `Cards.DeckCard` | pokeher/cards.py:67-75 | the card at position i of the full deck sits at position i, so DeckIndex inverts DeckCard |
| `Cards.DeckIndexRoundTrip` | pokeher/cards.py:67-75 | DeckCard inverts DeckIndex, so deck positions and cards correspond one to one |
| `Cards.StandardDeck` | pokeher/cards.py:67-75 | the full deck has 52 entries, and entry i is DeckCard(i) |
| `Cards.FullDeck` | pokeher/cards.py:67-75 | the nested loops over suits 0..3 and values 2..14 build exactly StandardDeck |
| `Cards.FullDeckComplete` | pokeher/cards.py:67-75 | the full deck's cards are pairwise distinct, every card sits at its DeckIndex, and every card occurs exactly once |
| `Cards.FullDeckSuitMajor` | pokeher/cards.py:67-75 | a later card in the deck has a larger suit, or the same suit and a larger value; the deck is not sorted by the card order (the two of diamonds is less than the ace of clubs before it) |
| `Cards.OneSuit` | pokeher/cards.py:78-81 | succeeds exactly for suit indices 0..3 and yields 13 cards of that suit with values 2..14 in order; fails with SuitOutOfRange otherwise |
| `Cards.OneSuitIsDeckSlice` | pokeher/cards.py:67-81 | one suit's deck equals the block full_deck[13*s .. 13*s+13] and is strictly ascending in the card order |
| `Cards.NewHand` | pokeher/cards.py:86-92 | the resulting hand is canonical (low <= high) and its two cards are, as a multiset, the two arguments |
| `Cards.Hand.Equals` | pokeher/cards.py:100-103 | hand equality (high and low equal card by card) is the same as equality of hand values |
| `Cards.NewHandSymmetric` | pokeher/cards.py:86-103 | Hand(c1, c2) == Hand(c2, c1) |
| `Cards.NewHandEqualIff` | pokeher/cards.py:86-103 | two constructed hands are equal exactly when they were given the same two cards, in either order |
| `Cards.CanonicalIsFixedPoint` | pokeher/cards.py:86-92 | a canonical hand is what the constructor makes from its two cards, in either order |
| `Cards.Hand.IsPair` | pokeher/cards.py:105-107 | the hand is a pair exactly when its two cards pair at card level |
| `Cards.Hand.IsSuited` | pokeher/cards.py:109-111 | the hand is suited exactly when its two cards have the same suit |
| `Cards.Hand.CardGap` | pokeher/cards.py:113-115 | the gap is -1 exactly for a pair, and lies in -1..11 for a canonical hand |
| `Cards.Hand.IsConnected` | pokeher/cards.py:117-119 | connected exactly when the high value is one above the low value |
| `Cards.NewHandTests` | pokeher/cards.py:105-119 | for Hand(c1, c2): pair and suited agree with the card-level tests on c1 and c2, the gap is abs(c1.value - c2.value) - 1, and connected means the values differ by exactly one |

## Left out

- `Card.score_value` (pokeher/cards.py:44-48): floating-point arithmetic.
- `__repr__` and `__str__` of suits, cards and hands, with the suit-name and face tables they index: these only format text for display. The model keeps just the table sizes (4 and 15), which the constructors check against.
- `from handscore import *`: handscore is not part of this model.
- Comparing a suit, card or hand with a value of another type (the `NotImplemented` branches): Dafny's types rule this out.
- `__ge__` on cards, and `>`, `<=`, `>=` on suits: total ordering derives them, but nothing in the module uses them.
- Hashing of Suit, Card and Hand is not modelled: all three define `__eq__` without `__hash__`, and Dafny values have no hash.
- NewSuit, NewCard: the constructor checks (pokeher/cards.py:10, 31-33) are `assert` statements, which Python removes when run with `-O`; the model treats them as always on.
- NewCard: the asserts also accept non-integer values such as 2.5; the model's card values and suit indices are integers only.
- The betting round, pot accounting, showdown and hand evaluator, and the parser for the bot text protocol: they live in `arena/poker.py`, `handscore` and `pokeher/theaigame`, outside this model. The arena runner (`arena/theaigame_arena.py`) only composes those components and launches processes.
