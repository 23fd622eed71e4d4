/** Deck.java: a first-in first-out queue of cards with a display index.
    Cards go in at the bottom (the end of `cards`) and come out at the top
    (the front). The locking that makes each call atomic is not modelled:
    every operation here is one atomic step on a deck value. */
module Decks {
  import opened Wrappers
  import opened Cards

  datatype Deck = Deck(index: int, cards: seq<Card>)

  /** The constructor: no cards, and the index an `int` field starts with. */
  function NewDeck(): (d: Deck)
    ensures Size(d) == 0 && d.index == 0
  {
    Deck(0, [])
  }

  /** `size`: how many cards the deck holds, which is how many draws succeed
      before the deck runs dry. */
  function Size(d: Deck): (n: nat)
    ensures n == |Drain(d)|
  {
    DrainIsContents(d);
    |d.cards|
  }

  /** `isEmpty`. */
  function IsEmpty(d: Deck): (b: bool)
    ensures b <==> Size(d) == 0
    ensures b <==> DrawFromTop(d).0 == None
  {
    d.cards == []
  }

  /** `insertCardAtBottom`: the deck grows by one, the card is last, and the
      cards already there keep their order. */
  function InsertAtBottom(d: Deck, c: Card): (r: Deck)
    ensures Size(r) == Size(d) + 1
    ensures r.cards[..Size(d)] == d.cards
    ensures r.cards[Size(d)] == c
    ensures r.index == d.index
  {
    d.(cards := d.cards + [c])
  }

  /** `drawCardFromTop`: on a non-empty deck the first card and the deck
      without it; on an empty deck no card (Java's `null`) and the deck as it
      was. */
  function DrawFromTop(d: Deck): (r: (Option<Card>, Deck))
    ensures d.cards == [] ==> r.0 == None && r.1 == d
    ensures d.cards != [] ==> r.0 == Some(d.cards[0])
    ensures d.cards != [] ==> r.1.cards == d.cards[1..] && r.1.index == d.index
  {
    if d.cards != [] then (Some(d.cards[0]), d.(cards := d.cards[1..])) else (None, d)
  }

  /** The cards repeated draws return until the deck reports empty. */
  function Drain(d: Deck): seq<Card>
    decreases |d.cards|
  {
    match DrawFromTop(d)
    case (None, _) => []
    case (Some(c), rest) => [c] + Drain(rest)
  }

  lemma {:induction false} DrainIsContents(d: Deck)
    ensures Drain(d) == d.cards
    decreases |d.cards|
  {
    if d.cards != [] {
      DrainIsContents(DrawFromTop(d).1);
    }
  }

  /** `getDeckContents`: a snapshot of the cards, top first: exactly what
      drawing until empty would return. Being a value, it cannot alias the
      deck, and taking it leaves the deck as it was. */
  function Contents(d: Deck): (r: seq<Card>)
    ensures r == Drain(d)
  {
    DrainIsContents(d);
    d.cards
  }

  function GetIndex(d: Deck): (i: int)
    ensures Deck(i, Contents(d)) == d
  {
    DrainIsContents(d);
    d.index
  }

  /** `setDeckIndex`: later `getDeckIndex` calls return the value set, and
      the cards are not touched. */
  function SetIndex(d: Deck, i: int): (r: Deck)
    ensures GetIndex(r) == i
    ensures Contents(r) == Contents(d)
  {
    d.(index := i)
  }

  /** One call made on a deck: an insertion or a draw. */
  datatype DeckOp = Insert(card: Card) | Draw

  /** The cards a run of calls inserts, in call order. */
  function Inserted(ops: seq<DeckOp>): seq<Card> {
    if ops == [] then []
    else (if ops[0].Insert? then [ops[0].card] else []) + Inserted(ops[1..])
  }

  /** Replays calls on a deck; returns the cards the successful draws
      produced, in order, and the final deck. */
  function Replay(d: Deck, ops: seq<DeckOp>): (seq<Card>, Deck)
    decreases |ops|
  {
    if ops == [] then ([], d)
    else if ops[0].Insert? then Replay(InsertAtBottom(d, ops[0].card), ops[1..])
    else
      var drawn := DrawFromTop(d);
      var rest := Replay(drawn.1, ops[1..]);
      (if drawn.0.Some? then [drawn.0.value] + rest.0 else rest.0, rest.1)
  }

  /** First in, first out, under any interleaving of insertions and draws:
      the cards drawn followed by the cards left over are the original cards
      followed by the inserted ones. So cards leave in the order they came,
      none is lost and none is duplicated. */
  lemma {:induction false} FifoOrder(d: Deck, ops: seq<DeckOp>)
    ensures Replay(d, ops).0 + Replay(d, ops).1.cards == d.cards + Inserted(ops)
    ensures Replay(d, ops).1.index == d.index
    decreases |ops|
  {
    if ops == [] {
      assert Replay(d, ops) == ([], d) && Inserted(ops) == [];
    } else if ops[0].Insert? {
      FifoOrder(InsertAtBottom(d, ops[0].card), ops[1..]);
      FifoInsertStep(d, ops);
    } else {
      FifoOrder(DrawFromTop(d).1, ops[1..]);
      FifoDrawStep(d, ops);
    }
  }

  /** The statement of FifoOrder for one deck and one run of calls. */
  predicate FifoHolds(d: Deck, ops: seq<DeckOp>) {
    && Replay(d, ops).0 + Replay(d, ops).1.cards == d.cards + Inserted(ops)
    && Replay(d, ops).1.index == d.index
  }

  /** An insertion first: the inserted card joins the back of the queue. */
  lemma FifoInsertStep(d: Deck, ops: seq<DeckOp>)
    requires ops != [] && ops[0].Insert?
    requires FifoHolds(InsertAtBottom(d, ops[0].card), ops[1..])
    ensures FifoHolds(d, ops)
  {
    var c, tail := ops[0].card, ops[1..];
    var d1 := InsertAtBottom(d, c);
    assert Replay(d, ops) == Replay(d1, tail);
    assert Inserted(ops) == [c] + Inserted(tail);
    assert d1.cards == d.cards + [c];
    AppendAssoc(d.cards, [c], Inserted(tail));
  }

  /** A draw first: on a non-empty deck the top card is the first one drawn;
      on an empty deck nothing happens. */
  lemma FifoDrawStep(d: Deck, ops: seq<DeckOp>)
    requires ops != [] && ops[0].Draw?
    requires FifoHolds(DrawFromTop(d).1, ops[1..])
    ensures FifoHolds(d, ops)
  {
    var tail := ops[1..];
    assert Inserted(ops) == Inserted(tail);
    if d.cards == [] {
      assert DrawFromTop(d) == (None, d);
      assert Replay(d, ops) == Replay(d, tail);
    } else {
      var top := d.cards[0];
      var d1 := d.(cards := d.cards[1..]);
      assert DrawFromTop(d) == (Some(top), d1);
      var rest := Replay(d1, tail);
      assert Replay(d, ops) == ([top] + rest.0, rest.1);
      assert d.cards == [top] + d1.cards;
      AppendAssoc([top], rest.0, rest.1.cards);
      AppendAssoc([top], d1.cards, Inserted(tail));
    }
  }

  lemma AppendAssoc<T>(a: seq<T>, b: seq<T>, c: seq<T>)
    ensures (a + b) + c == a + (b + c)
  {
  }

  /** The cards inserted into an empty deck come back from draws in insertion
      order. */
  lemma FifoFromEmpty(cs: seq<Card>)
    ensures Contents(InsertAll(NewDeck(), cs)) == cs
  {
    InsertAllAppends(NewDeck(), cs);
  }

  function InsertAll(d: Deck, cs: seq<Card>): Deck
    decreases |cs|
  {
    if cs == [] then d else InsertAll(InsertAtBottom(d, cs[0]), cs[1..])
  }

  lemma {:induction false} InsertAllAppends(d: Deck, cs: seq<Card>)
    ensures InsertAll(d, cs).cards == d.cards + cs
    decreases |cs|
  {
    if cs != [] {
      InsertAllAppends(InsertAtBottom(d, cs[0]), cs[1..]);
      assert d.cards + [cs[0]] + cs[1..] == d.cards + cs;
    }
  }
}
