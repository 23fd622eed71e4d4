/** Whole-table bookkeeping: the cards of many hands or decks laid end to end,
    so that conservation of cards can be stated as one multiset equation. */
module Piles {
  import opened Cards

  /** All the piles concatenated in order. */
  function Flatten(piles: seq<seq<Card>>): seq<Card> {
    if piles == [] then [] else piles[0] + Flatten(piles[1..])
  }

  /** The sum of the pile sizes. */
  function TotalSize(piles: seq<seq<Card>>): nat {
    if piles == [] then 0 else |piles[0]| + TotalSize(piles[1..])
  }

  lemma {:induction false} FlattenSize(piles: seq<seq<Card>>)
    ensures |Flatten(piles)| == TotalSize(piles)
  {
    if piles != [] {
      FlattenSize(piles[1..]);
    }
  }

  /** Replacing one pile changes the table's multiset by exactly the cards
      that pile lost and gained. */
  lemma {:induction false} FlattenUpdate(piles: seq<seq<Card>>, i: nat, x: seq<Card>)
    requires i < |piles|
    ensures multiset(Flatten(piles[i := x])) + multiset(piles[i])
         == multiset(Flatten(piles)) + multiset(x)
  {
    if i > 0 {
      var updated := piles[i := x];
      var tail := piles[1..];
      assert updated[0] == piles[0];
      assert updated[1..] == tail[i - 1 := x];
      assert tail[i - 1] == piles[i];
      FlattenUpdate(tail, i - 1, x);
      calc {
        multiset(Flatten(updated)) + multiset(piles[i]);
        multiset(piles[0] + Flatten(tail[i - 1 := x])) + multiset(tail[i - 1]);
        multiset(piles[0]) + (multiset(Flatten(tail[i - 1 := x])) + multiset(tail[i - 1]));
        multiset(piles[0]) + (multiset(Flatten(tail)) + multiset(x));
        multiset(piles[0] + Flatten(tail)) + multiset(x);
      }
    } else {
      assert piles[i := x][1..] == piles[1..];
    }
  }

  /** `n` empty piles. */
  function EmptyPiles(n: nat): (piles: seq<seq<Card>>)
    ensures |piles| == n
    ensures forall i :: 0 <= i < n ==> piles[i] == []
    ensures Flatten(piles) == []
  {
    if n == 0 then [] else [[]] + EmptyPiles(n - 1)
  }
}
