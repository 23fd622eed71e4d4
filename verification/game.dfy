/** The whole table as one value: the players in roster order and the decks,
    wired in a ring. A run of the concurrent game is modelled as a sequence
    of atomic steps, one loop iteration or one win announcement at a time, in
    any order the scheduler might pick. */
module Game {
  import opened Wrappers
  import opened Cards
  import opened Decks
  import opened Players
  import opened Piles

  datatype Table = Table(players: seq<Player>, decks: seq<Deck>)

  /** The ring the driver builds (CardGame.java): player `i + 1` sits at
      position `i`, draws from deck `i` and discards to deck `(i + 1) mod n`;
      deck `i` shows index `i + 1`. */
  predicate Wired(t: Table) {
    var n := |t.players|;
    && n > 0
    && |t.decks| == n
    && forall i :: 0 <= i < n ==>
         && t.players[i].index == i + 1
         && t.players[i].left == i
         && t.players[i].right == (i + 1) % n
         && t.decks[i].index == i + 1
  }

  /** Each player's discard deck is the next player's draw deck, the last
      player's being the first player's. */
  predicate RingLinked(t: Table) {
    var n := |t.players|;
    forall i, j :: 0 <= i < n && 0 <= j < n && j == (i + 1) % n ==>
      t.players[i].right == t.players[j].left
  }

  /** The hands in roster order. */
  function Hands(t: Table): (hs: seq<seq<Card>>)
    ensures |hs| == |t.players|
    ensures forall i :: 0 <= i < |t.players| ==> hs[i] == t.players[i].hand
  {
    seq(|t.players|, i requires 0 <= i < |t.players| => t.players[i].hand)
  }

  /** The deck contents in deck order. */
  function DeckCards(t: Table): (ds: seq<seq<Card>>)
    ensures |ds| == |t.decks|
    ensures forall i :: 0 <= i < |t.decks| ==> ds[i] == t.decks[i].cards
  {
    seq(|t.decks|, i requires 0 <= i < |t.decks| => t.decks[i].cards)
  }

  /** Every card on the table: all hands, then all decks. */
  function AllCards(t: Table): seq<Card> {
    Flatten(Hands(t)) + Flatten(DeckCards(t))
  }

  /** The number of cards on the table: hand sizes plus deck sizes. */
  function CardCount(t: Table): nat {
    TotalSize(Hands(t)) + TotalSize(DeckCards(t))
  }

  /** The condition of the `while` loop in `run`: no win flag yet and cards
      left in the player's own deck. */
  predicate LoopGuard(t: Table, i: nat)
    requires Wired(t) && i < |t.players|
    ensures LoopGuard(t, i) <==> !t.players[i].hasWon && Size(t.decks[i]) > 0
  {
    !t.players[i].hasWon && !IsEmpty(t.decks[t.players[i].left])
  }

  /** One iteration of the loop in `run` for the player at position `i`:
      draw, discard, check for a win. When the loop guard is false the
      player's thread has left its loop and the step changes nothing. */
  function Turn(t: Table, i: nat): (r: Table)
    requires Wired(t) && i < |t.players|
    ensures Wired(r)
    ensures |r.players| == |t.players|
    ensures multiset(AllCards(r)) == multiset(AllCards(t))
    ensures !LoopGuard(t, i) ==> r == t
    ensures forall j :: 0 <= j < |t.players| && j != i ==> r.players[j] == t.players[j]
    ensures forall d :: 0 <= d < |t.decks| && d != i && d != (i + 1) % |t.players| ==>
      r.decks[d] == t.decks[d]
    ensures LoopGuard(t, i) ==>
      && |r.players[i].hand| == |t.players[i].hand|
      && (r.players[i].hasWon <==> IsWinningHand(r.players[i].hand, i + 1))
      && r.players[i].winner == t.players[i].winner
    ensures LoopGuard(t, i) ==>
      var n, h := |t.players|, t.players[i].hand + [t.decks[i].cards[0]];
      var k := DiscardChoice(h, i + 1);
      && r.players[i].hand == h[..k] + h[k + 1..]
      && (n >= 2 ==> (r.decks[i].cards == t.decks[i].cards[1..]
                      && r.decks[(i + 1) % n].cards == t.decks[(i + 1) % n].cards + [h[k]]))
      && (n == 1 ==> r.decks[0].cards == t.decks[0].cards[1..] + [h[k]])
  {
    if !LoopGuard(t, i) then t
    else
      PlayKeepsRing(t, i);
      PlayKeepsOthers(t, i);
      PlayKeepsOtherDecks(t, i);
      PlayConserves(t, i);
      PlayChecksWin(t, i);
      PlayMoves(t, i);
      Play(t, i)
  }

  /** The body of the loop, for a player whose loop guard holds: the player
      ends up holding its hand plus the top card of its left deck, less the
      card the discard rule picks, has announced that card's denomination as
      its index, and carries a win flag exactly when it had one or now holds
      four cards of its index. */
  function Play(t: Table, i: nat): (r: Table)
    requires Wired(t) && i < |t.players| && LoopGuard(t, i)
    ensures |r.players| == |t.players| && |r.decks| == |t.decks|
    ensures var p := t.players[i];
      var h := p.hand + [t.decks[p.left].cards[0]];
      var k := DiscardChoice(h, p.index);
      var kept := h[..k] + h[k + 1..];
      r.players[i] == p.(hand := kept, denomination := p.index,
                         hasWon := p.hasWon || IsWinningHand(kept, p.index))
  {
    var p := t.players[i];
    var (p1, left1) := DrawCard(p, t.decks[p.left]);
    var decks1 := t.decks[p.left := left1];
    var (p2, right2) := Discard(p1, decks1[p.right]);
    Table(t.players[i := CheckForWin(p2)], decks1[p.right := right2])
  }

  /** A turn rewires nothing and touches only the player's own two decks. */
  lemma PlayKeepsRing(t: Table, i: nat)
    requires Wired(t) && i < |t.players| && LoopGuard(t, i)
    ensures Wired(Play(t, i)) && |Play(t, i).players| == |t.players|
  {
    var p := t.players[i];
    var (p1, left1) := DrawCard(p, t.decks[p.left]);
    var decks1 := t.decks[p.left := left1];
    var (p2, right2) := Discard(p1, decks1[p.right]);
    var q := Play(t, i).players[i];
    assert Play(t, i) == Table(t.players[i := q], decks1[p.right := right2]);
    assert left1.index == t.decks[p.left].index;
    assert right2.index == decks1[p.right].index;
    ReplaceKeepsRing(t, i, q, p.left, left1, p.right, right2);
  }

  /** A turn leaves every other player as it was. */
  lemma PlayKeepsOthers(t: Table, i: nat)
    requires Wired(t) && i < |t.players| && LoopGuard(t, i)
    ensures forall j :: 0 <= j < |t.players| && j != i ==> Play(t, i).players[j] == t.players[j]
  {
    assert Play(t, i).players == t.players[i := Play(t, i).players[i]];
  }

  /** A turn leaves every deck other than the player's own two as it was. */
  lemma PlayKeepsOtherDecks(t: Table, i: nat)
    requires Wired(t) && i < |t.players| && LoopGuard(t, i)
    ensures forall d :: 0 <= d < |t.decks| && d != i && d != (i + 1) % |t.players| ==>
      Play(t, i).decks[d] == t.decks[d]
  {
    var p := t.players[i];
    assert p.left == i && p.right == (i + 1) % |t.players|;
    var (p1, left1) := DrawCard(p, t.decks[p.left]);
    var decks1 := t.decks[p.left := left1];
    var (p2, right2) := Discard(p1, decks1[p.right]);
    assert Play(t, i).decks == decks1[p.right := right2];
  }

  /** Replacing one player by one with the same seat, and two decks by decks
      with the same indices, leaves the ring wired. */
  lemma ReplaceKeepsRing(t: Table, i: nat, q: Player, l: nat, dl: Deck, r: nat, dr: Deck)
    requires Wired(t) && i < |t.players| && l < |t.decks| && r < |t.decks|
    requires q.index == t.players[i].index && q.left == t.players[i].left && q.right == t.players[i].right
    requires dl.index == t.decks[l].index && dr.index == t.decks[l := dl][r].index
    ensures Wired(Table(t.players[i := q], t.decks[l := dl][r := dr]))
  {
    var u := Table(t.players[i := q], t.decks[l := dl][r := dr]);
    forall k | 0 <= k < |u.players|
      ensures u.players[k].index == k + 1 && u.players[k].left == k
      ensures u.players[k].right == (k + 1) % |u.players| && u.decks[k].index == k + 1
    {
      assert u.players[k].index == t.players[k].index;
      assert u.decks[k].index == t.decks[k].index;
    }
  }

  /** A turn moves cards but neither creates nor destroys any. */
  lemma PlayConserves(t: Table, i: nat)
    requires Wired(t) && i < |t.players| && LoopGuard(t, i)
    ensures multiset(AllCards(Play(t, i))) == multiset(AllCards(t))
  {
    var p := t.players[i];
    var (p1, left1) := DrawCard(p, t.decks[p.left]);
    var (p2, right2) := Discard(p1, t.decks[p.left := left1][p.right]);
    TurnConserves(t, i, Play(t, i), p1, left1, p2, right2);
  }

  /** After a turn the hand is back to its size, the win flag says whether it
      is a winning hand, and no winner has been recorded. */
  lemma PlayChecksWin(t: Table, i: nat)
    requires Wired(t) && i < |t.players| && LoopGuard(t, i)
    ensures var q := Play(t, i).players[i];
      && |q.hand| == |t.players[i].hand|
      && (q.hasWon <==> IsWinningHand(q.hand, i + 1))
      && q.winner == t.players[i].winner
  {
    var p := t.players[i];
    var (p1, left1) := DrawCard(p, t.decks[p.left]);
    var (p2, right2) := Discard(p1, t.decks[p.left := left1][p.right]);
    assert Play(t, i).players[i] == CheckForWin(p2);
  }

  /** The cards a turn moves: the top card of the player's own deck joins
      the hand, and the card the discard rule picks from that hand goes to
      the bottom of the next deck, which for a lone player is its own. */
  lemma PlayMoves(t: Table, i: nat)
    requires Wired(t) && i < |t.players| && LoopGuard(t, i)
    ensures var n, h := |t.players|, t.players[i].hand + [t.decks[i].cards[0]];
      var k := DiscardChoice(h, i + 1);
      && Play(t, i).players[i].hand == h[..k] + h[k + 1..]
      && (n >= 2 ==> (Play(t, i).decks[i].cards == t.decks[i].cards[1..]
                      && Play(t, i).decks[(i + 1) % n].cards == t.decks[(i + 1) % n].cards + [h[k]]))
      && (n == 1 ==> Play(t, i).decks[0].cards == t.decks[0].cards[1..] + [h[k]])
  {
    var p := t.players[i];
    assert p.left == i && p.index == i + 1;
    if |t.players| >= 2 {
      PlayMovesTwoDecks(t, i);
    } else {
      PlayMovesOneDeck(t, i);
    }
  }

  lemma PlayMovesTwoDecks(t: Table, i: nat)
    requires Wired(t) && i < |t.players| && LoopGuard(t, i) && |t.players| >= 2
    ensures var n, h := |t.players|, t.players[i].hand + [t.decks[i].cards[0]];
      var k := DiscardChoice(h, i + 1);
      && Play(t, i).decks[i].cards == t.decks[i].cards[1..]
      && Play(t, i).decks[(i + 1) % n].cards == t.decks[(i + 1) % n].cards + [h[k]]
  {
    var p := t.players[i];
    var (p1, left1) := DrawCard(p, t.decks[p.left]);
    var decks1 := t.decks[p.left := left1];
    assert p.right != p.left;
    assert decks1[p.right] == t.decks[p.right];
    var (p2, right2) := Discard(p1, t.decks[p.right]);
    assert p1.hand == t.players[i].hand + [t.decks[i].cards[0]] && p1.index == i + 1;
    assert Play(t, i).decks == decks1[p.right := right2];
  }

  lemma PlayMovesOneDeck(t: Table, i: nat)
    requires Wired(t) && i < |t.players| && LoopGuard(t, i) && |t.players| == 1
    ensures var h := t.players[i].hand + [t.decks[i].cards[0]];
      var k := DiscardChoice(h, i + 1);
      Play(t, i).decks[0].cards == t.decks[0].cards[1..] + [h[k]]
  {
    var p := t.players[i];
    assert i == 0 && p.left == 0 && p.right == 0;
    var (p1, left1) := DrawCard(p, t.decks[0]);
    var (p2, right2) := Discard(p1, left1);
    assert p1.hand == t.players[0].hand + [t.decks[0].cards[0]] && p1.index == 1;
    assert Play(t, 0).decks == t.decks[0 := left1][0 := right2];
  }

  /** The bookkeeping behind Turn's conservation clause: one hand replaced,
      then deck `left` and deck `right` replaced in that order, where `left`
      and `right` may be the same deck. */
  lemma {:induction false} TurnAccounting(hands: seq<seq<Card>>, decks: seq<seq<Card>>, i: nat,
                                          left: nat, right: nat,
                                          h1: seq<Card>, h2: seq<Card>, l1: seq<Card>, r2: seq<Card>)
    requires i < |hands| && left < |decks| && right < |decks|
    requires multiset(h1) + multiset(l1) == multiset(hands[i]) + multiset(decks[left])
    requires multiset(h2) + multiset(r2) == multiset(h1) + multiset(decks[left := l1][right])
    ensures multiset(Flatten(hands[i := h2])) + multiset(Flatten(decks[left := l1][right := r2]))
         == multiset(Flatten(hands)) + multiset(Flatten(decks))
  {
    var decks1 := decks[left := l1];
    FlattenUpdate(hands, i, h2);
    FlattenUpdate(decks, left, l1);
    FlattenUpdate(decks1, right, r2);
    var H, H' := multiset(Flatten(hands)), multiset(Flatten(hands[i := h2]));
    var D, D1, D' := multiset(Flatten(decks)), multiset(Flatten(decks1)), multiset(Flatten(decks1[right := r2]));
    forall c: Card
      ensures (H' + D')[c] == (H + D)[c]
    {
      assert (H' + multiset(hands[i]))[c] == (H + multiset(h2))[c];
      assert (D1 + multiset(decks[left]))[c] == (D + multiset(l1))[c];
      assert (D' + multiset(decks1[right]))[c] == (D1 + multiset(r2))[c];
      assert (multiset(h1) + multiset(l1))[c] == (multiset(hands[i]) + multiset(decks[left]))[c];
      assert (multiset(h2) + multiset(r2))[c] == (multiset(h1) + multiset(decks1[right]))[c];
    }
    assert H' + D' == H + D;
  }

  lemma TurnConserves(t: Table, i: nat, r: Table, p1: Player, left1: Deck, p2: Player, right2: Deck)
    requires Wired(t) && i < |t.players|
    requires var p := t.players[i];
      && multiset(p1.hand) + multiset(left1.cards) == multiset(p.hand) + multiset(t.decks[p.left].cards)
      && multiset(p2.hand) + multiset(right2.cards)
         == multiset(p1.hand) + multiset(t.decks[p.left := left1][p.right].cards)
      && r == Table(t.players[i := CheckForWin(p2)], t.decks[p.left := left1][p.right := right2])
    ensures multiset(AllCards(r)) == multiset(AllCards(t))
  {
    var p := t.players[i];
    assert p.left < |t.decks| && p.right < |t.decks|;
    assert Hands(r) == Hands(t)[i := p2.hand];
    assert DeckCards(r) == DeckCards(t)[p.left := left1.cards][p.right := right2.cards];
    assert DeckCards(t)[p.left := left1.cards][p.right] == t.decks[p.left := left1][p.right].cards;
    TurnAccounting(Hands(t), DeckCards(t), i, p.left, p.right, p1.hand, p2.hand, left1.cards, right2.cards);
  }

  /** `declareWin` for the player at position `i`, run once its loop has
      ended with `hasWon` set; it touches no cards. */
  function Declare(t: Table, i: nat): (r: Table)
    requires Wired(t) && i < |t.players|
    ensures Wired(r)
    ensures Hands(r) == Hands(t) && r.decks == t.decks
    ensures t.players[i].hasWon ==> forall j :: 0 <= j < |t.players| ==>
      r.players[j].hasWon && r.players[j].winner == Some(i + 1)
    ensures !t.players[i].hasWon ==> r == t
  {
    if t.players[i].hasWon then Table(DeclareWin(t.players, i), t.decks) else t
  }

  /** One scheduling step of the concurrent game. */
  datatype Step = TurnOf(i: nat) | DeclareOf(i: nat)

  /** One scheduling step; a step naming no player is skipped. Every step
      keeps the ring, the cards on the table, and the size of every hand. */
  function Apply(t: Table, step: Step): (r: Table)
    requires Wired(t)
    ensures Wired(r) && |r.players| == |t.players|
    ensures multiset(AllCards(r)) == multiset(AllCards(t))
    ensures forall j :: 0 <= j < |t.players| ==> |r.players[j].hand| == |t.players[j].hand|
  {
    var i := step.i;
    if i >= |t.players| then t
    else if step.TurnOf? then Turn(t, i)
    else
      var r := Declare(t, i);
      assert forall j :: 0 <= j < |t.players| ==> Hands(r)[j] == Hands(t)[j];
      r
  }

  /** Applies steps in order. */
  function Run(t: Table, steps: seq<Step>): (r: Table)
    requires Wired(t)
    ensures Wired(r) && |r.players| == |t.players|
    decreases |steps|
  {
    if steps == [] then t else Run(Apply(t, steps[0]), steps[1..])
  }

  /** A schedule may be cut anywhere: running `a` and then `b` is running
      `a + b`. */
  lemma {:induction false} RunAppend(t: Table, a: seq<Step>, b: seq<Step>)
    requires Wired(t)
    ensures Run(t, a + b) == Run(Run(t, a), b)
    decreases |a|
  {
    if a == [] {
      assert a + b == b;
    } else {
      assert (a + b)[0] == a[0] && (a + b)[1..] == a[1..] + b;
      RunAppend(Apply(t, a[0]), a[1..], b);
    }
  }

  /** Conservation for every interleaving: whatever order the players take
      their turns and announce their wins in, the cards on the table are the
      same multiset, so their number is the same too. */
  lemma {:induction false} RunConserves(t: Table, steps: seq<Step>)
    requires Wired(t)
    ensures multiset(AllCards(Run(t, steps))) == multiset(AllCards(t))
    ensures CardCount(Run(t, steps)) == CardCount(t)
    decreases |steps|
  {
    if steps != [] {
      RunConserves(Apply(t, steps[0]), steps[1..]);
    }
    CountIsAllCards(t);
    CountIsAllCards(Run(t, steps));
  }

  lemma CountIsAllCards(t: Table)
    ensures CardCount(t) == |AllCards(t)|
  {
    FlattenSize(Hands(t));
    FlattenSize(DeckCards(t));
  }

  predicate FourCardHands(t: Table) {
    forall i :: 0 <= i < |t.players| ==> |t.players[i].hand| == 4
  }

  /** Draw-then-discard keeps every hand at four cards, whatever the
      schedule. */
  lemma {:induction false} RunKeepsFourCardHands(t: Table, steps: seq<Step>)
    requires Wired(t) && FourCardHands(t)
    ensures FourCardHands(Run(t, steps))
    decreases |steps|
  {
    if steps != [] {
      RunKeepsFourCardHands(Apply(t, steps[0]), steps[1..]);
    }
  }

  /** A winning hand is never lost: a player who has won no longer plays,
      and one who has not yet noticed throws back the card it draws (or the
      first of five equal ones). Other players' steps do not touch it. */
  lemma ApplyKeepsWinningHand(t: Table, step: Step, i: nat)
    requires Wired(t) && i < |t.players| && IsWinningHand(t.players[i].hand, i + 1)
    ensures IsWinningHand(Apply(t, step).players[i].hand, i + 1)
  {
    var k := step.i;
    if k < |t.players| && k == i {
      if step.TurnOf? && LoopGuard(t, i) {
        DealtWinnerWinsOnFirstTurn(t, i);
      } else if step.DeclareOf? {
        assert Hands(Declare(t, i))[i] == Hands(t)[i];
      }
    }
  }

  lemma {:induction false} RunKeepsWinningHand(t: Table, steps: seq<Step>, i: nat)
    requires Wired(t) && i < |t.players| && IsWinningHand(t.players[i].hand, i + 1)
    ensures IsWinningHand(Run(t, steps).players[i].hand, i + 1)
    decreases |steps|
  {
    if steps != [] {
      ApplyKeepsWinningHand(t, steps[0], i);
      RunKeepsWinningHand(Apply(t, steps[0]), steps[1..], i);
    }
  }

  /** With a single player its left and right deck are the same deck: a turn
      takes the top card and puts a card back at the bottom, so the deck keeps
      its size and the cards stay the same multiset. */
  lemma SinglePlayerTurn(t: Table)
    requires Wired(t) && |t.players| == 1 && LoopGuard(t, 0)
    ensures |Turn(t, 0).decks[0].cards| == |t.decks[0].cards|
    ensures multiset(Turn(t, 0).players[0].hand) + multiset(Turn(t, 0).decks[0].cards)
         == multiset(t.players[0].hand) + multiset(t.decks[0].cards)
  {
    var p := t.players[0];
    var drawn := DrawCard(p, t.decks[0]);
    var back := Discard(drawn.0, drawn.1);
    SameDeckTurn(p, t.decks[0]);
    assert p.left == 0 && p.right == 0;
    assert t.decks[p.left := drawn.1][p.right] == drawn.1;
    var r := Play(t, 0);
    assert r.decks[0] == back.1 && r.players[0] == CheckForWin(back.0);
    assert Turn(t, 0) == r;
  }

  /** A player dealt four cards of its own index does not win before its
      first turn (its flag starts false), but wins on that turn whatever card
      it draws. */
  lemma DealtWinnerWinsOnFirstTurn(t: Table, i: nat)
    requires Wired(t) && i < |t.players|
    requires IsWinningHand(t.players[i].hand, i + 1) && LoopGuard(t, i)
    ensures Turn(t, i).players[i].hasWon
    ensures IsWinningHand(Turn(t, i).players[i].hand, i + 1)
  {
    var p := t.players[i];
    var (p1, left1) := DrawCard(p, t.decks[p.left]);
    var decks1 := t.decks[p.left := left1];
    var (p2, right2) := Discard(p1, decks1[p.right]);
    assert Turn(t, i).players[i] == CheckForWin(p2);
    DrawDiscardKeepsWinningHand(p, t.decks[p.left].cards[0], decks1[p.right]);
  }
}
