/** Player.java without its thread, its locks and its log file: one player's
    draw, discard and win check as functions on values, and the flags through
    which a win is announced to the other players. */
module Players {
  import opened Wrappers
  import opened Cards
  import opened Decks
  import Text

  /** `left` and `right` are positions in the table's list of decks: the deck
      the player draws from and the deck it discards to. `winner` is the
      `playerIndex` of the player recorded as the winner. */
  datatype Player = Player(
    index: int,
    left: nat,
    right: nat,
    hand: seq<Card>,
    hasWon: bool,
    winner: Option<int>,
    denomination: int)

  /** The constructor: an empty hand, no win, no recorded winner, and the
      denomination field still at -1. */
  function NewPlayer(index: int, left: nat, right: nat): (p: Player)
    ensures p.hand == [] && !p.hasWon && p.winner == None
    ensures p.index == index && p.left == left && p.right == right && p.denomination == -1
  {
    Player(index, left, right, [], false, None, -1)
  }

  /** Every card in `hand` shows `v`. */
  predicate AllShow(hand: seq<Card>, v: int) {
    forall k :: 0 <= k < |hand| ==> hand[k].faceValue == v
  }

  /** The hand a player needs: exactly four cards, all showing its own index. */
  predicate IsWinningHand(hand: seq<Card>, index: int) {
    |hand| == 4 && AllShow(hand, index)
  }

  /** The scan in `checkForWin`: stops at the first card not showing `v`. */
  function ScanAllShow(hand: seq<Card>, v: int): (b: bool)
    ensures b <==> AllShow(hand, v)
  {
    if hand == [] then true
    else if hand[0].faceValue != v then false
    else ScanAllShow(hand[1..], v)
  }

  /** The position the search loop in `discardCard` stops at: the first card
      whose value is not `v`, or `|hand|` when there is none. */
  function FirstOther(hand: seq<Card>, v: int): (k: nat)
    ensures k <= |hand|
    ensures forall j :: 0 <= j < k ==> hand[j].faceValue == v
    ensures k < |hand| ==> hand[k].faceValue != v
  {
    if hand == [] then 0
    else if hand[0].faceValue != v then 0
    else 1 + FirstOther(hand[1..], v)
  }

  /** The card `discardCard` gives up: the first one not showing the
      player's own index or, when every card shows it, the first card. */
  function DiscardChoice(hand: seq<Card>, index: int): (k: nat)
    requires |hand| > 0
    ensures k < |hand|
    ensures forall j :: 0 <= j < k ==> hand[j].faceValue == index
    ensures hand[k].faceValue != index || (k == 0 && AllShow(hand, index))
    ensures (exists j :: 0 <= j < |hand| && hand[j].faceValue != index) ==> hand[k].faceValue != index
  {
    var k := FirstOther(hand, index);
    if k < |hand| then k else 0
  }

  /** `hand` without the first card equal to `c` (`List.remove(Object)`). */
  function RemoveFirst(hand: seq<Card>, c: Card): (r: seq<Card>)
    ensures c in hand ==> |r| == |hand| - 1 && multiset(r) + multiset{c} == multiset(hand)
    ensures c !in hand ==> r == hand
  {
    if hand == [] then []
    else
      assert hand == [hand[0]] + hand[1..];
      if hand[0] == c then hand[1..]
      else [hand[0]] + RemoveFirst(hand[1..], c)
  }

  /** Removing the card at position `k` is removing the first card equal to
      it when no earlier card is equal to it. */
  lemma {:induction false} RemoveAtIsRemoveFirst(hand: seq<Card>, k: nat)
    requires k < |hand|
    requires forall j :: 0 <= j < k ==> hand[j] != hand[k]
    ensures RemoveFirst(hand, hand[k]) == hand[..k] + hand[k + 1..]
  {
    var c := hand[k];
    if k == 0 {
      assert RemoveFirst(hand, c) == hand[1..];
      assert hand[..0] + hand[1..] == hand[1..];
    } else {
      assert hand[0] != c && hand[1..][k - 1] == c;
      assert RemoveFirst(hand, c) == [hand[0]] + RemoveFirst(hand[1..], c);
      RemoveAtIsRemoveFirst(hand[1..], k - 1);
      SpliceAfterHead(hand, k);
    }
  }

  /** Cutting position `k` out of a hand's tail and putting the head back is
      cutting position `k` out of the hand. */
  lemma SpliceAfterHead(hand: seq<Card>, k: nat)
    requires 0 < k < |hand|
    ensures [hand[0]] + (hand[1..][..k - 1] + hand[1..][k..]) == hand[..k] + hand[k + 1..]
  {
    assert hand[1..][..k - 1] == hand[1..k];
    assert hand[1..][k..] == hand[k + 1..];
  }

  /** How many cards of the hand show `v`. */
  function CountShowing(hand: seq<Card>, v: int): nat {
    multiset(hand)[Card(v)]
  }

  /** `drawCard`: the top card of the left deck moves to the end of the hand.
      The loop in `run` only calls it after seeing the deck non-empty; the
      null that an empty deck would hand over is not modelled. */
  function DrawCard(p: Player, left: Deck): (r: (Player, Deck))
    requires !IsEmpty(left)
    ensures r.0 == p.(hand := p.hand + [left.cards[0]])
    ensures Contents(r.1) == Contents(left)[1..] && r.1.index == left.index
    ensures multiset(r.0.hand) + multiset(r.1.cards) == multiset(p.hand) + multiset(left.cards)
  {
    var drawn := DrawFromTop(left);
    assert left.cards == [left.cards[0]] + left.cards[1..];
    (p.(hand := p.hand + [drawn.0.value]), drawn.1)
  }

  /** `discardCard`: the chosen card leaves the hand, the others keep their
      order, and the card goes to the bottom of the right deck. The card is
      removed by identity, which is the first card with its value. */
  function Discard(p: Player, right: Deck): (r: (Player, Deck))
    requires |p.hand| > 0
    ensures var k := DiscardChoice(p.hand, p.index);
      && r.0.hand == RemoveFirst(p.hand, p.hand[k])
      && r.0.hand == p.hand[..k] + p.hand[k + 1..]
      && r.1 == InsertAtBottom(right, p.hand[k])
    ensures |r.0.hand| == |p.hand| - 1
    ensures multiset(r.0.hand) + multiset(r.1.cards) == multiset(p.hand) + multiset(right.cards)
    ensures !AllShow(p.hand, p.index) ==> CountShowing(r.0.hand, p.index) == CountShowing(p.hand, p.index)
    ensures r.0 == p.(hand := r.0.hand, denomination := p.index)
  {
    var k := DiscardChoice(p.hand, p.index);
    var c := p.hand[k];
    RemoveAtIsRemoveFirst(p.hand, k);
    assert p.hand == p.hand[..k] + [c] + p.hand[k + 1..];
    (p.(hand := p.hand[..k] + p.hand[k + 1..], denomination := p.index), InsertAtBottom(right, c))
  }

  /** A player holding four cards of its own index keeps four of them through
      a draw and a discard, whatever card it draws: it throws back the drawn
      card, or the first of five equal ones. */
  lemma DrawDiscardKeepsWinningHand(p: Player, c: Card, right: Deck)
    requires IsWinningHand(p.hand, p.index)
    ensures IsWinningHand(Discard(p.(hand := p.hand + [c]), right).0.hand, p.index)
  {
    var h := p.hand + [c];
    var k := DiscardChoice(h, p.index);
    assert k == 0 || k == 4;
    var h' := h[..k] + h[k + 1..];
    assert forall j :: 0 <= j < 4 ==> h'[j].faceValue == p.index;
  }

  /** Drawing from a deck and discarding back onto the same deck, as a lone
      player does: the deck keeps its size, and hand and deck together keep
      their cards. */
  lemma SameDeckTurn(p: Player, d: Deck)
    requires !IsEmpty(d)
    ensures var drawn := DrawCard(p, d);
      var back := Discard(drawn.0, drawn.1);
      && |back.1.cards| == |d.cards|
      && multiset(back.0.hand) + multiset(back.1.cards) == multiset(p.hand) + multiset(d.cards)
  {
    var drawn := DrawCard(p, d);
    assert |drawn.1.cards| + 1 == |d.cards|;
  }

  /** `checkForWin`: sets `hasWon` when the hand is four cards all showing the
      player's index, and never clears it. */
  function CheckForWin(p: Player): (r: Player)
    ensures r.hasWon <==> p.hasWon || IsWinningHand(p.hand, p.index)
    ensures r == p.(hasWon := r.hasWon)
  {
    if |p.hand| == 4 && ScanAllShow(p.hand, p.index) then p.(hasWon := true) else p
  }

  /** `setWinningPlayer`: a present winner is recorded, overwriting any
      earlier one, and marks the player as done; an absent one changes
      nothing. */
  function SetWinningPlayer(p: Player, w: Option<int>): (r: Player)
    ensures w == None ==> r == p
    ensures w != None ==> r.winner == w && r.hasWon
    ensures r.hand == p.hand && r.index == p.index && r.left == p.left && r.right == p.right
  {
    if w.Some? then p.(winner := w, hasWon := true) else p
  }

  /** The winner slot is not write-once: of two announcements the later one
      stays, and announcing the same winner again changes nothing. */
  lemma LastAnnouncementWins(p: Player, a: int, b: int)
    ensures SetWinningPlayer(SetWinningPlayer(p, Some(a)), Some(b)) == SetWinningPlayer(p, Some(b))
    ensures SetWinningPlayer(SetWinningPlayer(p, Some(a)), Some(a)) == SetWinningPlayer(p, Some(a))
    ensures SetWinningPlayer(p, Some(a)).winner == Some(a)
  {
  }

  /** Applies `SetWinningPlayer(_, w)` to every player but the one at
      position `skip`. */
  function NotifyAllBut(players: seq<Player>, skip: int, w: Option<int>): (r: seq<Player>)
    ensures |r| == |players|
    ensures forall j :: 0 <= j < |players| ==>
      r[j] == (if j == skip then players[j] else SetWinningPlayer(players[j], w))
  {
    if players == [] then []
    else
      [if skip == 0 then players[0] else SetWinningPlayer(players[0], w)]
      + NotifyAllBut(players[1..], skip - 1, w)
  }

  /** `notifyOtherPlayers`: every other player of the roster receives this
      player's recorded winner; this player is left alone. */
  function NotifyOtherPlayers(players: seq<Player>, self: nat): (r: seq<Player>)
    requires self < |players|
    ensures |r| == |players| && r[self] == players[self]
    ensures forall j :: 0 <= j < |players| ==> r[j].hand == players[j].hand
    ensures players[self].winner == None ==> r == players
    ensures players[self].winner != None ==>
      forall j :: 0 <= j < |players| && j != self ==>
        r[j].winner == players[self].winner && r[j].hasWon
  {
    NotifyAllBut(players, self, players[self].winner)
  }

  /** `declareWin` without its log lines: the player records itself as the
      winner and then notifies everyone else, so that afterwards every
      player holds it as the winner and has `hasWon` set. */
  function DeclareWin(players: seq<Player>, self: nat): (r: seq<Player>)
    requires self < |players|
    ensures |r| == |players|
    ensures forall j :: 0 <= j < |players| ==>
      && r[j].winner == Some(players[self].index)
      && r[j].hasWon
      && r[j].hand == players[j].hand
      && r[j].index == players[j].index
      && r[j].left == players[j].left
      && r[j].right == players[j].right
  {
    var me := SetWinningPlayer(players[self], Some(players[self].index));
    NotifyOtherPlayers(players[self := me], self)
  }

  /** `getHandContents`: the face values in hand order, separated by single
      spaces; reading the line back yields the values again. */
  function HandContents(hand: seq<Card>): (s: string)
    ensures ReadHand(s) == Some(Values(hand))
    ensures s == Text.JoinSpaced(Words(hand))
  {
    ContentsReadBack(hand);
    Text.TrimmedTerminatedIsJoined(Words(hand));
    Text.Trim(Text.Terminated(Words(hand)))
  }

  lemma ContentsReadBack(hand: seq<Card>)
    ensures ReadHand(Text.Trim(Text.Terminated(Words(hand)))) == Some(Values(hand))
  {
    var fields := Words(hand);
    Text.TrimmedTerminatedIsJoined(fields);
    if hand != [] {
      Text.SplitJoin(fields);
      Text.JoinedWordEnds(fields);
      ReadAllWords(hand);
    }
  }

  function Words(hand: seq<Card>): (fields: seq<string>)
    ensures |fields| == |hand|
    ensures forall i :: 0 <= i < |hand| ==> fields[i] == ToString(hand[i])
    ensures Text.AllWords(fields)
  {
    if hand == [] then [] else [ToString(hand[0])] + Words(hand[1..])
  }

  /** Reads a space-separated line of integers. */
  function ReadHand(s: string): Option<seq<int>> {
    if s == "" then Some([]) else ReadFields(Text.SplitSpaced(s))
  }

  function ReadFields(fields: seq<string>): Option<seq<int>> {
    if fields == [] then Some([])
    else match (Text.ParseInt(fields[0]), ReadFields(fields[1..]))
      case (Some(v), Some(vs)) => Some([v] + vs)
      case _ => None
  }

  lemma {:induction false} ReadAllWords(hand: seq<Card>)
    ensures ReadFields(Words(hand)) == Some(Values(hand))
  {
    if hand != [] {
      ReadAllWords(hand[1..]);
      assert Words(hand)[1..] == Words(hand[1..]);
      assert Values(hand) == [hand[0].faceValue] + Values(hand[1..]);
    }
  }
}
