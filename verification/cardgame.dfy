/** CardGame.java without its console and files: the start-up checks, the
    ring wiring of decks and players, the deal, and the end-of-game report. */
module CardGame {
  import opened Wrappers
  import opened Cards
  import opened Decks
  import opened Players
  import opened Piles
  import opened Game

  /** Why the driver stops before any thread starts. `PackTooShort` stands for
      the uncaught `IndexOutOfBoundsException` the deal throws when a pack of
      valid length holds fewer than four cards per player. */
  datatype SetupError = InvalidPlayerCount | InvalidPackSize | PackTooShort

  /** The length check at the end of `readInputPack`: the pack is kept only
      when its length is a multiple of 8. The player count plays no part, so
      the empty pack passes. */
  function CheckPack(pack: seq<int>): (r: Result<seq<int>, SetupError>)
    ensures r.Success? <==> |pack| % 8 == 0
    ensures r.Success? ==> r.value == pack
    ensures r.Failure? ==> r.error == InvalidPackSize
  {
    if |pack| % 8 != 0 then Failure(InvalidPackSize) else Success(pack)
  }

  /** The two construction loops of `main`: `n` decks with indices 1..n, and
      player `i + 1` drawing from deck `i` and discarding to deck
      `(i + 1) mod n`. Each player's sink is the next player's source. */
  function BuildTable(n: nat): (t: Table)
    requires n > 0
    ensures Wired(t) && |t.players| == n
    ensures RingLinked(t)
    ensures forall i :: 0 <= i < n ==>
      t.players[i].hand == [] && !t.players[i].hasWon && t.players[i].winner == None
    ensures forall i :: 0 <= i < n ==> t.decks[i].cards == []
  {
    Table(seq(n, i requires 0 <= i < n => NewPlayer(i + 1, i, (i + 1) % n)),
          seq(n, i requires 0 <= i < n => SetIndex(NewDeck(), i + 1)))
  }

  /** Integer division pinned down by its defining equation. */
  lemma DivModUnique(x: int, n: int, q: int, r: int)
    requires n > 0 && 0 <= r < n && x == q * n + r
    ensures x / n == q && x % n == r
  {
    var q', r' := x / n, x % n;
    assert x == q' * n + r';
    if q' < q {
      assert (q - q') * n == r' - r;
      MulAtLeast(q - q', n);
    } else if q' > q {
      assert (q' - q) * n == r - r';
      MulAtLeast(q' - q, n);
    }
  }

  lemma MulAtLeast(a: int, n: int)
    requires a >= 1 && n > 0
    ensures a * n >= n
  {
  }

  /** The current position in the deck-filling loop. */
  lemma NextSeat(cur: int, n: int)
    requires 0 <= cur < n
    ensures (cur + 1) % n == if cur + 1 < n then cur + 1 else 0
  {
    if cur + 1 < n {
      DivModUnique(cur + 1, n, 0, cur + 1);
    } else {
      DivModUnique(cur + 1, n, 1, 0);
    }
  }

  /** Cards dealt round-robin to `n` seats from `s` all land, for the seat
      starting at position `from`, on positions `from`, `from + n`,
      `from + 2n`, ... in order. */
  function EveryNth(s: seq<int>, from: nat, n: nat): seq<Card>
    requires n > 0
    decreases |s| - from
  {
    if from >= |s| then [] else [Card(s[from])] + EveryNth(s, from + n, n)
  }

  /** Dropping the first card moves every seat's next position one closer. */
  lemma {:induction false} EveryNthShift(s: seq<int>, from: nat, n: nat)
    requires n > 0 && |s| > 0 && from >= 1
    ensures EveryNth(s, from, n) == EveryNth(s[1..], from - 1, n)
    decreases |s| - from
  {
    if from < |s| {
      EveryNthShift(s, from + n, n);
    }
  }

  /** The closed form of a seat's cards: its `m`-th card is card `from + m*n`,
      and it gets every such card the sequence has. */
  lemma {:induction false} EveryNthLayout(s: seq<int>, from: nat, n: nat)
    requires n > 0
    ensures var len := |EveryNth(s, from, n)|;
      && from + len * n >= |s|
      && (len > 0 ==> from + (len - 1) * n < |s|)
    ensures forall m :: 0 <= m < |EveryNth(s, from, n)| ==>
      from + m * n < |s| && EveryNth(s, from, n)[m] == Card(s[from + m * n])
    decreases |s| - from
  {
    var e := EveryNth(s, from, n);
    if from < |s| {
      EveryNthLayout(s, from + n, n);
      var rest := EveryNth(s, from + n, n);
      assert e == [Card(s[from])] + rest;
      MulSucc(|rest|, n);
      forall m | 0 <= m < |e|
        ensures from + m * n < |s| && e[m] == Card(s[from + m * n])
      {
        if m > 0 {
          MulSucc(m - 1, n);
          assert e[m] == rest[m - 1];
        }
      }
    }
  }

  /** One more round moves a seat `n` cards further. */
  lemma MulSucc(a: int, n: int)
    ensures (a + 1) * n == a * n + n
  {
  }

  /** With exactly `4n` cards every seat gets four: cards `d`, `n + d`,
      `2n + d` and `3n + d`. */
  lemma FourRounds(s: seq<int>, d: nat, n: nat)
    requires n > 0 && |s| == 4 * n && d < n
    ensures EveryNth(s, d, n) == [Card(s[d]), Card(s[n + d]), Card(s[2 * n + d]), Card(s[3 * n + d])]
  {
    var p1, p2, p3, p4 := n + d, 2 * n + d, 3 * n + d, 4 * n + d;
    assert p1 == d + n && p2 == p1 + n && p3 == p2 + n && p4 == p3 + n;
    var e4 := EveryNth(s, p4, n);
    assert e4 == [];
    var e3 := EveryNth(s, p3, n);
    assert e3 == [Card(s[p3])] + e4;
    var e2 := EveryNth(s, p2, n);
    assert e2 == [Card(s[p2])] + e3;
    var e1 := EveryNth(s, p1, n);
    assert e1 == [Card(s[p1])] + e2;
    assert EveryNth(s, d, n) == [Card(s[d])] + e1;
  }

  /** FourRounds for the first `4n` cards of a longer pack, in positions of
      the pack itself. */
  lemma FourRoundsOfPrefix(pack: seq<int>, d: nat, n: nat)
    requires n > 0 && |pack| >= 4 * n && d < n
    ensures EveryNth(pack[..4 * n], d, n)
         == [Card(pack[d]), Card(pack[n + d]), Card(pack[2 * n + d]), Card(pack[3 * n + d])]
  {
    var s := pack[..4 * n];
    FourRounds(s, d, n);
    assert s[d] == pack[d] && s[n + d] == pack[n + d];
    assert s[2 * n + d] == pack[2 * n + d] && s[3 * n + d] == pack[3 * n + d];
  }

  /** How far seat `d` is from the seat `cur` about to be served, going round
      the ring. */
  function Offset(d: nat, cur: nat, n: nat): nat
    requires d < n && cur <= n
  {
    if d >= cur then d - cur else d + n - cur
  }

  /** Round-robin bookkeeping part-way through a deal from `s`: `r` is what
      is left of `s`, seat `cur` is served next, and every seat's cards so
      far followed by the cards still coming to it make up its full share. */
  predicate RoundRobinSoFar(piles: seq<seq<Card>>, r: seq<int>, s: seq<int>, cur: nat, n: nat)
    requires n > 0 && cur <= n && |piles| == n
  {
    forall d :: 0 <= d < n ==> piles[d] + EveryNth(r, Offset(d, cur, n), n) == EveryNth(s, d, n)
  }

  /** Serving seat `cur` the first card of `r` keeps the bookkeeping: the
      served seat's next card is `n - 1` further on, every other seat's one
      nearer. */
  lemma ServeOne(piles: seq<seq<Card>>, r: seq<int>, s: seq<int>, cur: nat, n: nat)
    requires n > 0 && cur < n && |piles| == n && |r| > 0
    requires RoundRobinSoFar(piles, r, s, cur, n)
    ensures RoundRobinSoFar(piles[cur := piles[cur] + [Card(r[0])]], r[1..], s, cur + 1, n)
  {
    var piles' := piles[cur := piles[cur] + [Card(r[0])]];
    forall d | 0 <= d < n
      ensures piles'[d] + EveryNth(r[1..], Offset(d, cur + 1, n), n) == EveryNth(s, d, n)
    {
      if d == cur {
        EveryNthShift(r, n, n);
        assert EveryNth(r, 0, n) == [Card(r[0])] + EveryNth(r, n, n);
        assert piles[cur] + [Card(r[0])] + EveryNth(r[1..], n - 1, n)
            == piles[cur] + ([Card(r[0])] + EveryNth(r, n, n));
      } else {
        EveryNthShift(r, Offset(d, cur, n), n);
      }
    }
  }

  /** Seat `n` is seat 0 again. */
  lemma WrapSeat(piles: seq<seq<Card>>, r: seq<int>, s: seq<int>, n: nat)
    requires n > 0 && |piles| == n
    requires RoundRobinSoFar(piles, r, s, n, n)
    ensures RoundRobinSoFar(piles, r, s, 0, n)
  {
    assert forall d :: 0 <= d < n ==> Offset(d, 0, n) == Offset(d, n, n);
  }

  /** Moving the first card of `r` onto pile `j` keeps the multiset of all
      cards. */
  lemma MoveFront(piles: seq<seq<Card>>, r: seq<int>, j: nat, total: multiset<Card>)
    requires j < |piles| && |r| > 0
    requires multiset(Flatten(piles)) + multiset(CardsOf(r)) == total
    ensures multiset(Flatten(piles[j := piles[j] + [Card(r[0])]])) + multiset(CardsOf(r[1..])) == total
  {
    var c := Card(r[0]);
    assert CardsOf(r) == [c] + CardsOf(r[1..]);
    FlattenUpdate(piles, j, piles[j] + [c]);
    var before, after := multiset(Flatten(piles)), multiset(Flatten(piles[j := piles[j] + [c]]));
    forall x: Card
      ensures after[x] == (before + multiset{c})[x]
    {
      assert (after + multiset(piles[j]))[x] == (before + multiset(piles[j] + [c]))[x];
    }
    assert after == before + multiset{c};
    assert multiset(CardsOf(r)) == multiset{c} + multiset(CardsOf(r[1..]));
  }

  /** The start of round `i` in the first half of the deal. */
  function RoundStart(i: nat, n: nat): nat
    requires i <= 4
  {
    if i == 0 then 0 else if i == 1 then n else if i == 2 then 2 * n else if i == 3 then 3 * n else 4 * n
  }

  lemma NextRound(i: nat, n: nat)
    requires i < 4
    ensures RoundStart(i, n) + n == RoundStart(i + 1, n) <= 4 * n
  {
  }

  /** `distributeHands`: four rounds dealing one card to each player in
      roster order, then the rest of the pack round-robin onto the decks,
      starting at player 0's deck (by the ring wiring, player `j` draws from
      deck `j`). So hand `j` is cards `j, n + j, 2n + j, 3n + j` of the pack,
      and deck `d` receives leftover cards `d, d + n, d + 2n, ...`. */
  method Distribute(n: nat, pack: seq<int>) returns (hands: seq<seq<Card>>, piles: seq<seq<Card>>)
    requires n > 0 && |pack| >= 4 * n
    ensures |hands| == n && |piles| == n
    ensures forall j :: 0 <= j < n ==> hands[j] == EveryNth(pack[..4 * n], j, n)
    ensures forall d :: 0 <= d < n ==> piles[d] == EveryNth(pack[4 * n..], d, n)
    ensures multiset(Flatten(hands)) + multiset(Flatten(piles)) == multiset(CardsOf(pack))
  {
    var rest;
    hands, rest := DealHands(n, pack);
    piles := FillDecks(n, rest);
  }

  /** The first half of `distributeHands`: four rounds of one card per player
      in roster order, each card taken off the front of the pack. */
  method DealHands(n: nat, pack: seq<int>) returns (hands: seq<seq<Card>>, rest: seq<int>)
    requires n > 0 && |pack| >= 4 * n
    ensures |hands| == n && rest == pack[4 * n..]
    ensures forall j :: 0 <= j < n ==> hands[j] == EveryNth(pack[..4 * n], j, n)
    ensures multiset(Flatten(hands)) + multiset(CardsOf(rest)) == multiset(CardsOf(pack))
  {
    ghost var dealt := pack[..4 * n];
    ghost var todo := dealt;
    hands := EmptyPiles(n);
    rest := pack;
    assert rest == todo + pack[4 * n..];
    var i := 0;
    while i < 4
      invariant 0 <= i <= 4
      invariant |todo| == 4 * n - RoundStart(i, n)
      invariant rest == todo + pack[4 * n..]
      invariant |hands| == n
      invariant RoundRobinSoFar(hands, todo, dealt, 0, n)
      invariant multiset(Flatten(hands)) + multiset(CardsOf(rest)) == multiset(CardsOf(pack))
    {
      NextRound(i, n);
      hands, rest, todo := DealRound(n, hands, rest, todo, dealt, pack[4 * n..], multiset(CardsOf(pack)));
      i := i + 1;
    }
    assert todo == [];
  }

  /** The bookkeeping of one card dealt from the front of the pack to hand
      `j`. */
  lemma DealStep(hands: seq<seq<Card>>, rest: seq<int>, todo: seq<int>, dealt: seq<int>,
                 tail: seq<int>, total: multiset<Card>, j: nat, n: nat)
    requires n > 0 && j < n && |hands| == n && |todo| > 0
    requires rest == todo + tail
    requires RoundRobinSoFar(hands, todo, dealt, j, n)
    requires multiset(Flatten(hands)) + multiset(CardsOf(rest)) == total
    ensures rest[0] == todo[0] && rest[1..] == todo[1..] + tail
    ensures RoundRobinSoFar(hands[j := hands[j] + [Card(rest[0])]], todo[1..], dealt, j + 1, n)
    ensures multiset(Flatten(hands[j := hands[j] + [Card(rest[0])]])) + multiset(CardsOf(rest[1..])) == total
  {
    assert rest[0] == todo[0];
    assert rest[1..] == todo[1..] + tail;
    ServeOne(hands, todo, dealt, j, n);
    MoveFront(hands, rest, j, total);
  }

  /** One pass of the inner loop of `distributeHands`: the front card of the
      pack to each player in turn. `todo` is what is left of the cards meant
      for hands, `tail` the cards meant for the decks. */
  method DealRound(n: nat, hands: seq<seq<Card>>, rest: seq<int>,
                   ghost todo: seq<int>, ghost dealt: seq<int>, ghost tail: seq<int>,
                   ghost total: multiset<Card>)
    returns (hands': seq<seq<Card>>, rest': seq<int>, ghost todo': seq<int>)
    requires n > 0 && |hands| == n && |todo| >= n
    requires rest == todo + tail
    requires RoundRobinSoFar(hands, todo, dealt, 0, n)
    requires multiset(Flatten(hands)) + multiset(CardsOf(rest)) == total
    ensures |hands'| == n && todo' == todo[n..] && rest' == todo' + tail
    ensures RoundRobinSoFar(hands', todo', dealt, 0, n)
    ensures multiset(Flatten(hands')) + multiset(CardsOf(rest')) == total
  {
    hands', rest', todo' := hands, rest, todo;
    var j := 0;
    while j < n
      invariant 0 <= j <= n
      invariant todo' == todo[j..] && rest' == todo' + tail
      invariant |hands'| == n
      invariant RoundRobinSoFar(hands', todo', dealt, j, n)
      invariant multiset(Flatten(hands')) + multiset(CardsOf(rest')) == total
    {
      var value := rest'[0];
      DealStep(hands', rest', todo', dealt, tail, total, j, n);
      assert todo'[1..] == todo[j + 1..];
      hands' := hands'[j := hands'[j] + [Card(value)]];
      rest' := rest'[1..];
      todo' := todo'[1..];
      j := j + 1;
    }
    WrapSeat(hands', todo', dealt, n);
  }

  /** The second half of `distributeHands`: the remaining cards in order, one
      per deck round-robin; `cur` is the Java loop's `currentDeckIndex`. */
  method FillDecks(n: nat, rest: seq<int>) returns (piles: seq<seq<Card>>)
    requires n > 0
    ensures |piles| == n
    ensures forall d :: 0 <= d < n ==> piles[d] == EveryNth(rest, d, n)
    ensures multiset(Flatten(piles)) == multiset(CardsOf(rest))
  {
    piles := EmptyPiles(n);
    var remaining := rest;
    var cur := 0;
    while remaining != []
      invariant 0 <= cur < n
      invariant |piles| == n
      invariant RoundRobinSoFar(piles, remaining, rest, cur, n)
      invariant multiset(Flatten(piles)) + multiset(CardsOf(remaining)) == multiset(CardsOf(rest))
      decreases |remaining|
    {
      var value := remaining[0];
      ServeOne(piles, remaining, rest, cur, n);
      MoveFront(piles, remaining, cur, multiset(CardsOf(rest)));
      piles := piles[cur := piles[cur] + [Card(value)]];
      remaining := remaining[1..];
      if cur + 1 == n {
        WrapSeat(piles, remaining, rest, n);
      }
      NextSeat(cur, n);
      cur := (cur + 1) % n;
    }
  }

  /** The table right after the deal: ring wiring, every hand and deck laid
      out as `Distribute` promises, no flags set, and the pack's cards all on
      the table. */
  predicate Dealt(t: Table, pack: seq<int>) {
    && Wired(t)
    && |pack| >= 4 * |t.players|
    && HandsDealt(t, pack)
    && DecksFilled(t, pack)
    && NoWinYet(t)
    && multiset(AllCards(t)) == multiset(CardsOf(pack))
  }

  /** Hand `j` holds every `n`-th of the first `4n` pack cards from `j` on. */
  predicate HandsDealt(t: Table, pack: seq<int>)
    requires |t.players| > 0 && |pack| >= 4 * |t.players|
  {
    var n := |t.players|;
    forall j :: 0 <= j < n ==> t.players[j].hand == EveryNth(pack[..4 * n], j, n)
  }

  /** Deck `d` holds every `n`-th of the remaining pack cards from `d` on. */
  predicate DecksFilled(t: Table, pack: seq<int>)
    requires Wired(t) && |pack| >= 4 * |t.players|
  {
    var n := |t.players|;
    forall d :: 0 <= d < n ==> t.decks[d].cards == EveryNth(pack[4 * n..], d, n)
  }

  /** No player has won or heard of a winner. */
  predicate NoWinYet(t: Table) {
    forall j :: 0 <= j < |t.players| ==> !t.players[j].hasWon && t.players[j].winner == None
  }

  /** After the deal, player `j` holds cards `j, n + j, 2n + j, 3n + j` of
      the pack. */
  lemma DealtHands(t: Table, pack: seq<int>, j: nat)
    requires |pack| >= 4 * |t.players| && j < |t.players| && HandsDealt(t, pack)
    ensures var n := |t.players|;
      t.players[j].hand == [Card(pack[j]), Card(pack[n + j]), Card(pack[2 * n + j]), Card(pack[3 * n + j])]
  {
    assert t.players[j].hand == EveryNth(pack[..4 * |t.players|], j, |t.players|);
    FourRoundsOfPrefix(pack, j, |t.players|);
  }

  /** After the deal, the `m`-th card of deck `d` is leftover card
      `d + m*n` (pack card `4n + d + m*n`): the `k`-th leftover card went to
      deck `k mod n`, behind the ones dealt there before it. */
  lemma DealtDecks(t: Table, pack: seq<int>, d: nat)
    requires Wired(t) && |pack| >= 4 * |t.players| && d < |t.players| && DecksFilled(t, pack)
    ensures var n := |t.players|;
      forall m :: 0 <= m < |t.decks[d].cards| ==>
        4 * n + d + m * n < |pack| && t.decks[d].cards[m] == Card(pack[4 * n + d + m * n])
    ensures var n, len := |t.players|, |t.decks[d].cards|;
      4 * n + d + len * n >= |pack| && (len > 0 ==> 4 * n + d + (len - 1) * n < |pack|)
  {
    var n := |t.players|;
    assert t.decks[d].cards == EveryNth(pack[4 * n..], d, n);
    ShiftedLayout(pack, 4 * n, d, n);
  }

  /** EveryNthLayout for a suffix of `s` starting at `base`, in positions of
      `s` itself. */
  lemma ShiftedLayout(s: seq<int>, base: nat, from: nat, n: nat)
    requires n > 0 && base <= |s|
    ensures var e := EveryNth(s[base..], from, n);
      forall m :: 0 <= m < |e| ==> base + from + m * n < |s| && e[m] == Card(s[base + from + m * n])
    ensures var len := |EveryNth(s[base..], from, n)|;
      base + from + len * n >= |s| && (len > 0 ==> base + from + (len - 1) * n < |s|)
  {
    var e := EveryNth(s[base..], from, n);
    EveryNthLayout(s[base..], from, n);
    forall m | 0 <= m < |e|
      ensures base + from + m * n < |s| && e[m] == Card(s[base + from + m * n])
    {
      assert s[base..][from + m * n] == s[base + from + m * n];
    }
  }

  /** `main` up to the point where the threads start: validate the player
      count, validate the pack, build the ring, deal. */
  method Setup(numPlayers: int, pack: seq<int>) returns (r: Result<Table, SetupError>)
    ensures numPlayers <= 0 ==> r == Failure(InvalidPlayerCount)
    ensures numPlayers > 0 && |pack| % 8 != 0 ==> r == Failure(InvalidPackSize)
    ensures numPlayers > 0 && |pack| % 8 == 0 && |pack| < 4 * numPlayers ==> r == Failure(PackTooShort)
    ensures r.Success? <==> numPlayers > 0 && |pack| % 8 == 0 && |pack| >= 4 * numPlayers
    ensures r.Success? ==> |r.value.players| == numPlayers && Dealt(r.value, pack)
  {
    if numPlayers <= 0 {
      return Failure(InvalidPlayerCount);
    }
    var checked := CheckPack(pack);
    if checked.Failure? {
      return Failure(checked.error);
    }
    var n := numPlayers;
    var table := BuildTable(n);
    if |pack| < 4 * n {
      return Failure(PackTooShort);
    }
    var hands, piles := Distribute(n, pack);
    LayOutDealt(table, hands, piles, pack);
    r := Success(LayOut(table, hands, piles));
  }

  /** The freshly built ring with the dealt hands and decks put in place. */
  function LayOut(t: Table, hands: seq<seq<Card>>, piles: seq<seq<Card>>): Table
    requires |hands| == |t.players| && |piles| == |t.decks|
  {
    Table(seq(|t.players|, j requires 0 <= j < |t.players| => t.players[j].(hand := hands[j])),
          seq(|t.decks|, d requires 0 <= d < |t.decks| => t.decks[d].(cards := piles[d])))
  }

  /** Putting what `Distribute` dealt onto a freshly built ring gives a
      table in the state `Dealt` describes. */
  lemma LayOutDealt(t: Table, hands: seq<seq<Card>>, piles: seq<seq<Card>>, pack: seq<int>)
    requires Wired(t) && |pack| >= 4 * |t.players|
    requires NoWinYet(t)
    requires var n := |t.players|;
      && |hands| == n && |piles| == n
      && (forall j :: 0 <= j < n ==> hands[j] == EveryNth(pack[..4 * n], j, n))
      && (forall d :: 0 <= d < n ==> piles[d] == EveryNth(pack[4 * n..], d, n))
      && multiset(Flatten(hands)) + multiset(Flatten(piles)) == multiset(CardsOf(pack))
    ensures Dealt(LayOut(t, hands, piles), pack) && |LayOut(t, hands, piles).players| == |t.players|
  {
    var n := |t.players|;
    var u := LayOut(t, hands, piles);
    LayOutShape(t, hands, piles);
    LayOutLaid(t, hands, piles, pack);
    assert NoWinYet(u) by {
      forall j | 0 <= j < n
        ensures !u.players[j].hasWon && u.players[j].winner == None
      {
        assert u.players[j] == t.players[j].(hand := hands[j]);
      }
    }
  }

  /** LayOut puts each dealt hand and pile where `Dealt` expects it. */
  lemma LayOutLaid(t: Table, hands: seq<seq<Card>>, piles: seq<seq<Card>>, pack: seq<int>)
    requires Wired(t) && |pack| >= 4 * |t.players|
    requires var n := |t.players|;
      && |hands| == n && |piles| == n
      && (forall j :: 0 <= j < n ==> hands[j] == EveryNth(pack[..4 * n], j, n))
      && (forall d :: 0 <= d < n ==> piles[d] == EveryNth(pack[4 * n..], d, n))
    ensures Wired(LayOut(t, hands, piles))
    ensures HandsDealt(LayOut(t, hands, piles), pack) && DecksFilled(LayOut(t, hands, piles), pack)
  {
    var n := |t.players|;
    var u := LayOut(t, hands, piles);
    LayOutShape(t, hands, piles);
    forall j | 0 <= j < n
      ensures u.players[j].hand == EveryNth(pack[..4 * n], j, n)
      ensures u.decks[j].cards == EveryNth(pack[4 * n..], j, n)
    {
      assert u.players[j].hand == hands[j];
      assert u.decks[j].cards == piles[j];
    }
  }

  /** LayOut keeps the ring and changes only the hands and the deck
      contents. */
  lemma LayOutShape(t: Table, hands: seq<seq<Card>>, piles: seq<seq<Card>>)
    requires Wired(t) && |hands| == |t.players| && |piles| == |t.decks|
    ensures var u := LayOut(t, hands, piles);
      && Wired(u) && |u.players| == |t.players|
      && Hands(u) == hands && DeckCards(u) == piles
      && (forall j :: 0 <= j < |t.players| ==> u.players[j] == t.players[j].(hand := hands[j]))
      && (forall d :: 0 <= d < |t.decks| ==> u.decks[d] == t.decks[d].(cards := piles[d]))
  {
    var n := |t.players|;
    var u := LayOut(t, hands, piles);
    forall j | 0 <= j < n
      ensures u.players[j] == t.players[j].(hand := hands[j])
      ensures u.decks[j] == t.decks[j].(cards := piles[j])
    {
    }
    assert Hands(u) == hands;
    assert DeckCards(u) == piles;
  }

  /** With the intended pack size of 8 cards per player, each hand and each
      deck starts with exactly four cards, 8n cards in all. */
  lemma EightPerPlayerDeal(t: Table, pack: seq<int>)
    requires Dealt(t, pack) && |pack| == 8 * |t.players|
    ensures FourCardHands(t)
    ensures forall d :: 0 <= d < |t.decks| ==> |t.decks[d].cards| == 4
    ensures CardCount(t) == 8 * |t.players|
  {
    var n := |t.players|;
    forall d | 0 <= d < n
      ensures |t.decks[d].cards| == 4 && |t.players[d].hand| == 4
    {
      FourRounds(pack[4 * n..], d, n);
      FourRounds(pack[..4 * n], d, n);
    }
    CountIsAllCards(t);
    assert |CardsOf(pack)| == |pack|;
    assert |multiset(AllCards(t))| == |multiset(CardsOf(pack))|;
  }

  /** Conservation from the deal onwards: whatever the schedule, the table
      holds exactly the cards of the pack, and with 8 cards per player every
      hand keeps four cards. */
  lemma PlayConservesPack(t: Table, pack: seq<int>, steps: seq<Step>)
    requires Dealt(t, pack)
    ensures multiset(AllCards(Run(t, steps))) == multiset(CardsOf(pack))
    ensures CardCount(Run(t, steps)) == |pack|
    ensures |pack| == 8 * |t.players| ==> FourCardHands(Run(t, steps))
  {
    RunConserves(t, steps);
    CountIsAllCards(Run(t, steps));
    assert |multiset(AllCards(Run(t, steps)))| == |multiset(CardsOf(pack))|;
    if |pack| == 8 * |t.players| {
      EightPerPlayerDeal(t, pack);
      RunKeepsFourCardHands(t, steps);
    }
  }

  /** A hand of exactly four cards all showing the same value. */
  predicate FourOfAKind(hand: seq<Card>) {
    |hand| == 4 && AllShow(hand, hand[0].faceValue)
  }

  /** `allCardsHaveSameValue`: every card shows the value of the first card.
      The caller only asks about four-card hands, so the hand is not empty. */
  method AllCardsHaveSameValue(hand: seq<Card>) returns (same: bool)
    requires |hand| > 0
    ensures same <==> AllShow(hand, hand[0].faceValue)
  {
    var first := hand[0].faceValue;
    var k := 0;
    while k < |hand|
      invariant 0 <= k <= |hand|
      invariant forall j :: 0 <= j < k ==> hand[j].faceValue == first
    {
      if hand[k].faceValue != first {
        return false;
      }
      k := k + 1;
    }
    return true;
  }

  /** `getWinningPlayer`: the position of the first player in roster order
      holding four cards of one value, whatever that value is, or `None`. */
  function GetWinningPlayer(players: seq<Player>): (w: Option<nat>)
    ensures w != None ==> w.value < |players| && FourOfAKind(players[w.value].hand)
    ensures w != None ==> forall j :: 0 <= j < w.value ==> !FourOfAKind(players[j].hand)
    ensures w == None ==> forall j :: 0 <= j < |players| ==> !FourOfAKind(players[j].hand)
  {
    if players == [] then None
    else if |players[0].hand| == 4 && ScanAllShow(players[0].hand, players[0].hand[0].faceValue) then Some(0)
    else match GetWinningPlayer(players[1..])
      case None => None
      case Some(k) => Some(k + 1)
  }

  /** The report `main` evidently means to make: the position of the first
      player in roster order holding a winning hand, four cards of its own
      index, or `None`. */
  function WinnerReport(players: seq<Player>): (w: Option<nat>)
    ensures w != None ==> w.value < |players| && IsWinningHand(players[w.value].hand, players[w.value].index)
    ensures w != None ==> forall j :: 0 <= j < w.value ==> !IsWinningHand(players[j].hand, players[j].index)
    ensures w == None ==> forall j :: 0 <= j < |players| ==> !IsWinningHand(players[j].hand, players[j].index)
  {
    if players == [] then None
    else if |players[0].hand| == 4 && ScanAllShow(players[0].hand, players[0].index) then Some(0)
    else match WinnerReport(players[1..])
      case None => None
      case Some(k) => Some(k + 1)
  }

  /** Whatever the schedule, once some player holds a winning hand the
      corrected report names a player, that one or an earlier one in roster
      order, and the player it names holds a winning hand. */
  lemma WinnerIsReported(t: Table, steps: seq<Step>, i: nat)
    requires Wired(t) && i < |t.players| && IsWinningHand(t.players[i].hand, i + 1)
    ensures var w := WinnerReport(Run(t, steps).players);
      w != None && w.value <= i && IsWinningHand(Run(t, steps).players[w.value].hand, w.value + 1)
  {
    RunKeepsWinningHand(t, steps, i);
  }

  /** A pack for two players: player 1 is dealt four 3s, player 2 four 2s,
      and every deck card is a 5. */
  function ExamplePack(): seq<int> {
    [3, 2, 3, 2, 3, 2, 3, 2, 5, 5, 5, 5, 5, 5, 5, 5]
  }

  /** The table `main` builds from ExamplePack for two players. */
  function ExampleTable(): Table {
    var fives := [Card(5), Card(5), Card(5), Card(5)];
    Table([Player(1, 0, 1, [Card(3), Card(3), Card(3), Card(3)], false, None, -1),
           Player(2, 1, 0, [Card(2), Card(2), Card(2), Card(2)], false, None, -1)],
          [Deck(1, fives), Deck(2, fives)])
  }

  /** ExampleTable is laid out as dealing ExamplePack to two players lays
      out a table. */
  lemma ExampleIsDealt()
    ensures var t, pack := ExampleTable(), ExamplePack();
      Wired(t) && |pack| == 8 * |t.players| && HandsDealt(t, pack) && DecksFilled(t, pack) && NoWinYet(t)
  {
    ExampleHands();
    ExampleDecks();
  }

  lemma ExampleHands()
    ensures Wired(ExampleTable()) && HandsDealt(ExampleTable(), ExamplePack())
  {
    var t, pack := ExampleTable(), ExamplePack();
    FourRoundsOfPrefix(pack, 0, 2);
    FourRoundsOfPrefix(pack, 1, 2);
    assert t.players[0].hand == EveryNth(pack[..8], 0, 2);
    assert t.players[1].hand == EveryNth(pack[..8], 1, 2);
  }

  lemma ExampleDecks()
    ensures Wired(ExampleTable()) && DecksFilled(ExampleTable(), ExamplePack())
  {
    var t, rest := ExampleTable(), ExamplePack()[8..];
    assert rest == [5, 5, 5, 5, 5, 5, 5, 5];
    FourRounds(rest, 0, 2);
    FourRounds(rest, 1, 2);
    assert t.decks[0].cards == EveryNth(rest, 0, 2);
    assert t.decks[1].cards == EveryNth(rest, 1, 2);
  }

  /** `n` copies of one card. */
  function Copies(n: nat, c: Card): seq<Card> {
    seq(n, _ => c)
  }

  /** The table once player 1 has taken `k` of its turns from the layout
      ExampleTable has: it holds 4 - k threes followed by k fives, its left
      deck holds the 4 - k fives it has not drawn, the threes it threw away
      lie under the four fives of player 2's left deck, and player 2 still
      holds a winning hand it has not played. */
  predicate FirstPlayerAfter(t: Table, k: nat) {
    && k <= 4 && Wired(t) && |t.players| == 2
    && t.players[0].hand == Copies(4 - k, Card(3)) + Copies(k, Card(5))
    && !t.players[0].hasWon
    && t.decks[0].cards == Copies(4 - k, Card(5))
    && t.decks[1].cards == Copies(4, Card(5)) + Copies(k, Card(3))
    && IsWinningHand(t.players[1].hand, 2) && !t.players[1].hasWon
  }

  lemma ExampleHasShape()
    ensures FirstPlayerAfter(ExampleTable(), 0)
  {
    var t := ExampleTable();
    assert t.players[0].hand == Copies(4, Card(3)) + Copies(0, Card(5));
    assert t.decks[0].cards == Copies(4, Card(5));
    assert t.decks[1].cards == Copies(4, Card(5)) + Copies(0, Card(3));
    assert forall k :: 0 <= k < 4 ==> t.players[1].hand[k] == Card(2);
  }

  /** One turn of player 1 in that stretch: it draws a 5 from the top of its
      left deck and throws away its first 3, the first card not showing its
      index, onto the bottom of player 2's left deck; it holds a 5, so it has
      not won, and player 2 is untouched. */
  lemma FirstPlayerTurn(t: Table, k: nat)
    requires FirstPlayerAfter(t, k) && k < 4
    ensures var r := Apply(t, TurnOf(0));
      FirstPlayerAfter(r, k + 1) && r.players[1] == t.players[1]
  {
    var h := t.players[0].hand + [t.decks[0].cards[0]];
    assert LoopGuard(t, 0);
    assert h[0] == Card(3);
    assert DiscardChoice(h, 1) == 0;
    assert h[..0] + h[1..] == Copies(3 - k, Card(3)) + Copies(k + 1, Card(5));
    assert t.decks[0].cards[1..] == Copies(3 - k, Card(5));
    assert t.decks[1].cards + [h[0]] == Copies(4, Card(5)) + Copies(k + 1, Card(3));
    var r := Apply(t, TurnOf(0));
    assert r.players[0].hand[3] == Card(5);
  }

  /** `m` copies of one step. */
  function Repeat(s: Step, m: nat): seq<Step> {
    seq(m, _ => s)
  }

  /** Running a step `m + 1` times is running it once, then `m` times. */
  lemma RunRepeat(t: Table, s: Step, m: nat)
    requires Wired(t)
    ensures Run(t, Repeat(s, m + 1)) == Run(Apply(t, s), Repeat(s, m))
  {
    var steps := Repeat(s, m + 1);
    assert steps[0] == s && steps[1..] == Repeat(s, m);
  }

  /** Player 1 plays on until its left deck is empty: it then holds four 5s
      and its flag is unset, and player 2 has not moved. */
  lemma {:induction false} FirstPlayerRuns(t: Table, k: nat)
    requires FirstPlayerAfter(t, k)
    ensures var r := Run(t, Repeat(TurnOf(0), |t.decks[0].cards|));
      FirstPlayerAfter(r, 4) && r.players[1] == t.players[1]
    decreases 4 - k
  {
    var steps := Repeat(TurnOf(0), |t.decks[0].cards|);
    if k < 4 {
      var t1 := Apply(t, TurnOf(0));
      RunRepeat(t, TurnOf(0), |t1.decks[0].cards|);
      FirstPlayerTurn(t, k);
      FirstPlayerRuns(t1, k + 1);
    } else {
      assert steps == [];
    }
  }

  /** Player 2 of two, flag set, announces: both players record player 2 as
      the winner and the hands stay as they were. */
  lemma AnnounceAfterWin(t: Table)
    requires Wired(t) && |t.players| == 2 && t.players[1].hasWon
    ensures var r := Apply(t, DeclareOf(1));
      && |r.players| == 2
      && r.players[0].winner == Some(2) && r.players[1].winner == Some(2)
      && r.players[0].index == 1 && r.players[1].index == 2
      && r.players[0].hand == t.players[0].hand
      && r.players[1].hand == t.players[1].hand
  {
    DeclareStep(t, 1);
  }

  /** An announcement step by a player whose flag is set is its `declareWin`. */
  lemma DeclareStep(t: Table, i: nat)
    requires Wired(t) && i < |t.players| && t.players[i].hasWon
    ensures Apply(t, DeclareOf(i)).players == DeclareWin(t.players, i)
  {
  }

  /** A two-step schedule is the two steps applied in order. */
  lemma RunTwo(t: Table, a: Step, b: Step)
    requires Wired(t)
    ensures Run(t, [a, b]) == Apply(Apply(t, a), b)
  {
    var t1 := Apply(t, a);
    assert [a, b][1..] == [b];
    assert Run(t, [a, b]) == Run(t1, [b]);
    assert [b][1..] == [];
    assert Run(t1, [b]) == Run(Apply(t1, b), []);
  }

  /** The schedule of the counterexample: player 1 takes one turn for each
      card in its left deck, then player 2 takes one turn and announces. */
  function ExampleSchedule(t: Table): seq<Step>
    requires Wired(t) && |t.players| == 2
  {
    Repeat(TurnOf(0), |t.decks[0].cards|) + [TurnOf(1), DeclareOf(1)]
  }

  /** After its four turns player 1's loop guard is false with its flag
      unset, so it leaves its loop by `declareExit` before any notice
      reaches it, holding four 5s; player 2's loop guard still holds. */
  lemma FirstPlayerExits(t: Table)
    requires FirstPlayerAfter(t, 0)
    ensures var t4 := Run(t, Repeat(TurnOf(0), |t.decks[0].cards|));
      && FirstPlayerAfter(t4, 4)
      && !LoopGuard(t4, 0) && !t4.players[0].hasWon && LoopGuard(t4, 1)
  {
    FirstPlayerRuns(t, 0);
  }

  /** From there player 2 wins on its first turn and announces: every
      player records player 2 as the winner, and player 1 still holds the
      four 5s it left its loop with. */
  lemma SecondPlayerFinishes(t: Table)
    requires FirstPlayerAfter(t, 4)
    ensures var r := Run(t, [TurnOf(1), DeclareOf(1)]);
      && |r.players| == 2
      && r.players[0].winner == Some(2) && r.players[1].winner == Some(2)
      && r.players[0].index == 1 && r.players[1].index == 2
      && r.players[0].hand == Copies(4, Card(5))
      && IsWinningHand(r.players[1].hand, 2)
  {
    DealtWinnerWinsOnFirstTurn(t, 1);
    AnnounceAfterWin(Apply(t, TurnOf(1)));
    RunTwo(t, TurnOf(1), DeclareOf(1));
  }

  /** The whole schedule: every player records player 2 as the winner,
      player 2 holds a winning hand, and player 1 holds four 5s. */
  lemma AnnouncedEnd(t: Table)
    requires FirstPlayerAfter(t, 0)
    ensures var r := Run(t, ExampleSchedule(t));
      && |r.players| == 2
      && r.players[0].winner == Some(2) && r.players[1].winner == Some(2)
      && r.players[0].index == 1 && r.players[1].index == 2
      && r.players[0].hand == Copies(4, Card(5))
      && IsWinningHand(r.players[1].hand, 2)
  {
    FirstPlayerExits(t);
    SecondPlayerFinishes(Run(t, Repeat(TurnOf(0), |t.decks[0].cards|)));
    RunAppend(t, Repeat(TurnOf(0), |t.decks[0].cards|), [TurnOf(1), DeclareOf(1)]);
  }

  /** `getWinningPlayer` as written can name a player who did not win. From
      any table laid out like ExampleTable (ExampleHasShape), the run of
      ExampleSchedule ends with both players recording player 2 as the
      winner, while player 1 holds four 5s, four of a kind that is not its
      index, and is the one reported. The corrected report names player 2. */
  lemma ReportNamesNonWinner(t: Table)
    requires FirstPlayerAfter(t, 0)
    ensures var r := Run(t, ExampleSchedule(t));
      && |r.players| == 2 && r.players[0].winner == Some(2) && r.players[1].winner == Some(2)
      && GetWinningPlayer(r.players) == Some(0)
      && !IsWinningHand(r.players[0].hand, r.players[0].index)
      && WinnerReport(r.players) == Some(1)
  {
    AnnouncedEnd(t);
    FourFives();
    ReportsDiffer(Run(t, ExampleSchedule(t)).players);
  }

  /** Four 5s are four of a kind, and not a winning hand for player 1. */
  lemma FourFives()
    ensures FourOfAKind(Copies(4, Card(5))) && !IsWinningHand(Copies(4, Card(5)), 1)
  {
    assert Copies(4, Card(5))[0].faceValue == 5;
  }

  /** Two players, the first holding four of a kind that are not its index,
      the second a winning hand: the two reports disagree. */
  lemma ReportsDiffer(players: seq<Player>)
    requires |players| == 2
    requires FourOfAKind(players[0].hand) && !IsWinningHand(players[0].hand, players[0].index)
    requires IsWinningHand(players[1].hand, players[1].index)
    ensures GetWinningPlayer(players) == Some(0) && WinnerReport(players) == Some(1)
  {
    var w, v := GetWinningPlayer(players), WinnerReport(players);
    assert w != None;
    assert v != None && v.value != 0;
  }
}
