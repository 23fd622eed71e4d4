# Ring card game — a Dafny model

The system is a multi-threaded card game for `n` players. Each player sits
between two decks in a ring: player `i` (1-based) draws from deck `i` and
discards to deck `i mod n + 1`. The driver checks the player count and
reads a pack whose length must be a multiple of 8. It deals four cards to
each player in rounds and shares the rest of the pack round-robin among
the decks. Then it starts one thread per player and waits for all of them.

Each player loops while it has not won and its draw deck is not empty:
- draw the top card of the left deck;
- discard a card that does not show its own index (the first card if
  every card does) to the bottom of the right deck;
- check for four cards showing its own index.

A player that wins records itself as the winner and notifies every other
player. At the end the driver reports the first player holding four equal
cards.

The model is written in terms of values:
- a `Card` is its face value;
- a `Deck` is an index and a sequence used as a FIFO queue;
- a `Player` holds its ring positions, its hand, its win flag and the
  winner it recorded;
- a `Table` is all players and decks together.

A thread interleaving is a schedule of `Step`s. `TurnOf(i)` is one pass of
player `i`'s loop body. `DeclareOf(i)` is player `i`'s end-of-loop
announcement. `Run` applies a schedule. Every property stated about `Run`
holds for every schedule, so it holds for every interleaving of whole
turns and announcements.

Modules, one per concern:
- `Wrappers`: `Option` and `Result`.
- `Text`: decimal rendering, splitting and trimming for the logged text.
- `Cards`: the card.
- `Piles`: a sequence of card piles flattened into one.
- `Decks`: the deck.
- `Players`: the player's operations.
- `Game`: the table, a turn, an announcement, a schedule.
- `CardGame`: the driver — checks, ring construction, dealing, and the
  end-of-game report.

Three behaviours of the code that a reader might not expect, all modelled
as written:
- **A dealt winner still draws first.** The loop at Player.java:36 tests
  only `hasWon`, which starts false (Player.java:25), and the deck. A
  player dealt four cards of its own index therefore draws and discards
  before its win is noticed. `Game.DealtWinnerWinsOnFirstTurn` shows that
  such a player holds a winning hand with its flag set after that first
  turn.
- **The winner slot is overwritten.** `setWinningPlayer`
  (Player.java:166-171) stores every non-null winner it is given,
  replacing any earlier one, and sets the receiving player's win flag
  (`Players.SetWinningPlayer`, `Players.LastAnnouncementWins`). This
  cascades. A notified player that is still inside its loop finds its
  flag set at the next test of the guard (Player.java:36). It then takes
  the `declareWin` branch (Player.java:42-43), records itself as the
  winner, and overwrites every other player's record with itself
  (Player.java:138-139, 176-182). In the model this is a `DeclareOf` step
  of that player after the first announcement.
- **The report names the first four of a kind.** `getWinningPlayer`
  (CardGame.java:134-143) reports the first player whose hand holds four
  equal cards of any value. It does not consult the recorded winner (see
  Findings).

## Model

| member | source | states |
|---|---|---|
| Cards.FaceValue | Card.java:4-10 | The value read back is the value the card was built with; the card is determined by it. |
| Cards.ToString | Card.java:13-15 | The text is one whitespace-free field that parses back to the card's face value, written with no leading zeros and a minus sign only for negative values. |
| Text.IntToDecimal | Card.java:14 | `Integer.toString` renders any integer as a single word that parses back to that integer. A non-negative integer is all digits with no leading zero unless it is 0 itself. A negative one is a minus sign followed by digits with no leading zero. |
| Text.CanonicalIsPrinted | Card.java:14 | Every numeral without leading zeros (and without `-0`) parses, and `Integer.toString` of its value gives back exactly that numeral, so the rendering is the one canonical spelling of each integer. |
| Text.CanonicalDigitsUnique | Card.java:14 | A digit string without leading zeros is the decimal rendering of the number it denotes. |
| Text.NatDecimalRoundTrip | Card.java:14 | Reading back the decimal digits of a natural number gives the number. |
| Decks.NewDeck | Deck.java:8-10 | A new deck holds no cards and has index 0. |
| Decks.Size | Deck.java:49-53 | The size is the number of cards that drawing until empty would produce. |
| Decks.IsEmpty | Deck.java:29-33 | The deck is empty exactly when its size is 0, and exactly when a draw returns no card. |
| Decks.InsertAtBottom | Deck.java:13-17 | The deck grows by one card. Earlier cards keep their places, the new card is last, and the index is unchanged. |
| Decks.DrawFromTop | Deck.java:20-27 | An empty deck yields no card and stays as it was. Otherwise the first card is returned and the rest keep their order and index. |
| Decks.Contents | Deck.java:35-39 | The copy lists the cards in the order that successive draws would return them. |
| Decks.DrainIsContents | Deck.java:20-27 | Drawing until empty returns exactly the stored sequence. |
| Decks.GetIndex | Deck.java:41-43 | The index read back, together with the cards, rebuilds the deck: nothing else is stored. |
| Decks.SetIndex | Deck.java:41-47 | `getDeckIndex` returns the value last set, and the cards are untouched. |
| Decks.FifoOrder | Deck.java:13-27 | For any mix of inserts and draws, the cards drawn followed by the cards left equal the starting cards followed by the inserted cards, in order. The index is kept. |
| Decks.FifoFromEmpty | Deck.java:8-17 | Inserting a sequence of cards into a new deck leaves exactly that sequence. |
| Decks.InsertAllAppends | Deck.java:13-17 | Inserting a sequence appends it to the deck's cards. |
| Players.NewPlayer | Player.java:19-29 | A new player has the index and ring positions it was given, an empty hand, no win flag, no recorded winner and denomination -1. |
| Players.ScanAllShow | Player.java:113-125 | The scan with an early exit answers true exactly when every card shows the value. |
| Players.FirstOther | Player.java:80-86 | The position found is the first card not showing the value, or the hand length when there is none. |
| Players.DiscardChoice | Player.java:77-91 | The chosen card is the first card not showing the player's index when one exists. Otherwise it is the first card. Every earlier card shows the index. |
| Players.RemoveFirst | Player.java:94 | Removing a card the hand holds drops exactly one copy of it, so the hand shrinks by one and keeps all other cards. Removing a card the hand does not hold changes nothing. |
| Players.RemoveAtIsRemoveFirst | Player.java:94 | Removing the first card equal to the chosen one removes it at its own position, since no earlier card equals it. |
| Players.DrawCard | Player.java:61-72 | The top card of the left deck is appended to the hand and leaves the deck. No card is created or lost. |
| Players.Discard | Player.java:76-109 | The chosen card leaves the hand and is appended to the right deck, so the hand shrinks by one and no card is lost. A hand not all of the player's index keeps its count of index cards. The denomination becomes the index. |
| Players.DrawDiscardKeepsWinningHand | Player.java:61-109 | A hand of four cards of the player's index is still winning after drawing any card and discarding. |
| Players.SameDeckTurn | Player.java:36-40 | With a single deck as both the left and the right deck (one player), a draw and a discard leave the deck size unchanged and keep the cards. |
| Players.CheckForWin | Player.java:112-127 | The win flag is set exactly when it was already set or the hand is four cards of the player's index. Nothing else changes. |
| Players.SetWinningPlayer | Player.java:166-171 | With no winner nothing changes. Otherwise the winner is recorded and the win flag set, and the hand and ring positions are kept. |
| Players.LastAnnouncementWins | Player.java:166-171 | A later announcement overwrites an earlier one, and repeating an announcement changes nothing. |
| Players.NotifyAllBut | Player.java:176-182 | Every player except the skipped one gets the winner recorded. The skipped one is unchanged. |
| Players.NotifyOtherPlayers | Player.java:176-182 | Every other player records the caller's winner and sets its flag. The caller and all hands are unchanged. With no winner recorded nothing changes. |
| Players.DeclareWin | Player.java:131-144 | After the announcement every player, the announcer included, records the announcer as winner and has its flag set. Hands, indices and ring positions are unchanged. |
| Players.HandContents | Player.java:198-204 | The logged hand text is the card texts joined by single spaces. It splits at spaces and parses back to the hand's face values, in order. |
| Players.ContentsReadBack | Player.java:198-204 | Appending each value and a space, then trimming, gives text that reads back to the hand's values. |
| Players.Words | Player.java:200-202 | One field per card, each the card's text and free of whitespace. |
| Text.Trim | Player.java:203 | `String.trim` returns a contiguous part of the text. Everything cut from either end is a space or control character, and the part kept, when non-empty, starts and ends with a character above the space. |
| Text.SkipBlanks | Player.java:203 | The forward scan of `trim` stops at the first character above the space, having passed only characters at or below it. |
| Text.DropBlanks | Player.java:203 | The backward scan of `trim` passes only characters at or below the space and stops after a character above it, or at the start it was given. |
| Text.TrimmedTerminatedIsJoined | Player.java:199-203 | Trimming the space-terminated fields gives the fields joined by single spaces. |
| Text.SplitJoin | Player.java:198-204 | Splitting the single-space join of whitespace-free fields at spaces recovers the fields. |
| Game.LoopGuard | Player.java:36 | The loop goes on exactly when the player's flag is unset and its own (left) deck holds a card. |
| Game.Turn | Player.java:36-40 | One pass of the loop body keeps the ring and every card on the table. It touches only the player and its two decks. The top card of the player's deck joins the hand and the card the discard rule picks from that hand goes to the bottom of the next deck (its own deck for a lone player). Hand size is kept, the flag is set exactly for a winning hand, and the recorded winner is unchanged. It is a no-op when the loop condition fails. |
| Game.Play | Player.java:37-39 | The player ends with its hand plus the drawn card, minus the card the discard rule picks. Its denomination becomes its index, and its flag is set exactly when it was set already or the new hand is winning. |
| Game.PlayMoves | Player.java:37-39 | The drawn card leaves the top of the player's deck, and the discarded card is added at the bottom of the next deck. For a lone player both happen on its single deck. |
| Game.PlayChecksWin | Player.java:37-39 | After draw, discard and check, the hand has its old size and the flag is set exactly when the hand is winning. |
| Game.Declare | Player.java:42-43 | A player with its flag set makes every player record it as the winner and set its flag. Hands and decks are unchanged, and a player without its flag changes nothing. |
| Game.Apply | Player.java:32-57 | Every scheduling step keeps the ring, the cards on the table and every hand's size. |
| Game.Run | Player.java:32-57 | Any schedule keeps the ring and the number of players. |
| Game.RunConserves | Player.java:36-40 | Whatever the schedule, the table holds the same cards and the same number of cards. |
| Game.RunKeepsFourCardHands | Player.java:37-38 | Whatever the schedule, four-card hands stay four-card hands. |
| Game.ApplyKeepsWinningHand | Player.java:76-91 | A winning hand stays winning through any step. |
| Game.RunKeepsWinningHand | Player.java:76-91 | Whatever the schedule, a winning hand stays winning. |
| Game.SinglePlayerTurn | CardGame.java:50 | With one player, a turn draws from and discards to the same deck, keeping its size and the cards. |
| Game.DealtWinnerWinsOnFirstTurn | Player.java:36-40 | A player dealt four cards of its index holds them after its first turn, with the flag set. |
| CardGame.CheckPack | CardGame.java:102-105 | The pack is accepted exactly when its length is a multiple of 8, and then it is returned unchanged. The empty pack passes. |
| CardGame.BuildTable | CardGame.java:42-52 | `n` players and `n` decks are wired in a ring, with empty hands and decks and no winner. Each player's discard deck is the next player's draw deck. |
| CardGame.DealRound | CardGame.java:119-122 | One round of the deal gives the next `n` cards to the `n` hands in turn. The round-robin layout and the multiset of cards in hands and pack are kept. |
| CardGame.DealHands | CardGame.java:117-123 | Hand `j` gets every `n`-th of the first `4n` cards starting at `j`, and the rest of the pack is what remains. No card is created or lost. |
| CardGame.FillDecks | CardGame.java:125-130 | Deck `d` gets every `n`-th remaining card starting at `d`, and every remaining card lands in some deck. |
| CardGame.Distribute | CardGame.java:113-131 | The hands and decks together hold exactly the pack's cards, laid out round-robin. |
| CardGame.EveryNthLayout | CardGame.java:126-130 | The `m`-th card of a round-robin pile is pack card `from + m·n`, and the pile holds every such card. |
| CardGame.DealtHands | CardGame.java:118-123 | After the deal player `j` holds pack cards `j`, `n+j`, `2n+j` and `3n+j`. |
| CardGame.DealtDecks | CardGame.java:126-130 | After the deal deck `d` holds pack cards `4n+d`, `5n+d`, …, in that order and no others. |
| CardGame.Setup | CardGame.java:14-55 | A non-positive player count fails, and so does a pack length that is not a multiple of 8. A pack too short to deal fails. Otherwise the table is wired and dealt from the pack, with no winner. |
| CardGame.EightPerPlayerDeal | CardGame.java:113-131 | With an `8n`-card pack every hand and every deck holds four cards, `8n` in all. |
| CardGame.PlayConservesPack | CardGame.java:55-65 | Whatever the schedule after the deal, the table holds exactly the pack's cards. With an `8n`-card pack every hand stays at four. |
| CardGame.AllCardsHaveSameValue | CardGame.java:145-153 | The answer is true exactly when every card shows the first card's value. |
| CardGame.GetWinningPlayer | CardGame.java:134-142 | The position named is the first whose hand is four cards of one value; none is named when no hand is. |
| CardGame.WinnerReport | CardGame.java:68-71 | The corrected report names the first player whose hand is four cards of its own index, and none when there is none. |
| CardGame.WinnerIsReported | CardGame.java:68-71 | Once a player holds a winning hand, the corrected report names a winning player, that one or an earlier one, after any schedule. |
| CardGame.ExampleIsDealt | CardGame.java:113-131 | The two-player example table is laid out as dealing the example 16-card pack lays it out. |
| CardGame.ExampleHasShape | CardGame.java:113-131 | The example table is the starting point of the counterexample: player 1 holds four 3s over a deck of four 5s, and player 2 holds four 2s over a deck of four 5s, with no flags set. |
| CardGame.FirstPlayerTurn | Player.java:36-40 | Each of player 1's turns there draws a 5, throws away a 3 onto player 2's deck, leaves player 1 without a win, and leaves player 2 untouched. |
| CardGame.FirstPlayerRuns | Player.java:36-40 | Player 1 keeps playing until its deck is empty, ending with four 5s while player 2 is unchanged. |
| CardGame.FirstPlayerExits | Player.java:36-45 | Player 1's loop guard is then false with its flag unset, so it leaves by `declareExit` before any notice; player 2's loop guard still holds. |
| CardGame.SecondPlayerFinishes | Player.java:36-43 | From there player 2 wins on its first turn and announces: both players record player 2, player 2 holds a winning hand, and player 1 keeps its four 5s. |
| CardGame.AnnounceAfterWin | Player.java:131-144 | Player 2's announcement makes both players record player 2 and keeps the hands. |
| CardGame.AnnouncedEnd | Player.java:32-57 | After the whole schedule both players record player 2, player 2 holds a winning hand, and player 1 holds four 5s. |
| CardGame.ReportNamesNonWinner | CardGame.java:134-142 | After that schedule the report as written names player 1, who did not win and holds four 5s, while the corrected report names player 2. |
| CardGame.ReportsDiffer | CardGame.java:134-142 | When the first of two players holds four of a kind not of its index and the second holds a winning hand, the reports name different players. |

## Left out

- Threads, `synchronized` blocks and `join` are not modelled. An interleaving is a schedule of `Step`s, and every `Run` property holds for every schedule.
- A turn is one atomic step, so interleavings inside a turn (between a player's draw and its discard) are not modelled. Within a turn each deck is touched under its own lock, and the draw and the discard touch different decks whenever there are two or more players.
- An announcement is one atomic step as well. In the code another player's notice can arrive between the announcer's `setWinningPlayer(this)` and its `notifyOtherPlayers()` (Player.java:138-139). The announcer's own record is then overwritten, and `notifyOtherPlayers` passes that other player on to everyone.
- Game.Declare: the promise that every player records the announcer holds only under atomic announcements. An announcement interrupted as above is not modelled.
- The per-player and per-deck output files (`FileWriter`) are not modelled, apart from the hand text `getHandContents` builds. I/O failures are not modelled either.
- Console input (`Scanner`), reading the pack file and `Integer.parseInt` are not modelled. The pack is a sequence of integers given to `Setup`, and the player count is an integer parameter.
- Players.DrawCard: requires a non-empty left deck. The loop only draws after checking that, so the `null` card an empty deck returns, and the crash it would cause, are not modelled.
- Card values and indices are unbounded integers. Java's 32-bit `int` width plays no part: values are only compared, never computed.
- CardGame.Setup: a pack whose length is a multiple of 8 but shorter than `4n` makes `distributeHands` fail with an index error. The model reports this as `PackTooShort` instead of an exception.
- Game.Turn: when the loop condition fails the turn is a no-op. The thread would have left its loop instead.
- A recorded winner is the winner's index (`Option<int>`), not a reference to the player object.
- The reports return positions in the roster. The driver prints the player's index, which is one more than the position.
- `hand.remove(card)` in `discardCard` removes by object identity. Equal face values are equal cards in the model, so it removes the first equal card, which is the chosen one (`Players.RemoveAtIsRemoveFirst`).
- CardGame.ExampleIsDealt: states the hand and deck layout for the example pack, not the multiset equality `Setup` also proves.
- `printInitialHand`, `printFinalHand` and `declareExit` only write logs and are not modelled.
- Writing each deck's final contents to a file is not modelled. `Decks.Contents` models the list that is written.

## Findings

| source | as written | input that shows it | evidently intended | confidence | as-written member | corrected member |
|---|---|---|---|---|---|---|
| CardGame.java:134-142 | The end-of-game report names the first player whose hand is four equal cards of any value. | Two players, pack `3 2 3 2 3 2 3 2 5 5 5 5 5 5 5 5`. Player 1 is dealt four 3s and player 2 four 2s, and each deck holds four 5s. Schedule: player 1 takes four turns, drawing the four 5s and discarding its 3s; its deck is then empty and its flag unset, so it exits without a win. Then player 2 takes one turn, wins and announces. Both players record player 2 as winner, yet the report names player 1, who holds four 5s. | Report the player holding four cards of its own index, the one that won and that every player recorded. | medium; not executed | CardGame.ReportNamesNonWinner (about CardGame.GetWinningPlayer) | CardGame.WinnerReport, with CardGame.WinnerIsReported |
