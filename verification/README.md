# Verified model of the game server's core

These Dafny modules model the parts of the server whose correctness is hard to see from any one
function: the OTB node codec and its two readers, payment in coins, the market, the player trade,
house auctions, the creature scheduler, the summon tree, the division of experience, the batching
INSERT, stacking of items, script-event lists and the boss points. Most parts come in pairs: a
module of pure functions and laws (`AuctionRules` with `AuctionLaws`, `MarketRules` with `MarketLaws` and
`MarketDeals`, `Exchanges` and `TradeProtocol` with `TradeLaws`, `CheckCycle` with `CheckLaws`, `StackRules` with
`StackLaws` and `StackRoom`, `EventLists`, `DamageShares`, `InsertBatches`), and a module with the classes whose methods change their fields in place and are
proved to do what the functions say (`Auctions`, `Markets`, `Trades`, `CreatureChecks`, `Stacks`,
`CreatureEvents`, `Deaths`, `DBInserts`).

`dafny verify dfyconfig.toml` checks everything.

## What the code does not keep

Where a law that one would expect fails, the code is modelled as it is and the exact condition is proved.

- An owner who offers a house to somebody writes over the name of whoever has bid on it
  (`src/game/game.cpp:11784-11788`), and a bid on a house that is not up for auction is taken: nothing looks
  at the house's state (`src/game/game.cpp:11612-11690`, `src/creatures/players/player.cpp:12075-12102`). Such a
  bid is refunded like any other until the house is offered; then it is gone.
  `AuctionRules.StartTransferKeepsWealthIff`, `AuctionRules.OverwrittenBidIsGone`, and in numbers
  `AuctionRules.ABidIsLost`.
- A bid on a house that is changing hands refunds what was never paid. `AuctionRules.BidKeepsWealthIff`,
  `AuctionRules.ABidOnAHandover`.
- A bid that does not lead becomes the price, whatever it is (`src/game/game.cpp:11666-11668`): the winner of an
  auction can pay less than others have bid. `AuctionLaws.WinnerPaysTheOthersIff`, `AuctionLaws.APulledDownPrice`.
- The market removes goods step by step and keeps what it took when a later step fails
  (`src/game/game.cpp:9541-9596`); a sale to an offer whose goods do not fit the owner's inbox pays the
  seller and leaves the offer open (`src/game/game.cpp:9944-9982`, `10083-10087`).
  `MarketLaws.StepKeepsGoldIff`, `MarketLaws.StepKeepsSupplyIff`, `MarketLaws.ASaleWithoutRoom`.
- The tests before a trade let a stack share another one, the moves ask for a free slot, and the second move's
  result is not looked at (`src/game/game.cpp:5307-5326`): one player can end up with both items.
  `Exchanges.HalfDoneIff`, `Exchanges.AHalfDoneTrade`. A first move whose search ends inside the partner's own
  item is refused even if there is room elsewhere (`src/game/game.cpp:2225-2238`). `Exchanges.ARefusedMove`.
- The streaming reader tests for as many bytes as it wants, not for their escapes, and in 32 bits: it can leave
  the data. `FileStreams.FetchLeavesIff`, `FileStreams.FetchU8LeavesIff`, `FileStreams.ATwoByteReadLeavesTheData`.
- `DBInsert` keeps its rows after sending them, so rows can be sent twice. `DBInserts.EachRowIsSentOnceIff`,
  `DBInserts.ARowSentTwice`.
- A stack that is moved onto a partly filled one beyond the capacity of a paged container loses what
  the stack does not take. `StackLaws.MoveConservesIff`, `StackLaws.APagedMoveLoses`.
- A reward container takes part of a stack and drops the rest without an error. `StackLaws.RewardsAreCut`,
  `StackLaws.ARewardIsCut`.
- The total damage is summed in 32 bits. `DamageShares.NeverTooMuchIff`, `DamageShares.AWrappedTotal`.
- Boss points for bonuses 51 to 99 give one bonus less; 251 to 259 points give less than 250.
  `Bosstiary.BonusRoundTripIff`, `Bosstiary.MorePointsGiveLessIff`.
- Above 2^32 times 10000 gold, `addMoney` mints too little. `Payments.MintsWhatIsOwed`.
- The streaming reader misreads a node whose type byte is 0xFD. `MapWalk.TypeIsReadUnlessEscape`.

## Model

| member | source | states |
|---|---|---|
| OtbFormat.UnescapeEscape | src/io/fileloader.cpp:100-114 | taking the escapes out undoes putting them in, for every byte string |
| OtbFormat.EscapeIsIdentityIff | src/io/fileloader.cpp:100-114 | bytes from 0xFD on, and no others, are escaped |
| OtbFormat.TokensSplitUniquely | src/io/fileloader.cpp:57-95 | the property bytes end at one place only: escaped text in front of a marker cannot be cut in two ways |
| OtbFormat.PrintIsPrefixFree | src/io/fileloader.cpp:57-95 | no node's text is the beginning of another node's text, so a file has at most one reading |
| OtbFormat.SerializeIsGrammatical | src/io/fileloader.cpp:57-95 | what a writer emits for a tree (START, type, escaped properties, children, END) is a sentence of the grammar |
| OtbFormat.ASmallTree | src/io/fileloader.cpp:57-95 | the eight bytes of a tree of two nodes with one escaped property byte |
| OtbLoader.Loader.Load | src/io/fileloader.cpp:24-37 | succeeds exactly for files of more than 7 bytes whose identifier is the accepted one or the wildcard |
| OtbLoader.Loader.PushChild | src/io/fileloader.cpp:59-73 | a START ends the parent's properties unless it already has a child, adds the child last and makes it the top of the stack |
| OtbLoader.Loader.EndCurrent | src/io/fileloader.cpp:74-81 | an END fixes the node's property range unless a child did, and hands the finished node to its parent |
| OtbLoader.Loader.ParseTree | src/io/fileloader.cpp:47-98 | succeeds exactly when the machine on values does, and every finished node in memory holds the range, the type and the children of its value |
| OtbLoader.Loader.ParseNodes | src/io/fileloader.cpp:54-98 | the loop with its stack of pointers follows the machine byte by byte |
| OtbLoader.Loader.GetProps | src/io/fileloader.cpp:100-114 | false exactly for an empty range; otherwise the stream holds the bytes of the range without their escapes |
| OtbTheorems.DocumentIsParsed | src/io/fileloader.cpp:47-98 | every document of the grammar, with any junk of ordinary bytes and escape pairs after an END, is parsed into the layout of its tree |
| OtbTheorems.ParsedIsDocument | src/io/fileloader.cpp:47-98 | whatever is accepted is a document, and the result is its layout |
| OtbTheorems.AcceptsExactlyTheGrammar | src/io/fileloader.cpp:47-98 | accepted if and only if the file is a document, and it is one in one way only |
| OtbTheorems.AcceptedRangesAreTokens | src/io/fileloader.cpp:57-95 | in every accepted file each node's property range splits no escape pair and holds no bare START or END |
| OtbTheorems.LoadUndoesWrite | src/io/fileloader.cpp:24-114 | for every tree the written file is loaded back with the same shape, types and property bytes; only a bare root without properties is too short |
| OtbTheorems.CutFileIsRejected | src/io/fileloader.cpp:57-95 | every proper beginning of a written file is rejected |
| PropStreams.NumberRoundTrip | src/io/fileloader.hpp:77-95 | a number of any width is read back from its little-endian bytes |
| PropStreams.LittleEndianAt | src/io/fileloader.hpp:77-95 | byte i of a number is its i-th digit to the base 256 |
| PropStreams.FieldRoundTrip | src/io/fileloader.hpp:77-168 | a field is read back, with what follows it untouched; a string over 65535 bytes is read back empty |
| PropStreams.FieldsRoundTrip | src/io/fileloader.hpp:77-168 | any sequence of numbers and strings is read back in order, with exactly the rest left |
| PropStreams.PropWriteStream.Write | src/io/fileloader.hpp:149-156 | appends the little-endian bytes of the number |
| PropStreams.PropWriteStream.WriteString | src/io/fileloader.hpp:158-167 | appends length and text, or a length of 0 when the text is over 65535 bytes |
| PropStreams.PropWriteStream.WriteAll | src/io/fileloader.hpp:149-167 | writing field after field leaves the concatenation of their encodings |
| PropStreams.PropStream.Read | src/io/fileloader.hpp:76-95 | reads the number in front, or fails and moves nothing when too few bytes are left |
| PropStreams.PropStream.ReadString | src/io/fileloader.hpp:97-116 | reads the string in front; when the text is cut short it fails behind the length |
| PropStreams.PropStream.Skip | src/io/fileloader.hpp:118-125 | skips n bytes, or fails and moves nothing |
| PropStreams.PropStream.ReadAll | src/io/fileloader.hpp:76-125 | reading field after field gives what decoding the whole gives |
| FileStreams.ReadEscapedOfEscaped | src/io/filestream.cpp:48-76 | the unescaping reader gives back bytes that were escaped, wherever they stand, and ends right behind them |
| FileStreams.ReadIsUnescaped | src/io/filestream.cpp:48-76 | whatever the data, a read inside nodes gives what lies between its two positions, without its escapes |
| FileStreams.FetchPlain | src/io/filestream.cpp:48-76 | outside nodes bytes are read as they are, and a read of too many gives zeros and does not move |
| FileStreams.FetchByte | src/io/filestream.cpp:78-95 | what a one-byte read gives and where it ends: past the end, at a plain byte, at an escape pair, at a lone escape |
| FileStreams.FetchLeavesIff | src/io/filestream.cpp:48-76 | a read leaves the data if and only if it removes escapes, passes the size test and wants more bytes than are complete |
| FileStreams.FetchU8LeavesIff | src/io/filestream.cpp:78-95 | the one-byte reader leaves the data at a lone escape at the end or where its 32-bit test wraps around, and nowhere else differs from the general one |
| FileStreams.ATwoByteReadLeavesTheData | src/io/filestream.cpp:56-68 | an escape pair read as two bytes passes the test and leaves the data |
| FileStreams.FileStream.Read | src/io/filestream.cpp:48-76 | fails exactly when the size passes the end, leaves the data exactly when the escapes do, and otherwise gives the bytes without escapes |
| FileStreams.FileStream.GetU8 | src/io/filestream.cpp:78-95 | reads one byte, unescaped inside nodes; leaves the data at a lone escape at the end and at the last 32-bit position |
| FileStreams.FileStream.GetNumber | src/io/filestream.cpp:97-113 | reads 2, 4 or 8 unescaped bytes as a little-endian number, and leaves the data exactly when there are fewer complete ones |
| FileStreams.FileStream.Back | src/io/filestream.cpp:131-133 | moves back, with the wrap-around of 32 bits |
| FileStreams.FileStream.Seek | src/io/filestream.cpp:26-32 | moves to a position inside the data only |
| FileStreams.FileStream.Skip | src/io/filestream.cpp:34-36 | moves on by a number of bytes if that stays inside the data, with 32-bit sums |
| FileStreams.FileStream.IsProp | src/io/filestream.cpp:135-145 | tells the next byte; consumes it if asked and found, and otherwise gives back one position |
| FileStreams.FileStream.StartNode | src/io/filestream.cpp:147-159 | enters a node at a START of the wanted type and counts it; otherwise gives back one position for each byte read, also where the data had ended |
| FileStreams.FileStream.EndNode | src/io/filestream.cpp:161-169 | leaves a node at an END and counts it; otherwise gives back one position, also where the data had ended |
| MapWalk.ReadFields | src/io/filestream.cpp:78-113 | reading a node's properties with any mix of the readers gives the unescaped bytes and lands behind them |
| MapWalk.Walk | src/io/filestream.cpp:48-169 | a preorder walk over a written tree sees every node's type and fields, ends behind the tree and leaves the depth as it was |
| MapWalk.ReadBoth | src/io/filestream.cpp:48-169 | the loader and the streaming reader see the same types and the same property bytes in every written file |
| MapWalk.SeesAgrees | src/io/filestream.cpp:48-169 | a walk that saw the tree agrees with a parse that recovered it, node by node |
| MapWalk.TypeIsReadUnlessEscape | src/io/filestream.cpp:78-95 | inside a node a type byte is read right if and only if it is not 0xFD |
| Coins.StacksAfterTake | src/game/game.cpp:2728-2836 | taking coins from nested containers takes them from the one stack, wherever it lies |
| Coins.TakeFlatEffect | src/game/game.cpp:2809-2828 | taking n coins leaves every other stack and lowers the cash by their value |
| Coins.StacksAfterInsert | src/game/game.cpp:2838-2893 | a stack put into any container adds its worth and nothing else |
| Payments.MintsWhatIsOwed | src/game/game.cpp:2838-2893 | addMoney mints never too much, and exactly the sum if and only if it is below 2^32 * 10000 |
| Payments.FewestCoins | src/game/game.cpp:2838-2893 | no choice of 1, 100 and 10000 gold coins of the same worth has fewer coins |
| Payments.PiecesAreStacks | src/game/game.cpp:2848-2876 | the stacks of a kind add up to the count; all but the last have 100 coins, and that has 1 to 100 |
| Payments.FewestStacks | src/game/game.cpp:2848-2876 | no other division into stacks of at most 100 has fewer stacks |
| Payments.PayIsExact | src/game/game.cpp:2809-2836 | spent coins minus change plus what is still owed is the sum, and something is owed only when all stacks are spent |
| Payments.BreakComesLast | src/game/game.cpp:2796-2828 | a stack is broken only when all cheaper money is spent, and the change is less than one broken coin |
| Purses.Gather | src/game/game.cpp:2738-2784 | the breadth-first search finds every stack in every nesting once, and adds up its worth |
| Purses.SortMoney | src/game/game.cpp:2796-2807 | the found stacks are reordered, cheapest coin first |
| Purses.Purse.RemoveItem | src/game/game.cpp:2809-2828 | the stack loses n coins or disappears; nothing else changes |
| Purses.Purse.BreakStack | src/game/game.cpp:2818-2823 | giving change and taking the coins costs exactly the sum, and mints nothing as dear as the broken coin |
| Purses.Purse.PayCash | src/game/game.cpp:2809-2828 | cash falls by exactly what is paid, and the bank owes the rest |
| Purses.Purse.RemoveMoney | src/game/game.cpp:2728-2836 | false and no change exactly when cash plus usable balance is too small; otherwise cash, with the change wherever it was put, plus balance falls by exactly the sum |
| Purses.Purse.AddCoins | src/game/game.cpp:2848-2876 | count coins of a kind arrive in stacks of at most 100 and no other coin changes |
| Purses.Purse.AddMoney | src/game/game.cpp:2838-2893 | cash rises by what is minted, and only in coins that the sum can pay for |
| MarketRules.RemovalIsExact | src/game/game.cpp:9541-9596 | a removal of goods takes a known number of one ware and succeeds if and only if that is the whole amount |
| MarketRules.RemovalSucceedsIfHeld | src/game/game.cpp:9541-9596 | with no failing removal and fewer than 65536 stacks it succeeds exactly when the player has enough, and otherwise takes all there is |
| MarketRules.RemovalOrder | src/game/game.cpp:9541-9596 | goods without a tier come from the stash first, and the locker's stacks from the front, at most one of them in part |
| MarketRules.PiecesAreAllIff | src/game/game.cpp:9789-9824 | the whole amount reaches the inbox if and only if it takes all the stacks; no stack is too large |
| MarketRules.PiecesNeededIsCeiling | src/game/game.cpp:9789-9804 | the number of stacks is the amount divided by the stack size, rounded up |
| MarketRules.FeeIsBounded | src/game/game.cpp:9675-9678 | two gold in a hundred rounded down, but never less than 20 or more than a million, and never less for a higher price |
| MarketLaws.CreateEffect | src/game/game.cpp:9657-9752 | creating an offer costs its creator the fee, moves money or goods into the offer, and changes nobody else's |
| MarketLaws.CancelEffect | src/game/game.cpp:9754-9836 | cancelling gives money and goods back, as far as the inbox has room |
| MarketLaws.SellEffect | src/game/game.cpp:9879-9985 | selling to an offer pays the seller from the offer and brings the goods to its owner |
| MarketLaws.BuyEffect | src/game/game.cpp:9986-10078 | buying from an offer moves the price from buyer to seller and the goods to the buyer |
| MarketLaws.StepEffect | src/game/game.cpp:9657-10108 | what each call does to all gold, to every player's gold and to the supply of every ware, in every branch |
| MarketLaws.StepKeepsGoldIff | src/game/game.cpp:9657-10108 | gold falls by the fee alone, if and only if the call is no sale to an offer whose goods do not fit the owner's inbox |
| MarketLaws.StepKeepsSupplyIff | src/game/game.cpp:9657-10108 | the supply of every ware is unchanged if and only if no removal gets only some of the goods and no delivery runs out of room |
| MarketLaws.ASaleWithoutRoom | src/game/game.cpp:9879-9985 | two swords sold to an offer with a full inbox: twenty gold are made and two swords lost |
| MarketLaws.RunKeepsGoldAndGoods | src/game/game.cpp:9541-10108 | over every run in which goods and room suffice, gold falls by the fees alone and every supply is constant |
| MarketDeals.PaidInOrder | src/game/game.cpp:2728-2836 | carried money is gone before the bank is touched, or the other way round for an accepted offer |
| MarketDeals.CreationOpensIff | src/game/game.cpp:9657-9752 | exactly when price, amount, item, money and goods are in order, one offer is opened behind the others: with the owner, action, item, amount and price of the call, and its tier or none for a sale while some of the item is in the stash; otherwise no offer and no money changes, and nobody else's things ever do |
| MarketDeals.CreationTakes | src/game/game.cpp:9694-9719 | of a seller's goods exactly those leave that the offer holds, or what was taken before a failure |
| MarketDeals.CancellingReturnsIff | src/game/game.cpp:9754-9836 | exactly the owner closes an offer, and its money, goods or coins go to the owner and to nobody else |
| MarketDeals.CancelledAtOnce | src/game/game.cpp:9657-9836 | an offer that is opened and cancelled costs its owner the fee, and nobody anything else |
| MarketDeals.AcceptingShortensIff | src/game/game.cpp:9838-10108 | an offer gets shorter, by the accepted amount, if and only if the deal is made and the goods find room; no other offer changes |
| MarketDeals.DealPays | src/game/game.cpp:9838-10108 | in a deal the price reaches the seller's bank and comes from the buyer, the bank first; no other account changes |
| MarketDeals.DealDelivers | src/game/game.cpp:9838-10108 | who has how much of each ware after an acceptance, in every branch |
| MarketDeals.DealMovesCoins | src/game/game.cpp:9879-10078 | store coins go to the buyer's account, from the seller's or from the offer |
| MarketDeals.TradeDelivers | src/game/game.cpp:9838-10108 | with room for all the buyer has exactly the amount more, the one who sells to an offer exactly the amount less |
| MarketDeals.OffersAreAskedFor | src/game/game.cpp:9657-10108 | over every run each open offer is what is left of one that a call has asked for, with that call's owner, item and price, or of an older one |
| MarketDeals.ABuyOffer | src/game/game.cpp:9719-9739 | a hundred pieces at two gold each: the offer, and the 220 gold it costs |
| Markets.Market.RemoveOfferItems | src/game/game.cpp:9541-9596 | stash first, then stack after stack of the locker, until the amount is reached or a removal fails |
| Markets.Market.RemoveMoney | src/game/game.cpp:2728-2836 | carried money first, then the bank, or nothing |
| Markets.Market.AddToInbox | src/game/game.cpp:9789-9824 | puts stack after stack into the inbox until one does not fit |
| Markets.Market.PlayerCreateMarketOffer | src/game/game.cpp:9657-9752 | checks, collects goods or money, takes the fee and opens the offer; ends in exactly the state that `MarketLaws.CreateEffect` and `MarketDeals.CreationOpensIff` are about, failures included |
| Markets.Market.PlayerCancelMarketOffer | src/game/game.cpp:9754-9836 | only the owner; money to the bank or goods to the inbox, and the offer is gone; ends in the state of `MarketLaws.CancelEffect` and `MarketDeals.CancellingReturnsIff` |
| Markets.Market.SellToOffer | src/game/game.cpp:9879-9985 | the branch for offers to buy, up to the change of the offer |
| Markets.Market.BuyFromOffer | src/game/game.cpp:9986-10078 | the branch for offers to sell, up to the change of the offer |
| Markets.Market.PlayerAcceptMarketOffer | src/game/game.cpp:9838-10108 | not for one's own offers; both branches and the shortened or deleted offer; ends in the state of `MarketLaws.SellEffect`, `MarketLaws.BuyEffect` and the laws on deals in `MarketDeals` |
| TradeProtocol.RequestKeepsInv | src/game/game.cpp:5081-5255 | a request keeps partners symmetric, states and items consistent, the index exact and traded items apart |
| TradeProtocol.AcceptKeepsInv | src/game/game.cpp:5257-5357 | so does an acceptance, also when it begins the transfer |
| TradeProtocol.FinishKeepsInv | src/game/game.cpp:5257-5357 | so does the end of the transfer, whatever is moved: the other players' offers still lie apart, with their owners |
| TradeProtocol.CloseKeepsInv | src/game/game.cpp:5458-5497 | so does closing, at any moment |
| TradeProtocol.CloseDuringTransferIsNothing | src/game/game.cpp:5458-5497 | closing while the two players' items are moved does nothing |
| TradeLaws.RequestStartsIff | src/game/game.cpp:5156-5255 | when a request is heard, and what it makes of the two players and the index; otherwise nothing changes |
| TradeLaws.AnAnswerIsHeard | src/game/game.cpp:5156-5255 | a request and the answer to it leave both players offering their items to each other |
| TradeLaws.TransferBeginsIff | src/game/game.cpp:5257-5303 | an acceptance begins a transfer if and only if the player has asked or been asked, has a partner within reach who had accepted before, and the scripts allow it; while the partner has not, only the player's phase changes; a refusal by the scripts frees both |
| TradeLaws.ClosingFreesIff | src/game/game.cpp:5458-5497 | closing frees a player and the partner and takes exactly their items off the index, if there is a partner and nothing is being moved; otherwise it does nothing |
| TradeLaws.TransferFrees | src/game/game.cpp:5307-5355 | a transfer ends with both players free and everyone else's trade untouched |
| TradeLaws.TransferExchanges | src/game/game.cpp:5307-5326 | when it can, it moves the one item to a container of the partner and then, with room, the other to one of the player; every container changes by exactly that |
| TradeLaws.TransferIsAgreed | src/game/game.cpp:5081-5497 | over every run, whenever two players' items are being moved each has accepted before, as the other's partner, and they have been partners ever since |
| Exchanges.FreeGoes | src/creatures/players/player.cpp:5030-5158 | a player's container with a free slot takes a whole stack or item, and nothing of it is dropped |
| Exchanges.TestedIff | src/creatures/players/player.cpp:5030-5158 | the test succeeds if and only if the first container it finds, told in its fields, may hold one item more |
| Exchanges.SendIsDoneIff | src/game/game.cpp:2110-2329 | an item goes to a player if and only if a free slot is found, and the container it is found in is not refused as lying inside the player's own item; otherwise nothing changes |
| Exchanges.SendUnits | src/game/game.cpp:2240-2273 | exactly the moved units leave the one container and arrive in the other |
| Exchanges.SendTakesAlong | src/game/game.cpp:2240-2273 | what does not stack comes first in its new container, and all that lies in it, at any depth, is with the receiver then |
| Exchanges.ExchangeMovesIff | src/game/game.cpp:5307-5326 | which of the two moves are made, told from the state before: the first container with a free slot that the partner's search meets is not inside the partner's own item; and a free slot with the player, the slot of the item that leaves counted |
| Exchanges.HalfDoneIff | src/game/game.cpp:5307-5326 | one player ends up with both items if and only if both tests pass and the partner has a free slot that is not refused, but the player has none even then |
| Exchanges.AHalfDoneTrade | src/game/game.cpp:5307-5326 | a sword on the ground for ten coins, with a full pack that has room on a stack of coins: the partner has both afterwards |
| Exchanges.AnOfferedBag | src/creatures/players/player.cpp:5030-5158 | an empty bag in a full pack for a sword: the bag's own slot is what the test finds, and both moves are made; a bag that is worn is passed over, and nothing happens |
| Exchanges.ARefusedMove | src/game/game.cpp:2225-2238 | both tests pass and another bag has room, but the first free slot is inside the bag that is offered: nothing happens |
| Exchanges.ExchangeUnits | src/game/game.cpp:5307-5326 | what every container gains and loses by the moves that are made |
| Exchanges.ExchangeKeepsTotal | src/game/game.cpp:5307-5326 | no unit of any kind is lost or doubled, by the laws of moving between containers |
| Exchanges.ExchangeLeavesOther | src/game/game.cpp:5307-5326 | an item that overlaps neither of the two stays in its container, with the same player and inside the same items |
| TradeProtocol.StepKeeps | src/game/game.cpp:5081-5497 | every step keeps the invariant and the units of every kind in all containers |
| TradeProtocol.RunKeeps | src/game/game.cpp:5081-5497 | so does every run, with closings called back in the middle of transfers |
| Trades.Trades.IsTraded | src/game/game.cpp:5156-5190 | finds a traded item that is the item, lies inside it or holds it |
| Trades.Trades.PlayerRequestTrade | src/game/game.cpp:5081-5220 | refuses items that are, lie in or hold a traded item and otherwise starts the trade; ends in the state of `TradeProtocol.RequestKeepsInv` |
| Trades.Trades.InternalStartTrade | src/game/game.cpp:5222-5255 | links the partners, enters the item into the index and acknowledges the request |
| Trades.Trades.InternalCloseTrade | src/game/game.cpp:5458-5497 | takes both items out of the index and resets both players, or does nothing during a transfer; ends in the state of `TradeProtocol.CloseKeepsInv` |
| Trades.Trades.TestAdd | src/creatures/players/player.cpp:5030-5158 | the search before the move: for a stack one to share or a free slot outside the player's own item, for anything else the first free slot, also inside an own item that is not worn |
| Trades.Trades.MoveTo | src/game/game.cpp:2110-2329 | the move to the first free slot of a player; not done when there is none or, in the first move, when it lies inside the player's own item |
| Trades.Trades.ExchangeItems | src/game/game.cpp:5307-5326 | both tests, then the two moves; what each container holds afterwards is what `Exchanges.ExchangeUnits` says |
| Trades.Trades.PlayerAcceptTrade | src/game/game.cpp:5257-5357 | the method takes exactly these steps of the model: the acceptance and, if that begins a transfer, the closings called back and the exchange |
| AuctionRules.PlaceBidKeepsWealth | src/game/game.cpp:11644-11680 | unless the house is changing hands no branch of a bid makes or loses anyone's money, in the bank and held by houses |
| AuctionRules.BidKeepsWealthIff | src/game/game.cpp:11612-11690 | on any house: exactly when a bid does so |
| AuctionRules.ABidOnAHandover | src/game/game.cpp:11612-11690 | a bid on a house that changes hands gives the new owner a rent that was not paid |
| AuctionRules.StartTransferKeepsWealthIff | src/game/game.cpp:11748-11791 | offering a house to a new owner keeps everyone's money if and only if nobody has bid on it |
| AuctionRules.OverwrittenBidIsGone | src/game/game.cpp:11784-11834 | otherwise the bidder's money does not come back when the offer is withdrawn, and nobody has it |
| AuctionRules.ABidIsLost | src/game/game.cpp:11612-11791 | a bid of fifty on a let house, then an offer by its owner: 150 gold are gone |
| AuctionRules.PlaceBidKeepsOrderIff | src/game/game.cpp:11644-11680 | highestBid stays at most internalBid unless the leader lowers his own bid below it |
| AuctionRules.LeadIsBought | src/game/game.cpp:11612-11690 | the internal bid strictly rises whenever the leader changes |
| AuctionLaws.BidTakesLeadIff | src/game/game.cpp:11612-11690 | a paid bid above the leader's limit leads, at a price of one more than that limit, or of nothing if it is the first; any other bid that counts becomes the price; money moves only with the lead |
| AuctionLaws.RunOfBids | src/game/game.cpp:11612-11690 | over every run of bids the first of the highest leads with its limit, at the price of the last bid behind it, or one more than the second highest |
| AuctionLaws.WinnerGetsBack | src/io/iomapserialize.cpp:317-323 | what the winner gets back at the end is the bid less that price |
| AuctionLaws.WinnerPaysTheOthersIff | src/io/iomapserialize.cpp:317-323 | so the winner pays at least what everyone else has bid, if and only if nobody bids after the winner or the last to do so bids as much as anyone else |
| AuctionLaws.APulledDownPrice | src/game/game.cpp:11644-11680 | bids of 100, 500 and 50: the price is 101 and then 50 |
| AuctionLaws.OfferIff | src/game/game.cpp:11748-11791 | who can offer a house to whom, and that a bid limit and price left from before stay |
| AuctionLaws.AcceptanceIff | src/game/game.cpp:11836-11868 | the buyer, once and with price and rent in the bank, accepts; nobody is credited |
| AuctionLaws.EndsIff | src/game/game.cpp:11793-11905 | the owner withdraws and the buyer declines, and nobody else |
| AuctionLaws.HandoverUndone | src/game/game.cpp:11748-11905 | an offer, perhaps accepted, that is withdrawn or declined leaves all accounts and the house as they were, but for the price |
| AuctionLaws.MoveOutIff | src/game/game.cpp:11692-11746 | the owner of a let house moves out and can take that back, which changes nothing |
| AuctionRules.StepKeepsWealthIff | src/game/game.cpp:11612-11944 | every step of bidding, on any house, transfer and moving out keeps everyone's money if and only if it is no bid on a house that changes hands and no offer of a house with a bid |
| AuctionRules.StepKeepsInv | src/game/game.cpp:11612-11944 | every step that does keeps every house in order |
| AuctionRules.RunKeepsWealth | src/game/game.cpp:11612-11944 | over every run of such steps everyone's money is the same |
| Auctions.Auctions.CountBids | src/game/game.cpp:11595-11608 | at least one exactly if the player leads on some house |
| Auctions.Auctions.ProcessBankAuction | src/game/game.cpp:11907-11944 | charges the bidder and gives the former bidder's money back, with 64-bit arithmetic, or refuses and changes nothing |
| Auctions.Auctions.TakeBid | src/game/game.cpp:11644-11680 | the four branches of a bid |
| Auctions.Auctions.HouseBid | src/game/game.cpp:11612-11690 | the limit, the count of other bids, then the bid; ends in the state that `AuctionLaws.BidTakesLeadIff` and `AuctionRules.BidKeepsWealthIff` are about |
| Auctions.Auctions.HouseTransfer | src/game/game.cpp:11748-11791 | the owner offers the rented house to another player at a price; nothing is paid yet |
| Auctions.Auctions.HouseCancelTransfer | src/game/game.cpp:11793-11834 | the owner takes the offer back; a price that was paid returns to the buyer |
| Auctions.Auctions.HouseAcceptTransfer | src/game/game.cpp:11836-11867 | the buyer pays price and rent once, if there is enough money |
| Auctions.Auctions.HouseRejectTransfer | src/game/game.cpp:11869-11905 | the buyer declines; a price that was paid returns |
| StackLaws.TransferEffect | src/game/game.cpp:2240-2273 | exactly m units leave the source and, but for what is dropped, arrive in the destination, also within one container; no stack becomes too large |
| StackLaws.MoveEffect | src/game/game.cpp:2110-2329 | a move carries min(count, maxQueryCount) of a stack, or nothing at all |
| StackLaws.MoveConservesIff | src/game/game.cpp:2110-2329 | nothing is lost if and only if it does not end in a slot beyond the capacity with something left that the stack there does not take |
| StackLaws.UnpagedMovesLoseNothing | src/items/containers/container.cpp:634-735 | a container without pages that is not overfull never loses anything |
| StackLaws.APagedMoveLoses | src/items/containers/container.cpp:709-716 | ten coins moved onto ninety-five in a paged container: five are gone, and no error is answered |
| StackLaws.AddIsExact | src/game/game.cpp:2366-2442 | when room for the whole stack is reported the whole count is added, but for a slot beyond the capacity and a remainder that is reported with stacking switched off; the recursion terminates |
| StackLaws.AddKeepsFit | src/game/game.cpp:2366-2442 | no stack ever exceeds its stack size |
| StackLaws.RewardsAreCut | src/game/game.cpp:2389-2428 | a reward container that has too little room takes what fits and answers no error |
| StackLaws.ARewardIsCut | src/game/game.cpp:2389-2428 | ten coins for a full reward container with ninety-five: five are gone |
| StackRoom.MaximumIsMost | src/items/containers/container.cpp:556-603 | the room that a container without pages reports is the most that any filling of it adds, and one filling adds just that: on every stack of the kind, or on the one in the slot asked for, and in new slots |
| StackRoom.MaximumOfOthers | src/items/containers/container.cpp:556-603 | what does not stack has the free slots; pages and no limit take any count |
| StackRoom.AdmitsIff | src/items/containers/container.cpp:490-554 | when one more thing is admitted |
| StackRoom.GoesWhere | src/items/containers/container.cpp:634-703 | onto the stack asked for, or the first of the kind with room, or into the slot asked for |
| StackRoom.TransferKeepsOrder | src/game/game.cpp:2240-2273 | a moved thing comes first, and all others stay in their order |
| StackRoom.FillsUpFirst | src/game/game.cpp:2240-2273 | a new stack is begun only when the one at the destination is full |
| StackRoom.AddKeepsOrder | src/game/game.cpp:2366-2442 | so is it with every addition |
| StackRoom.MoveAnswers | src/game/game.cpp:2110-2329 | a move answers that all is well if and only if all of the count goes; otherwise as much as there is room for |
| StackRoom.AddIsRefusedIff | src/game/game.cpp:2366-2400 | when an addition is refused, and that it then changes nothing |
| Stacks.Container.QueryDestination | src/items/containers/container.cpp:634-703 | the slot asked for, or the first stack of the kind with room |
| Stacks.Container.QueryMaxCount | src/items/containers/container.cpp:556-603 | free slots times the stack size plus the room on stacks, or everything without a limit |
| Stacks.Carry | src/game/game.cpp:2240-2273 | remove, fill the stack at the destination, put the rest into a slot of its own |
| Stacks.InternalMoveItem | src/game/game.cpp:2110-2329 | the method does what the model's move says, for one container or two |
| Stacks.InternalAddItem | src/game/game.cpp:2366-2442 | the recursive method does what the model's addition says |
| CheckCycle.StepKeepsInv | src/game/game.cpp:6867-6922 | in every interleaving a living creature occurs once in lists and pending insertions if it is flagged, and otherwise not at all |
| CheckCycle.RunKeepsInv | src/game/game.cpp:6867-6922 | so over every run |
| CheckCycle.SweptListNeverGrows | src/game/game.cpp:6892-6922 | the lists stay as they are during a sweep, whatever is called back, and the swept one ends no larger |
| CheckCycle.StepOfActive | src/game/game.cpp:6892-6922 | an active creature stays in its list, thinks when the sweep reaches it and not twice in a sweep |
| CheckCycle.ThinksWhenDue | src/game/game.cpp:6892-6922 | over any run it thinks as often as its list is swept |
| CheckCycle.ThinksOncePerTurn | src/game/game.cpp:6892-6922 | over any ten completed sweeps it thinks exactly once |
| CheckLaws.AddSetsFlagsIff | src/game/game.cpp:6867-6883 | adding sets both flags of a creature that is not removed, and queues it exactly if it was not flagged |
| CheckLaws.RemoveClearsIff | src/game/game.cpp:6885-6890 | removing clears the check of a flagged creature and nothing else |
| CheckLaws.VisitedThinksIff | src/game/game.cpp:6896-6918 | a visited creature thinks and is kept if and only if it exists, is checked and alive; otherwise it leaves and its flag is cleared |
| CheckLaws.InsertedWhereAdded | src/game/game.cpp:6878-6882 | a queued creature is put behind the list it was added to |
| CheckLaws.RemovedStops | src/game/game.cpp:6867-6922 | over every run, a creature that is removed never thinks until it is added again, and once its list has been swept it is in no list and not flagged |
| CheckLaws.DeadStops | src/game/game.cpp:6892-6922 | so does one that dies and is not revived |
| CheckLaws.UnflaggedNeverThinks | src/game/game.cpp:6892-6922 | one that is in no list and waits for none never thinks until it is added |
| CreatureChecks.Checks.AddCreatureCheck | src/game/game.cpp:6867-6883 | a creature that is not removed is marked, and queued for insertion unless it is flagged already |
| CreatureChecks.Checks.RemoveCreatureCheck | src/game/game.cpp:6885-6890 | a flagged creature is unmarked; it stays flagged until the sweep drops it |
| CreatureChecks.Checks.VisitCreature | src/game/game.cpp:6896-6918 | the creature thinks and stays, or is unflagged and leaves |
| CreatureChecks.Checks.CheckCreatures | src/game/game.cpp:6892-6922 | one sweep begins, visits every creature of the list with what it calls back behind it, and ends; it completes exactly one sweep, with callbacks between the visits |
| Summons.SetMaster | src/creatures/creature.cpp:1246-1277 | masters and lists of summons keep saying the same, and only the old and the new master's lists change |
| Summons.LeaveMaster | src/game/game.cpp:1295-1297 | the creature leaves its master unless that is removed itself |
| Summons.RemoveCreature | src/game/game.cpp:1254-1325 | terminates on every graph of summons, cyclic ones too, and removes exactly what the creature reaches through creatures that stood |
| Summons.RemoveSummons | src/game/game.cpp:1312-1315 | the list that is walked does not change under the loop, and everything reached through it is removed |
| Summons.ReachStaysInside | src/game/game.cpp:1312-1315 | a set closed under summons holds all that its members reach |
| DamageShares.AddDamageAdds | src/creatures/creature.cpp:1103-1122 | damage is added to the one attacker, listed once; none or less than none changes nothing |
| DamageShares.NeverTooMuchIff | src/creatures/creature.cpp:1076-1101 | whatever the victim is worth no more is handed out, if and only if the 32-bit total is 0 or at least the rewarded damage |
| DamageShares.AWrappedTotal | src/creatures/creature.cpp:1076-1101 | three attackers with 2^31-1, 2^31-1 and 3: far more than the one point is handed out |
| DamageShares.GainsOfEach | src/creatures/creature.cpp:536-585 | a known attacker other than the victim gets the floor of its part, and what goes to one recipient adds up |
| DamageShares.SharesAddUp | src/creatures/creature.cpp:536-585 | without wrap-around at most the lost experience is handed out, and when every attacker is rewarded the shortfall is smaller than their number |
| Deaths.Creature.AddDamagePoints | src/creatures/creature.cpp:1103-1122 | the method does what the model says and remembers the last attacker |
| Deaths.Creature.GetDamageRatio | src/creatures/creature.cpp:1076-1097 | the attacker's damage over the 32-bit sum of all damage |
| Deaths.Creature.GetGainedExperience | src/creatures/creature.cpp:1099-1101 | the share rounded down |
| Deaths.Creature.HandOut | src/creatures/creature.cpp:536-585 | one entry for each recipient, holding the sum of the shares of all attackers whose recipient it is |
| InsertBatches.PiecesAreRows | src/database/database.cpp:434-481 | when no row holds a separator the batches are whole rows that join, in order, to all rows, and no batch could have taken the next row too |
| InsertBatches.CuttingSucceedsIfRowsFit | src/database/database.cpp:434-481 | cutting succeeds if and only if every row fits the room that base and upsert text leave |
| InsertBatches.QueriesAreBounded | src/database/database.cpp:434-481 | no query is longer than MAX_QUERY_SIZE + 2 |
| InsertBatches.BudgetIsTheRest | src/database/database.cpp:454-457 | base text, upsert clause and room make eight megabytes, or wrap around |
| DBInserts.DBInsert.AddRow | src/database/database.cpp:400-422 | appends the row, and sends all rows before it first when the length has passed the packet size |
| DBInserts.DBInsert.UpsertQuery | src/database/database.cpp:441-452 | the text of the upsert clause, which `DBInserts.UpsertSetsColumns` is about |
| DBInserts.DBInsert.Execute | src/database/database.cpp:434-481 | sends the planned queries in order; fails only when there is no place to cut or a query is refused; the loop terminates |
| DBInserts.QueryInserts | src/database/database.cpp:474 | where base text, space, rows and upsert clause stand in a query |
| DBInserts.UpsertSetsColumns | src/database/database.cpp:441-452 | the upsert clause sets each column once, in order, with commas between |
| DBInserts.TwoRows | src/database/database.cpp:412-419 | the text of two rows |
| DBInserts.InsertAll | src/database/database.cpp:395-481 | which rows a whole session sends, batch by batch; for rows that do not contain `),(` and any columns to update, the database executes one query for each of some groups of whole rows, in order: base text, space, the rows and the upsert clause, each in its place; the groups join to all that is sent |
| DBInserts.NothingFlushed | src/database/database.cpp:400-407 | nothing is sent early exactly if the rows stay within the packet size or there is only one |
| DBInserts.EachRowIsSentOnceIff | src/database/database.cpp:400-481 | each row is sent once if and only if nothing is sent early |
| DBInserts.ARowSentTwice | src/database/database.cpp:400-481 | two rows, the first of which is sent twice |
| EventLists.RegisterKeepsInv | src/creatures/creature.cpp:1548-1567 | a bit is set exactly for the types that are listed, and no event is listed twice |
| EventLists.UnregisterKeepsInv | src/creatures/creature.cpp:1569-1600 | so after an event is taken out, and only that event is |
| EventLists.UnregisterKeepsOrder | src/creatures/creature.cpp:1583-1595 | the events that stay are in their order |
| EventLists.EventsAreThoseOfTheKind | src/creatures/creature.cpp:1633-1647 | the shortcut through the bit gives exactly the events of the type, in the order of the list |
| EventLists.RunListsTheRegistered | src/creatures/creature.cpp:1548-1600 | after any calls the listed events are those whose last call registered them |
| CreatureEvents.Creature.RegisterCreatureEvent | src/creatures/creature.cpp:1548-1567 | true exactly for a known event that was not listed |
| CreatureEvents.Creature.EraseEvent | src/creatures/creature.cpp:1583-1595 | the erasing loop takes out the event and tells whether its type is still listed |
| CreatureEvents.Creature.UnregisterCreatureEvent | src/creatures/creature.cpp:1569-1600 | true exactly for a known event of a type that was listed |
| CreatureEvents.Creature.GetCreatureEvents | src/creatures/creature.cpp:1633-1647 | the events of a type, in order |
| Bosstiary.PointsAreTheFewest | src/io/io_bosstiary.cpp:224-246 | from 1250 points on, a bonus is reached if and only if its points are |
| Bosstiary.BonusRoundTripIff | src/io/io_bosstiary.cpp:224-246 | the points of a bonus give it back if and only if it is 25 to 50 or 100 to 32863 |
| Bosstiary.MorePointsGiveLessIff | src/io/io_bosstiary.cpp:224-232 | more points give less only from 250 to 251-259 |
| Bosstiary.BonusIsBounded | src/io/io_bosstiary.cpp:224-232 | no number of points gives a bonus above 32863 |
| Bosstiary.PointsInSteps | src/io/io_bosstiary.cpp:234-246 | the points for a bonus above 100 are a sum of growing steps |

## Left out

General

- Floating point is exact arithmetic: the 2% fee, the damage ratio, ceilings and square roots are integers or exact quotients.
- Messages, effects, spectators, metrics, logging, saving and Lua callbacks; callbacks that matter are inputs (what is allowed, what happens in between).
- Sums of two 64-bit amounts of money do not wrap in the payment and market parts.

OTB codec

- FileStream.getString, and data of 4 GiB or more; the host is little-endian.
- The stream that getProps fills is a snapshot: that the next call overwrites its buffer is not modelled; parseTree is called once for each loader.

Money

- Containers are values with identities, not heap objects; removing coins that were found and placing change are taken to succeed, the places being an input; `std::sort` is its contract.

Market

- Which stack in an inbox a delivery is merged with (a new stack comes first); a tier given to goods that merge; a ware has the number of its item; offers are found by an index, which may be none; expiry, history, and the limits of offers, which are one input.
- Tiers of store coins have no meaning and are kept only on the offer; coin accounts always load.

Trade

- The trade's containers are values (`Stacks.InternalMoveItem` does the same moves on objects).
- Exchanges.ExchangeMovesIff: equipment slots take nothing, whether a slot suits an item being a matter of item types,
  and a player's containers are searched in the order in which they are listed, which an exchange does not change.
- Weights, owners and scripts are one input for the tests and the moves; the house trade started from Lua.

Auction

- The settlement at the end of an auction, of which only what the winner gets back is modelled, without the 32 bits in which the price is loaded; names are canonical and a credit to the empty name does nothing; limits on houses and accounts are inputs.

Stacks

- The branch for an exchange of items, moves to a parent container by slot 254, the walk into a bag that lies in the slot, tiles and players as destinations, and limits on nested containers.
- A shared count of 255 for moves up one container.

Scheduler and creatures

- Atomic flags are plain; the deferred attack of monsters is not a step; the random list is an input.
- Summons: tiles, zones and spectators; the weak pointer to the master is a plain one.
- Experience: the most damage and the killers, unjustified kills, the player's own variant of the share, and a signed overflow of one attacker's damage, which is undefined.
- An event keeps its type while it is listed.

Database

- The connection: a query is appended to a list or refused; the connection's own length limits are one number.

Boss points

- Points beyond 32 bits, whose conversion is undefined.
