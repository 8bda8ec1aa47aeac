# Auction house engine — a Dafny model

This project models the auction-house engine of sunstrider-core, a
World of Warcraft server. The model covers the following parts:

- **Registry** (`AuctionHouseMgr`). It owns three houses: alliance, horde
  and neutral. Each auctioneer is routed to one of them. The registry also
  holds the custody table of listed items and computes listing fees. It
  runs the periodic expiry sweep, and it sends the settlement mail: sale
  pending, sale successful, item won, listing expired.
- **Houses** (`AuctionHouseObject`). Each is an id-keyed map of listings
  (`AuctionEntry`), walked in ascending id order. A house supports the
  sweep, the removal of one seller's listings, the per-seller count and the
  paginated search.
- **Request handlers** (`WorldSession`). Sell, bid/buyout and cancel are each
  a chain of guards followed by one change to four things: balances, a
  house, custody and outbound mail.
- **Start-up load** of stored listings, and the shape of the stored row.

Everything is a value:

- A house is a `map<nat, Entry>`.
- Custody is a `set<ItemGuid>`.
- Balances are a `map<Player, nat>`.
- Mail is a `seq<Event>` that is only ever appended to.

Each operation is a pure function from the old registry to an answer and
the new registry.

The rest of the server appears only through the function-valued fields of
`Common.World`:

- the two-side switch;
- whether a character is online;
- the character-cache account;
- the session address;
- the faction-template mask;
- the auction-house store;
- the creature spawn and template tables.

The current time is a parameter, and so is the seller's inventory entry for
the offered item.

The modules follow the program: `Common` (ids, constants, the world),
`Listing` (`AuctionEntry`), `Routing` (`GetAuctionsMap`,
`GetAuctionHouseEntry`, `GetAuctionDeposit`), `Custody` (`mAitems`),
`Settlement` (the mail senders), `AuctionHouse` (`AuctionHouseObject`),
`Registry` (`AuctionHouseMgr` state, invariant, update and owner removal),
`Handler` (the three request handlers), `Loading` (`LoadAuctions`).

The registry invariant `Registry.Valid` requires four things:

- every listing is stored under its own id, below the next id to be handed
  out;
- each listing has a seller, and it has a bid exactly when it has a bidder;
  that bidder is not the seller;
- the bid stays below any buyout price;
- no item is listed twice, in one house or across houses, and custody holds
  exactly the listed items.

Sell, bid, cancel, the sweep and the owner removal each keep the invariant.

Four behaviours of the server are easy to miss:

- The seller of a sold listing is paid `bid + deposit - cut`, so the deposit
  comes back on a sale (AuctionHouseMgr.cpp:197). Cancelling does not
  return it (AuctionHouseHandler.cpp:400-476).
- The anti-bot window is 60 seconds, although the comment above it says 10.
  It applies to every bid, not only to buyouts, and it is skipped when the
  seller is offline (AuctionHouseHandler.cpp:308-314).
- The listing cap refuses only when a seller already has more than
  MAX_AUCTIONS listings. A seller with exactly MAX_AUCTIONS can list one
  more (AuctionHouseHandler.cpp:168).
- No bid is compared with the starting price. A first bid of one coin is
  accepted (AuctionHouseHandler.cpp:317-326).

## Model

| member | source | states |
|---|---|---|
| Listing.OutBid | src/server/game/AuctionHouseMgr.cpp:676-683 | the minimum raise is never 0; it is 1 for every bid below 100; for a bid of 100 or more it is a multiple of 5 and one twentieth of the bid rounded down to whole hundreds |
| Listing.OutBidAtMostBid | src/server/game/AuctionHouseMgr.cpp:676-683 | the minimum raise never exceeds a nonzero bid |
| Listing.OutBidMonotone | src/server/game/AuctionHouseMgr.cpp:676-683 | a larger bid never asks for a smaller raise |
| Listing.CutPercent | src/server/game/AuctionHouseMgr.cpp:665-674 | the cut percentage is 5 when houses are shared, otherwise the house's own rate |
| Listing.Cut | src/server/game/AuctionHouseMgr.cpp:665-674 | the cut is the 32-bit product of the cut percentage and the bid, divided by 100 and rounded down; while the product fits in 32 bits this is the percentage of the bid, and the cut is never more than the bid |
| Listing.CutWraps | src/server/game/AuctionHouseMgr.cpp:673 | at the shared houses' 5 percent, a bid of 858,993,460 wraps the product to 4, so the house takes no cut where the exact cut would be 42,949,673 |
| Listing.Payout | src/server/game/AuctionHouseMgr.cpp:197 | the seller's payment plus the cut equals bid plus deposit, so the deposit is refunded on a sale |
| Listing.ToRow | src/server/game/AuctionHouseMgr.cpp:691-697 | the stored row holds, column by column in the table's order, the listing's id, auctioneer, item, item template, seller, buyout price, expiry time, bidder, bid, starting price and deposit; the listing time and the store row are not stored |
| Listing.FromRow | src/server/game/AuctionHouseMgr.cpp:329-341 | a loaded listing has listing time 0 and an expiry below 2^32; a row whose time fits in 32 bits is reproduced exactly by saving the loaded listing |
| Listing.RowRoundTrip | src/server/game/AuctionHouseMgr.cpp:329-341 | saving then loading a listing whose expiry fits in 32 bits gives back the listing with its listing time reset to 0 |
| Listing.RowTimeTruncated | src/server/game/AuctionHouseMgr.cpp:336 | an expiry of 2^32 does not survive a save and reload, because the time column is read back as a 32-bit value; the model reads it back reduced modulo 2^32, as 0 |
| Routing.AuctionsMap | src/server/game/AuctionHouseMgr.cpp:32-47 | the neutral house when houses are shared or the faction is unknown; otherwise alliance exactly when the mask has the alliance bit, horde exactly when it has the horde bit but not the alliance bit, and neutral otherwise |
| Routing.AuctionHouseId | src/server/game/AuctionHouseMgr.cpp:425-463 | the store row id lies between 1 and 7, and it is 7 whenever houses are shared |
| Routing.HouseIdAgreesWithRouting | src/server/game/AuctionHouseMgr.cpp:425-463 | for a faction outside the fixed city table, row 1 goes with the alliance house, row 6 with the horde house and row 7 with the neutral house |
| Routing.GoblinTownsUseGoblinHouse | src/server/game/AuctionHouseMgr.cpp:442-444 | Booty Bay, Gadgetzan and Everlook always use row 7 |
| Routing.DepositPercent | src/server/game/AuctionHouseMgr.cpp:54-66 | the fee rate is 15 or 75 percent; it is 75 exactly when houses are not shared and the store row's id, looked up as a faction template, is missing or has neither faction bit |
| Routing.Deposit | src/server/game/AuctionHouseMgr.cpp:49-82 | the fee is 0 for an item without a sell price; otherwise it is sell price × rate × stack size × whole duration units, divided by 100 and rounded down |
| Routing.DepositMonotone | src/server/game/AuctionHouseMgr.cpp:49-82 | a bigger stack or a longer duration never costs less |
| Routing.DepositZeroBelowMinimum | src/server/game/AuctionHouseMgr.cpp:70 | a duration below the minimum unit costs nothing |
| Custody.AddItem | src/server/game/AuctionHouseMgr.cpp:393-398 | requires the item to be absent; afterwards it is present and nothing else changed |
| Custody.RemoveItem | src/server/game/AuctionHouseMgr.cpp:400-409 | reports false and changes nothing exactly when the item is absent; otherwise it drops exactly that item |
| Custody.AddThenRemove | src/server/game/AuctionHouseMgr.cpp:393-409 | releasing an item just taken in reports true and restores the table |
| Custody.RemoveTwice | src/server/game/AuctionHouseMgr.cpp:400-409 | a second release of the same item reports false and changes nothing |
| Settlement.WonMail | src/server/game/AuctionHouseMgr.cpp:85-143 | the item goes to exactly one place: to the winner by mail if the mail system can reach them, otherwise it is destroyed; custody loses at most that item, and an online winner's item stays in custody until the caller drops it; no money is mailed |
| Settlement.SalePendingMail | src/server/game/AuctionHouseMgr.cpp:145-172 | one notice without money or item to a reachable seller, none to an unknown one; the mail carries no money |
| Settlement.SuccessfulMail | src/server/game/AuctionHouseMgr.cpp:175-209 | one payment to a reachable seller, whose amount plus the cut equals bid plus deposit; nothing to an unknown seller, so the money mailed is exactly `Payout` or 0 |
| Settlement.ExpiredMail | src/server/game/AuctionHouseMgr.cpp:212-249 | corrected sender: the item goes back to the listing's owner when the mail system can reach them, otherwise it is destroyed; it is never carried away twice, an offline owner's item leaves custody, and no money is mailed |
| Settlement.ExpiredMailAsWritten | src/server/game/AuctionHouseMgr.cpp:212-249 | the sender as written fails (None) exactly when custody holds the item and the owner is offline but known to the character cache; otherwise it agrees with the corrected sender |
| Settlement.ExpiredMailOfflineOwner | src/server/game/AuctionHouseMgr.cpp:240 | for an offline owner with an account, the sender as written dereferences a null owner while the corrected one mails the item back |
| Settlement.OutbidMail | src/server/game/AuctionHouseHandler.cpp:94-117 | a reachable displaced bidder is mailed exactly their old bid back, with no item; an unreachable one gets nothing, so the money mailed is the old bid or 0 |
| Settlement.CancelledToBidderMail | src/server/game/AuctionHouseHandler.cpp:120-137 | a reachable bidder of a cancelled listing is mailed exactly their bid back, and no money goes anywhere else |
| Settlement.SettleEntry | src/server/game/AuctionHouseMgr.cpp:474-490 | a listing without a bidder is settled exactly as an expired one; a listing with a bidder pays its reachable seller `Payout` and mails the item to its reachable winner; either way its item is carried away exactly once when custody holds it, and no other item is touched; the money mailed in total is exactly `Payout` when there is a bidder and the seller is reachable, and 0 otherwise |
| AuctionHouse.SettleWhere | src/server/game/AuctionHouseMgr.cpp:465-500 | one pass over the keys in ascending order removes exactly the selected listings and their items, keeps every other listing as it was, and only appends mail |
| AuctionHouse.SettleWhereNotifies | src/server/game/AuctionHouseMgr.cpp:474-490 | in a house that lists no item twice, each listing the pass settles gets its mail: without a bid, its item back to a reachable seller; with a bid, the payment to a reachable seller and the item to a reachable winner |
| AuctionHouse.SettleWhereCarries | src/server/game/AuctionHouseMgr.cpp:478-490 | every item the pass mails or destroys belongs to a listing it settled |
| AuctionHouse.SettleWhereMail | src/server/game/AuctionHouseMgr.cpp:474-490 | every settled listing gets the mail its settlement calls for, every item the pass mails or destroys belongs to a settled listing, and the money mailed by the pass is exactly the sum of the settled listings' payouts (`PassPay`) |
| AuctionHouse.SettleWherePays | src/server/game/AuctionHouseMgr.cpp:474-490 | the money a pass mails is the sum over the keys, in order, of each selected listing's payout to a reachable seller with a bidder |
| AuctionHouse.PassPayWithout | src/server/game/AuctionHouseMgr.cpp:474-490 | a listing whose key the rest of the pass never visits does not change what the rest of the pass pays |
| AuctionHouse.Sweep | src/server/game/AuctionHouseMgr.cpp:465-500 | the sweep removes from the house and from custody exactly the listings with `now > expireTime`, keeps every other listing unchanged, and only appends mail |
| AuctionHouse.SweepMail | src/server/game/AuctionHouseMgr.cpp:465-500 | each expired listing without a bid has its item mailed back to a reachable seller; each one with a bid pays a reachable seller `Payout` and mails the item to a reachable winner; only items of expired listings are mailed or destroyed; the money mailed is exactly the sum of the expired listings' payouts |
| AuctionHouse.SettleNothing | src/server/game/AuctionHouseMgr.cpp:472 | a pass in which no listing is selected changes nothing |
| AuctionHouse.SweepIdempotent | src/server/game/AuctionHouseMgr.cpp:465-500 | a second sweep at the same time removes and sends nothing |
| AuctionHouse.RemoveAllOf | src/server/game/AuctionHouseMgr.cpp:503-534 | removes from the house and from custody exactly the listings of the given seller, settling them as the sweep does; other sellers' listings are untouched |
| AuctionHouse.RemoveAllOfMail | src/server/game/AuctionHouseMgr.cpp:503-534 | each of the seller's listings is settled with the same mail as the sweep sends; only items of their listings are mailed or destroyed; the money mailed is exactly the sum of their payouts |
| AuctionHouse.RemoveAllOfIdempotent | src/server/game/AuctionHouseMgr.cpp:503-534 | removing a seller's listings a second time changes nothing |
| AuctionHouse.AuctionsCount | src/server/game/AuctionHouseMgr.cpp:567-577 | the loop's count equals the number of the seller's listings in the house |
| AuctionHouse.MatchingShowsExactly | src/server/game/AuctionHouseMgr.cpp:583-618 | a search lists a key exactly when it is among the keys searched, its listing's item is still in custody and the listing passes the client's filters |
| AuctionHouse.Window | src/server/game/AuctionHouseMgr.cpp:620-626 | a page holds at most 50 listings, and none when `listfrom` is at or past the number of shown listings |
| AuctionHouse.Paginate | src/server/game/AuctionHouseMgr.cpp:583-626 | the loop counts every shown listing in `total` and gathers exactly the window of shown listings starting at position `listfrom` |
| AuctionHouse.PageStep | src/server/game/AuctionHouseMgr.cpp:583-626 | one visited key keeps the loop's account: `total` counts the shown listings so far and the page is their window from `listfrom` |
| AuctionHouse.BuildListAuctionItems | src/server/game/AuctionHouseMgr.cpp:579-628 | walking the house in ascending id order, `total` is the number of shown listings and the page is their window from position `listfrom` on |
| Registry.EmptyValid | src/server/game/AuctionHouseMgr.cpp:22-24 | an empty registry satisfies the invariant |
| Registry.DropKeepsValid | src/server/game/AuctionHouseMgr.cpp:400-409 | dropping listings from a house together with exactly their items keeps the invariant |
| Registry.SweepHouse | src/server/game/AuctionHouseMgr.cpp:465-500 | sweeping one house changes only that house, custody and mail, removing exactly its expired listings and their items |
| Registry.Update | src/server/game/AuctionHouseMgr.cpp:411-416 | after the horde, alliance and neutral sweeps, each house has lost exactly its expired listings; balances and the id generator are untouched, and mail is only appended |
| Registry.UpdateKeepsValid | src/server/game/AuctionHouseMgr.cpp:411-416 | the registry-wide sweep keeps the invariant |
| Registry.SweepHouseKeepsValid | src/server/game/AuctionHouseMgr.cpp:465-500 | sweeping one house keeps the invariant |
| Registry.SweepHouseNothing | src/server/game/AuctionHouseMgr.cpp:465-500 | sweeping a house with nothing expired changes nothing |
| Registry.UpdateIdempotent | src/server/game/AuctionHouseMgr.cpp:411-416 | a second registry-wide sweep at the same time changes nothing |
| Registry.RemoveFromHouse | src/server/game/AuctionHouseMgr.cpp:503-534 | removing a seller's listings from one house changes only that house, custody and mail |
| Registry.RemoveAllAuctionsOf | src/server/game/AuctionHouseMgr.cpp:418-423 | afterwards no house holds a listing of that seller, each house has lost exactly that seller's listings, and balances are untouched |
| Registry.RemoveFromHouseKeepsValid | src/server/game/AuctionHouseMgr.cpp:503-534 | removing a seller's listings from one house keeps the invariant |
| Registry.RemoveAllAuctionsOfKeepsValid | src/server/game/AuctionHouseMgr.cpp:418-423 | removing a seller's listings keeps the invariant |
| Handler.ListingTime | src/server/game/AuctionHouseHandler.cpp:175 | the duration is minutes times 60 in 32-bit arithmetic: exact when the product fits, and always below 2^32 |
| Handler.ListingTimeWraps | src/server/game/AuctionHouseHandler.cpp:175-186 | a request for 1073742544 minutes wraps around to exactly twelve hours and passes the duration check |
| Handler.Sell | src/server/game/AuctionHouseHandler.cpp:140-261 | a sale succeeds exactly when every guard passes, and every refusal leaves the registry unchanged. The guards: nonzero item, bid and time; an auctioneer with a store row; at most MAX_AUCTIONS listings already; an offered duration; an item not already listed, present, tradeable, not conjured and not timed; money for the deposit. A success debits exactly the deposit, puts a listing with no bidder and no bid under the next id into the routed house, and takes the item into custody |
| Handler.PutUp | src/server/game/AuctionHouseHandler.cpp:223-251 | the seller pays exactly the deposit, the listing enters the chosen house, the item enters custody, and nobody else's balance changes |
| Handler.AddKeepsValid | src/server/game/AuctionHouseHandler.cpp:244-251 | adding a listing under a fresh id with an item not in custody keeps the invariant |
| Handler.SellKeepsValid | src/server/game/AuctionHouseHandler.cpp:140-261 | selling keeps the invariant |
| Handler.SellCapAdmitsOneMore | src/server/game/AuctionHouseHandler.cpp:166-172 | a seller with exactly MAX_AUCTIONS listings in a house lists one more there, reaching MAX_AUCTIONS + 1 |
| Handler.Raise | src/server/game/AuctionHouseHandler.cpp:337-360 | the listing takes the new bid and bidder; a bidder raising their own bid pays the difference, a new bidder pays the whole price; the displaced bidder, if reachable, is mailed exactly their old bid; custody is untouched |
| Handler.BuyoutMail | src/server/game/AuctionHouseHandler.cpp:362-384 | a buyout mails the displaced bidder's refund, pays the reachable seller `Payout` at the buyout price and always sends the item, while custody holds it, to the buyer, who is the online requester; a reachable seller also gets the sale-pending notice; the item is the only thing carried, once; the money mailed is exactly the refund (the old bid, when a reachable other character held it) plus the seller's `Payout` when reachable |
| Handler.BuyoutNotices | src/server/game/AuctionHouseHandler.cpp:362-384 | the notices of a buyout carry no item; they refund a reachable displaced bidder other than the buyer, and give a reachable seller the sale-pending notice and `Payout` at the buyout price; the money is exactly the refund plus that payout |
| Handler.BuyOut | src/server/game/AuctionHouseHandler.cpp:362-393 | the buyer pays the buyout price, less their own standing bid, never the offered price; the listing leaves its house and its item leaves custody in the same call |
| Handler.PlaceBid | src/server/game/AuctionHouseHandler.cpp:265-397 | for a request from an online character with an account, a bid or buyout is accepted exactly when every guard passes (`BidAllowed`): an existing listing, not the bidder's own, not an offline seller's on the bidder's account, outside the 60-second window, a price above the bid, a buyout or at least the minimum raise, and within the bidder's money. The wait answer comes exactly when the listing may be bid on and the window holds, whatever the price, so the window is checked before the price guards. The only error answer is "cannot bid on own auction", and any refusal leaves the registry unchanged. An accepted request raises the bid when its price is below a nonzero buyout price (or there is none), and then the price is at least bid + OutBid(bid); an accepted request at or above a nonzero buyout price buys the listing out |
| Handler.ReplaceKeepsValid | src/server/game/AuctionHouseHandler.cpp:356-357 | updating a listing in place with the same id and item keeps the invariant |
| Handler.PlaceBidKeepsValid | src/server/game/AuctionHouseHandler.cpp:265-397 | bidding and buying out keep the invariant |
| Handler.RaiseKeepsValid | src/server/game/AuctionHouseHandler.cpp:337-360 | a raise by someone other than the seller, below any buyout price, keeps the invariant |
| Handler.BuyOutKeepsValid | src/server/game/AuctionHouseHandler.cpp:362-393 | a buyout keeps the invariant |
| Handler.FirstBidIgnoresStartBid | src/server/game/AuctionHouseHandler.cpp:317-326 | a one-coin first bid is accepted whatever starting price the seller set |
| Handler.BotWindowNeedsOnlineSeller | src/server/game/AuctionHouseHandler.cpp:308-314 | a bid on an offline seller's listing is never told to wait |
| Handler.RaisesAccumulate | src/server/game/AuctionHouseHandler.cpp:317-357 | two accepted raises in a row push the bid up by at least two minimum raises |
| Handler.CancelMail | src/server/game/AuctionHouseHandler.cpp:433-450 | a cancel refunds a reachable bidder's whole bid and mails the item to the seller; the item is the only thing carried, and the money mailed is exactly that bid, or 0 without a reachable bidder |
| Handler.Withdraw | src/server/game/AuctionHouseHandler.cpp:433-476 | the seller pays the cut when there is a bidder and nothing otherwise; the listing leaves its house and its item leaves custody; nobody else's balance changes |
| Handler.Cancel | src/server/game/AuctionHouseHandler.cpp:400-476 | a missing listing, someone else's listing or one whose item is not in custody is an internal error; a seller unable to pay the cut on a standing bid is silently refused (no answer), as is a request without an auctioneer; every refusal leaves the registry unchanged, and otherwise the listing is withdrawn |
| Handler.CancelKeepsValid | src/server/game/AuctionHouseHandler.cpp:400-476 | cancelling keeps the invariant |
| Handler.CancelUnbid | src/server/game/AuctionHouseHandler.cpp:400-476 | the seller cancelling their own listing that has no bid, with its item still in custody, always succeeds, costs nothing, and mails only the item back to the seller; only that listing and its item leave the registry |
| Handler.SellThenCancel | src/server/game/AuctionHouseHandler.cpp:140-261 | listing an item and then cancelling it under the id the sale handed out succeeds, gives every house and custody back as they were and returns the item by mail, but the seller is down exactly the deposit: cancelling does not refund it |
| Loading.Resolve | src/server/game/AuctionHouseMgr.cpp:343-371 | a row is placed exactly when its auctioneer's spawn, creature template and store row all exist, into the house its template's faction routes to |
| Loading.LoadRow | src/server/game/AuctionHouseMgr.cpp:326-386 | an unresolved row is returned as expired and dropped; a row whose item custody does not hold is dropped silently; any other row enters its routed house; loading never adds to custody, never pays anyone and only appends mail |
| Loading.LoadSavedListing | src/server/game/AuctionHouseMgr.cpp:329-384 | a saved listing whose auctioneer still resolves, whose expiry fits in 32 bits and whose item is in custody is read back into its house unchanged, except that its listing time is 0 |
| Loading.LoadUnresolvedReturnsItem | src/server/game/AuctionHouseMgr.cpp:343-351 | a row whose auctioneer no longer exists mails its item back to a reachable seller and leaves every house unchanged |
| Loading.RowOutcomeNew | src/server/game/AuctionHouseMgr.cpp:326-386 | loading a row whose id and item no earlier row touched gives that row its outcome |
| Loading.RowOutcomeKept | src/server/game/AuctionHouseMgr.cpp:296-391 | loading a row with another id keeps an earlier row's outcome |
| Loading.UntouchedKept | src/server/game/AuctionHouseMgr.cpp:296-391 | loading a row leaves the id and item of a row with a different id and item as they were |
| Loading.LoadStep | src/server/game/AuctionHouseMgr.cpp:296-391 | with distinct ids and items, after each row the rows loaded so far have their outcome and the rest are untouched |
| Loading.NewKeyFromRow | src/server/game/AuctionHouseMgr.cpp:343-384 | a key that loading one row adds to a house is that row's id, and the row's auctioneer routes to that house |
| Loading.LoadAuctions | src/server/game/AuctionHouseMgr.cpp:296-391 | loading all rows never adds to custody, pays nobody, only appends mail, and every listing it adds to a house comes from a row whose auctioneer routes to that house. When no two rows share an id or an item, every row ends as `RowOutcome` says: a resolved row whose item custody held is in its routed house as `FromRow`; an unresolved one has its item mailed back to a reachable seller and out of custody unless the seller is online; a resolved row whose item was missing adds nothing |

## Left out

- Packet building and parsing are not modelled: `BuildAuctionInfo`, `SendAuctionCommandResult` and the notifications. A request's answer is a result code instead.
- SQL statements and transactions are not modelled. Persistence is treated as atomic and leaves no trace in the model; only the row shape and the load filter are kept.
- The contents of mail subjects and bodies, and the internals of `SendMailTo`, are not modelled. Mail is an event carrying a recipient, a kind, an amount and an optional item.
- Floating-point rates are not modelled. Deposit, cut and time rates are fixed at 1, and the 0.15 and 0.75 deposit factors are the integer percentages 15 and 75. Because the double 0.15 lies just below 15/100, the source's deposit is sometimes one copper below the model's: a sell price of 9, a stack of 20 and 12 hours give 26 in the source and 27 in the model.
- Listing.Cut: models the 32-bit wrap of `cutPercent * bid` but not the single-precision float the product then passes through. Once `cutPercent * bid` exceeds 2^26 (about 67.1 million, so from a bid of about 13.4 million copper at 5% and 4.47 million at 15%), the float's rounding can make the source's cut one copper above or below the model's.
- Handler.PlaceBid: the requester is assumed online and on an account, as the handler's own session player always is. Sell and Cancel do not need this, because nothing they promise depends on the requester's presence or account.
- Handler.Sell: the new listing's id comes from `GenerateAuctionID` (AuctionHouseHandler.cpp:230), which lives in ObjectMgr and is not part of this model. It is assumed to hand out increasing ids above every stored id; `nextId` is that counter, unbounded. The invariant's `k < nextId`, the "next id" of a sale and the fresh key in Handler.AddKeepsValid and Handler.SellKeepsValid rest on this assumption.
- Listing.RowTimeTruncated: the value a 64-bit expiry of 2^32 reads back as depends on the SQL type of the `time` column and on how `Field::GetUInt32` parses it, neither of which is part of this model. The model assumes the column keeps the value and `GetUInt32` reduces it modulo 2^32 (Listing.FromRow); only that the expiry does not survive follows from the 32-bit read alone.
- Routing.Deposit: 32-bit overflow of the fee product and of its conversion is not modelled; amounts are unbounded integers.
- Registry.ModifyMoney: the balance is floored at 0 but not capped at the server's money maximum. Player.cpp, which holds that cap, is not part of this model.
- AuctionHouseMgr.h is not part of this model. MIN_AUCTION_TIME = 12 hours, MAX_AUCTIONS = 50 and the faction-mask bits 2 (alliance) and 4 (horde) are assumed values. Adding a listing (`AddAuction`) is assumed to store it under its id, replacing any listing already there. A house's listings are assumed to be an ordered `std::map` keyed by id, so every pass visits them in ascending id order.
- `BuildListBidderItems`, `BuildListOwnerItems`, `HandleAuctionHello` and the list handlers only read the houses and build packets, so they are not modelled. Of the search, only pagination is modelled; the item filters (class, level, usability, localized name) are one predicate parameter.
- `LoadAuctionItems` and `Item::LoadFromDB` are not modelled. Custody at load time is a parameter.
- Item ownership bookkeeping in the item table, logging, and the feign-death removal on cancel are left out.
- Loading.LoadRow: a row that cannot be placed (auctioneer, creature template or store row missing) is settled with a placeholder store row. The source leaves that pointer unset when the auctioneer or its template is missing, and sets it to the null result of `GetAuctionHouseEntry` when the store row is missing (AuctionHouseMgr.cpp:363-364); either way its expired-mail path passes `auction->GetHouseId()` as the mail sender (AuctionHouseMgr.cpp:240), which reads that pointer for exactly these rows. AuctionHouseMgr.h, which defines `GetHouseId`, is not part of this model, so the sender's value there is not modelled; mail in the model has no sender.
- The order in which the mail system delivers mail is not modelled. Mail to an online recipient and mail to an offline one differ only in when the item leaves custody.

## Findings

| source | as written | input that shows it | evidently intended | confidence | as-written member | corrected member |
|---|---|---|---|---|---|---|
| src/server/game/AuctionHouseMgr.cpp:240 | `SendAuctionExpiredMail` passes `owner->GetGUIDLow()` as the recipient. `owner` is null whenever the seller is offline but known to the character cache, and the branch is entered exactly then. | An unsold listing of an offline seller with an account expires. At start-up, when nobody is online, the same happens to any stored listing whose auctioneer no longer exists. | Mail the item to `auction->owner`. | high; not executed | Settlement.ExpiredMailAsWritten, Settlement.ExpiredMailOfflineOwner | Settlement.ExpiredMail |
