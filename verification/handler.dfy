/** The three auction requests a client sends (WorldSession's auction
    handlers): list an item, bid on or buy out a listing, cancel one's own
    listing. Each is a chain of guards checked in order; the first that
    fails ends the request, and a request that passes them all makes one
    change to balances, a house, custody and the outbound mail. */
module Handler {
  import opened Common
  import opened Listing
  import opened Routing
  import opened Custody
  import opened Settlement
  import opened AuctionHouse
  import opened Registry

  /** The auctioneer the client talks to, when it exists and is in reach. */
  datatype Npc = Npc(guid: nat, faction: nat)

  /** What the seller's inventory says about the offered item. */
  datatype ItemInfo = ItemInfo(
    template: nat,
    sellPrice: nat,
    count: nat,
    tradeable: bool,
    conjured: bool,
    duration: nat)          // remaining lifetime of a timed item, 0 if none

  datatype AuctionError = InternalError | ItemNotFound | NotEnoughMoney | CannotBidOwnAuction

  datatype SellResult = SellIgnored | TooManyAuctions | SellRejected(error: AuctionError) | Sold(id: nat)
  datatype BidResult = BidIgnored | BidRejected(error: AuctionError) | MustWait(seconds: nat) | BidAccepted | BoughtOut
  datatype CancelResult = CancelIgnored | CancelRejected(error: AuctionError) | Cancelled

  /** A request's answer and the registry after it. */
  datatype Outcome<R> = Outcome(result: R, market: Market)

  /** The house an auctioneer trades in. */
  function HouseFor(w: World, npc: Npc): HouseKind {
    AuctionsMap(w, npc.faction)
  }

  // ---------------------------------------------------------------------
  // Selling

  /** `item` is the seller's inventory slot for `itemGuid`: None when the
      character does not carry that item. `minutes` is the 32-bit duration
      field of the request. */
  datatype SellRequest = SellRequest(
    player: CharGuid,
    npc: Option<Npc>,
    itemGuid: ItemGuid,
    item: Option<ItemInfo>,
    bid: nat,
    buyout: nat,
    minutes: nat)

  /** The listing duration in seconds: minutes times sixty, in 32-bit
      arithmetic. */
  function ListingTime(minutes: nat): (t: nat)
    ensures t < UINT32
    ensures minutes * MINUTE < UINT32 ==> t == minutes * MINUTE
  {
    (minutes * MINUTE) % UINT32
  }

  /** The three durations the client offers. */
  predicate OfferedDuration(t: nat) {
    t == MIN_AUCTION_TIME || t == 2 * MIN_AUCTION_TIME || t == 4 * MIN_AUCTION_TIME
  }

  /** Every guard of a sell request passes. */
  ghost predicate SellAllowed(w: World, m: Market, rq: SellRequest) {
    && rq.itemGuid != 0 && rq.bid != 0 && rq.minutes != 0
    && rq.npc.Some?
    && w.houseStore(AuctionHouseId(w, rq.npc.value.faction)).Some?
    && CountOwned(HouseOf(m, HouseFor(w, rq.npc.value)), rq.player) <= MAX_AUCTIONS
    && OfferedDuration(ListingTime(rq.minutes))
    && rq.itemGuid !in m.custody
    && rq.item.Some?
    && rq.item.value.tradeable
    && !rq.item.value.conjured && rq.item.value.duration == 0
    && Money(m, rq.player) >= Deposit(w, w.houseStore(AuctionHouseId(w, rq.npc.value.faction)).value,
                                      ListingTime(rq.minutes), rq.item.value.sellPrice, rq.item.value.count)
  }

  /** Lists an item (WorldSession::HandleAuctionSellItem). Succeeds exactly
      when every guard passes; any other answer leaves the registry as it
      was. A listing takes the next auction id, has no bid and no bidder,
      expires after the chosen duration, and costs its seller exactly the
      deposit; the item passes into custody and nothing else changes. */
  function Sell(w: World, m: Market, now: nat, rq: SellRequest): (o: Outcome<SellResult>)
    ensures o.result.Sold? <==> SellAllowed(w, m, rq)
    ensures !o.result.Sold? ==> o.market == m
    ensures rq.itemGuid == 0 || rq.bid == 0 || rq.minutes == 0 || rq.npc.None? ==> o.result == SellIgnored
    ensures o.result == TooManyAuctions ==>
      rq.npc.Some? && CountOwned(HouseOf(m, HouseFor(w, rq.npc.value)), rq.player) > MAX_AUCTIONS
    ensures o.result == SellRejected(NotEnoughMoney) ==> rq.item.Some? && rq.itemGuid !in m.custody
    ensures o.result.Sold? ==>
      var kind := HouseFor(w, rq.npc.value);
      var store := w.houseStore(AuctionHouseId(w, rq.npc.value.faction)).value;
      var t := ListingTime(rq.minutes);
      var dep := Deposit(w, store, t, rq.item.value.sellPrice, rq.item.value.count);
      && o.result.id == m.nextId
      && HouseOf(o.market, kind) == HouseOf(m, kind)[m.nextId :=
           Entry(m.nextId, if w.twoSide then NEUTRAL_AUCTIONEER else rq.npc.value.guid,
                 rq.itemGuid, rq.item.value.template, rq.player, rq.bid, 0, 0, rq.buyout,
                 now + t, dep, now, store)]
      && (forall k' | k' != kind :: HouseOf(o.market, k') == HouseOf(m, k'))
      && o.market.custody == m.custody + {rq.itemGuid}
      && Money(o.market, rq.player) + dep == Money(m, rq.player)
      && (forall q | q != rq.player :: Money(o.market, q) == Money(m, q))
      && o.market.mail == m.mail
      && o.market.nextId == m.nextId + 1
  {
    if rq.itemGuid == 0 || rq.bid == 0 || rq.minutes == 0 then Outcome(SellIgnored, m)
    else if rq.npc.None? then Outcome(SellIgnored, m)
    else
      var npc := rq.npc.value;
      var store := w.houseStore(AuctionHouseId(w, npc.faction));
      if store.None? then Outcome(SellIgnored, m)
      else
        var kind := HouseFor(w, npc);
        if CountOwned(HouseOf(m, kind), rq.player) > MAX_AUCTIONS then Outcome(TooManyAuctions, m)
        else
          var t := ListingTime(rq.minutes);
          if !OfferedDuration(t) then Outcome(SellIgnored, m)
          else if rq.itemGuid in m.custody then Outcome(SellRejected(InternalError), m)
          else if rq.item.None? then Outcome(SellRejected(ItemNotFound), m)
          else
            var it := rq.item.value;
            if !it.tradeable then Outcome(SellRejected(InternalError), m)
            else if it.conjured || it.duration != 0 then Outcome(SellRejected(InternalError), m)
            else
              var dep := Deposit(w, store.value, t, it.sellPrice, it.count);
              if Money(m, rq.player) < dep then Outcome(SellRejected(NotEnoughMoney), m)
              else
                var e := Entry(m.nextId, if w.twoSide then NEUTRAL_AUCTIONEER else npc.guid,
                               rq.itemGuid, it.template, rq.player, rq.bid, 0, 0, rq.buyout,
                               now + t, dep, now, store.value);
                Outcome(Sold(m.nextId), PutUp(m, kind, e, rq.player))
  }

  /** Puts a listing up in a house: the seller pays the deposit, the item
      passes into custody and the id generator moves on. */
  function PutUp(m: Market, kind: HouseKind, e: Entry, seller: Player): (r: Market)
    requires e.item !in m.custody && Money(m, seller) >= e.deposit
    ensures HouseOf(r, kind) == HouseOf(m, kind)[e.id := e]
    ensures forall k' | k' != kind :: HouseOf(r, k') == HouseOf(m, k')
    ensures r.custody == m.custody + {e.item}
    ensures Money(r, seller) + e.deposit == Money(m, seller)
    ensures forall q | q != seller :: Money(r, q) == Money(m, q)
    ensures r.mail == m.mail && r.nextId == m.nextId + 1
  {
    var paid := ModifyMoney(m, seller, -(e.deposit as int));
    var listed := WithHouse(paid, kind, HouseOf(paid, kind)[e.id := e]);
    listed.(custody := AddItem(m.custody, e.item), nextId := m.nextId + 1)
  }

  /** Adding a fresh listing, under a fresh id and with an item outside
      custody, and taking that item into custody keeps the invariant. */
  lemma AddKeepsValid(m: Market, kind: HouseKind, e: Entry, m': Market)
    requires Valid(m)
    requires e.id == m.nextId && e.item !in m.custody && EntryValid(e)
    requires HouseOf(m', kind) == HouseOf(m, kind)[e.id := e]
    requires forall k' | k' != kind :: HouseOf(m', k') == HouseOf(m, k')
    requires m'.custody == m.custody + {e.item}
    requires m'.nextId == m.nextId + 1
    ensures Valid(m')
  {
    InsertHouse(HouseOf(m, kind), e, m.nextId);
    HouseValidGrows(m.alliance, m.nextId);
    HouseValidGrows(m.horde, m.nextId);
    HouseValidGrows(m.neutral, m.nextId);
    assert HouseOf(m', AllianceHouse) == m'.alliance;
    assert HouseOf(m', HordeHouse) == m'.horde;
    assert HouseOf(m', NeutralHouse) == m'.neutral;
  }

  /** A well-formed listing under the next id, holding an item the house
      does not hold, keeps the house well formed once the id generator has
      moved on. */
  lemma InsertHouse(h: House, e: Entry, nextId: nat)
    requires HouseValid(h, nextId)
    requires e.id == nextId && e.item !in Items(h) && EntryValid(e)
    ensures HouseValid(h[e.id := e], nextId + 1)
    ensures Items(h[e.id := e]) == Items(h) + {e.item}
  {
    InsertItems(h, e);
    var h' := h[e.id := e];
    forall k1, k2 | k1 in h' && k2 in h' && h'[k1].item == h'[k2].item ensures k1 == k2 {
      if k1 != e.id && k2 != e.id {
        assert h[k1].item == h[k2].item;
      }
    }
  }

  /** A house stays well formed as the id generator moves on. */
  lemma HouseValidGrows(h: House, nextId: nat)
    requires HouseValid(h, nextId)
    ensures HouseValid(h, nextId + 1)
  {
  }

  /** Inserting a listing under a fresh key adds exactly its item. */
  lemma InsertItems(h: House, e: Entry)
    requires e.id !in h
    ensures Items(h[e.id := e]) == Items(h) + {e.item}
  {
    var h' := h[e.id := e];
    forall g | g in Items(h') ensures g in Items(h) + {e.item} {
      var k :| k in h' && h'[k].item == g;
      if k != e.id {
        assert h[k].item == g;
      }
    }
    forall g | g in Items(h) ensures g in Items(h') {
      var k :| k in h && h[k].item == g;
      assert k in h' && h'[k].item == g;
    }
    assert e.id in h' && h'[e.id].item == e.item;
  }

  /** A sale keeps the registry invariant. */
  lemma SellKeepsValid(w: World, m: Market, now: nat, rq: SellRequest)
    requires Valid(m)
    ensures Valid(Sell(w, m, now, rq).market)
  {
    var o := Sell(w, m, now, rq);
    if o.result.Sold? {
      var kind := HouseFor(w, rq.npc.value);
      var e := HouseOf(o.market, kind)[m.nextId];
      AddKeepsValid(m, kind, e, o.market);
    }
  }

  /** The listing cap lets a seller who already has MAX_AUCTIONS listings in
      a house list one more there: the source refuses only above the cap. */
  lemma SellCapAdmitsOneMore(w: World, m: Market, now: nat, rq: SellRequest)
    requires Valid(m) && SellAllowed(w, m, rq)
    requires CountOwned(HouseOf(m, HouseFor(w, rq.npc.value)), rq.player) == MAX_AUCTIONS
    ensures Sell(w, m, now, rq).result == Sold(m.nextId)
    ensures CountOwned(HouseOf(Sell(w, m, now, rq).market, HouseFor(w, rq.npc.value)), rq.player) == MAX_AUCTIONS + 1
  {
    var o := Sell(w, m, now, rq);
    var kind := HouseFor(w, rq.npc.value);
    var h, h' := HouseOf(m, kind), HouseOf(o.market, kind);
    var e := h'[m.nextId];
    assert h' == h[m.nextId := e];
    assert e.owner == rq.player;
    assert m.nextId !in h;
    OwnedAfterInsert(h, e, rq.player);
  }

  /** Inserting a listing of `p` under a fresh key adds one to p's count. */
  lemma OwnedAfterInsert(h: House, e: Entry, p: Player)
    requires e.id !in h && e.owner == p
    ensures CountOwned(h[e.id := e], p) == CountOwned(h, p) + 1
  {
    assert KeysOf(h[e.id := e], p) == KeysOf(h, p) + {e.id};
  }

  /** The duration field wraps: a request for 1073742544 minutes lists for
      twelve hours. */
  lemma ListingTimeWraps()
    ensures ListingTime(1073742544) == MIN_AUCTION_TIME
  {
  }

  // ---------------------------------------------------------------------
  // Bidding and buying out

  datatype BidRequest = BidRequest(player: CharGuid, npc: Option<Npc>, auctionId: nat, price: nat)

  /** A raise: the listing stored under `k` takes the new bid and bidder. A
      new bidder pays the whole price and the one they displace is mailed a
      refund of exactly their bid; a bidder raising their own bid pays the
      difference. Custody and the other listings stay as they are. */
  function Raise(w: World, m: Market, kind: HouseKind, k: nat, pl: CharGuid, price: nat): (r: Market)
    requires k in HouseOf(m, kind)
    requires HouseOf(m, kind)[k].bid < price <= Money(m, pl)
    ensures var e := HouseOf(m, kind)[k];
      && HouseOf(r, kind) == HouseOf(m, kind)[k := e.(bidder := pl, bid := price)]
      && Money(r, pl) == Money(m, pl) - (if e.bidder == pl then price - e.bid else price)
      && r.mail == m.mail +
           (if e.bidder != 0 && e.bidder != pl && Known(w, e.bidder)
            then [Mail(e.bidder, AuctionOutbid, e.bid, None)] else [])
    ensures forall k' | k' != kind :: HouseOf(r, k') == HouseOf(m, k')
    ensures r.custody == m.custody && r.nextId == m.nextId
    ensures forall q | q != pl :: Money(r, q) == Money(m, q)
  {
    var e := HouseOf(m, kind)[k];
    var refund := if e.bidder != 0 && e.bidder != pl then OutbidMail(w, e) else [];
    var cost := if e.bidder == pl then price - e.bid else price;
    var paid := ModifyMoney(m, pl, -(cost as int));
    var raised := WithHouse(paid, kind, HouseOf(m, kind)[k := e.(bidder := pl, bid := price)]);
    raised.(mail := m.mail + refund)
  }

  /** What a buyout costs the buyer: the buyout price, less their own
      standing bid when they are already the bidder. */
  function BuyoutCost(e: Entry, pl: Player): int {
    if e.bidder == pl then e.buyout as int - e.bid else e.buyout
  }

  /** The money-only mail a buyout sends, in order: the refund to a
      displaced bidder, then the sale-pending notice and the payment to the
      seller. It carries no item. */
  function BuyoutNotices(w: World, e: Entry, pl: CharGuid): (ms: seq<Event>)
    ensures Carried(ms) == []
    ensures e.bidder != 0 && e.bidder != pl && Known(w, e.bidder) ==>
      Mail(e.bidder, AuctionOutbid, e.bid, None) in ms
    ensures Known(w, e.owner) ==> Mail(e.owner, AuctionSalePending, 0, None) in ms
    ensures Known(w, e.owner) ==>
      Mail(e.owner, AuctionSuccessful, Payout(w.twoSide, e.(bidder := pl, bid := e.buyout)), None) in ms
    ensures Paid(ms) ==
      (if e.bidder != 0 && e.bidder != pl && Known(w, e.bidder) then e.bid else 0)
      + (if Known(w, e.owner) then Payout(w.twoSide, e.(bidder := pl, bid := e.buyout)) else 0)
  {
    var refund := if e.bidder != pl && e.bidder != 0 then OutbidMail(w, e) else [];
    var sold := e.(bidder := pl, bid := e.buyout);
    var pending, paid := SalePendingMail(w, sold), SuccessfulMail(w, sold);
    NoticesCarryNothing(refund, pending, paid);
    PaidAppend(refund, pending);
    PaidAppend(refund + pending, paid);
    assert Known(w, e.owner) ==> pending[0] in refund + pending + paid;
    assert Known(w, e.owner) ==> paid[0] in refund + pending + paid;
    refund + pending + paid
  }

  /** The mail a buyout sends: the notices, then the item to the buyer.
      `d.custody` is custody before the item is finally dropped. The buyer
      is the requesting session's character, so is online. */
  function BuyoutMail(w: World, custody: set<ItemGuid>, e: Entry, pl: CharGuid): (d: Delivery)
    requires w.online(pl)
    ensures d.custody - {e.item} == custody - {e.item}
    ensures Carried(d.events) == if e.item in custody then [e.item] else []
    ensures e.bidder != 0 && e.bidder != pl && Known(w, e.bidder) ==>
      Mail(e.bidder, AuctionOutbid, e.bid, None) in d.events
    ensures Known(w, e.owner) ==> Mail(e.owner, AuctionSalePending, 0, None) in d.events
    ensures Known(w, e.owner) ==>
      Mail(e.owner, AuctionSuccessful, Payout(w.twoSide, e.(bidder := pl, bid := e.buyout)), None) in d.events
    ensures e.item in custody ==> Mail(pl, AuctionWon, 0, Some(e.item)) in d.events
    ensures Paid(d.events) ==
      (if e.bidder != 0 && e.bidder != pl && Known(w, e.bidder) then e.bid else 0)
      + (if Known(w, e.owner) then Payout(w.twoSide, e.(bidder := pl, bid := e.buyout)) else 0)
  {
    var notices := BuyoutNotices(w, e, pl);
    var won := WonMail(w, custody, e.(bidder := pl, bid := e.buyout));
    CarriedAppend(notices, won.events);
    PaidAppend(notices, won.events);
    assert e.item in custody ==> won.events[0] in notices + won.events;
    Delivery(won.custody, notices + won.events)
  }


  /** Item-less mail carries nothing out of custody. */
  lemma NoticesCarryNothing(a: seq<Event>, b: seq<Event>, c: seq<Event>)
    requires |a| <= 1 && |b| <= 1 && |c| <= 1
    requires forall ev | ev in a + b + c :: ev.Mail? && ev.attached.None?
    ensures Carried(a + b + c) == []
  {
    CarriedAppend(a + b, c);
    CarriedAppend(a, b);
    if a != [] { assert a[0] in a + b + c; assert a[1..] == []; }
    if b != [] { assert b[0] in a + b + c; assert b[1..] == []; }
    if c != [] { assert c[0] in a + b + c; assert c[1..] == []; }
  }

  /** A buyout: the buyer pays the buyout price (less their standing bid),
      a displaced bidder is refunded, the listing is settled at the buyout
      price (sale-pending and payment mail to the seller, the item to the
      buyer) and leaves its house, its item leaves custody. */
  function BuyOut(w: World, m: Market, kind: HouseKind, k: nat, pl: CharGuid): (r: Market)
    requires w.online(pl)
    requires k in HouseOf(m, kind)
    requires BuyoutCost(HouseOf(m, kind)[k], pl) <= Money(m, pl)
    ensures var e := HouseOf(m, kind)[k];
      && HouseOf(r, kind) == HouseOf(m, kind) - {e.id}
      && r.custody == m.custody - {e.item}
      && Money(r, pl) == Money(m, pl) - BuyoutCost(e, pl)
      && r.mail == m.mail + BuyoutMail(w, m.custody, e, pl).events
    ensures forall k' | k' != kind :: HouseOf(r, k') == HouseOf(m, k')
    ensures r.nextId == m.nextId
    ensures forall q | q != pl :: Money(r, q) == Money(m, q)
  {
    var e := HouseOf(m, kind)[k];
    var d := BuyoutMail(w, m.custody, e, pl);
    var paid := ModifyMoney(m, pl, -BuyoutCost(e, pl));
    var removed := WithHouse(paid, kind, HouseOf(m, kind) - {e.id});
    removed.(custody := RemoveItem(d.custody, e.item).custody, mail := m.mail + d.events)
  }

  /** A listing refuses bids from its seller's other characters: from a
      character on the same account while the seller is offline. */
  predicate SameAccountOffline(w: World, e: Entry, pl: Player) {
    !w.online(e.owner) && w.account(e.owner) == w.account(pl)
  }

  /** The anti-bot window: within a minute of listing, while the seller is
      online, only a bidder at the seller's address may bid. */
  predicate InBotWindow(w: World, e: Entry, pl: Player, now: nat) {
    e.depositTime + BOT_WINDOW > now && w.online(e.owner) && w.address(e.owner) != w.address(pl)
  }

  /** The character a request comes from: the player of a connected
      session, which always belongs to an account. */
  predicate InSession(w: World, pl: Player) {
    w.online(pl) && w.account(pl) != 0
  }

  /** The request names an existing listing that the requester may bid on:
      not their own, and not one of an offline character of their account. */
  ghost predicate MayBidOn(w: World, m: Market, rq: BidRequest) {
    && rq.auctionId != 0 && rq.price != 0 && rq.npc.Some?
    && var h := HouseOf(m, HouseFor(w, rq.npc.value));
       && rq.auctionId in h && h[rq.auctionId].owner != rq.player
       && !SameAccountOffline(w, h[rq.auctionId], rq.player)
  }

  /** Every guard of a bid passes, in the order the handler checks them:
      the listing may be bid on, the anti-bot window is over, the price
      beats the current bid, it is a buyout or at least the minimum raise,
      and the bidder can pay it. */
  ghost predicate BidAllowed(w: World, m: Market, now: nat, rq: BidRequest) {
    && MayBidOn(w, m, rq)
    && var e := HouseOf(m, HouseFor(w, rq.npc.value))[rq.auctionId];
       && !InBotWindow(w, e, rq.player, now)
       && e.bid < rq.price
       && (IsBuyout(e, rq.price) || rq.price >= e.bid + OutBid(e.bid))
       && rq.price <= Money(m, rq.player)
  }

  /** A price that buys the listing out rather than raising it. */
  predicate IsBuyout(e: Entry, price: nat) {
    e.buyout != 0 && price >= e.buyout
  }

  /** Bids on or buys out a listing (WorldSession::HandleAuctionPlaceBid).
      Every refusal leaves the registry as it was. An accepted raise is at
      least the minimum raise above the current bid and below the buyout
      price; a price at or above the buyout price buys the listing out at
      the buyout price, never at the offered one. */
  function PlaceBid(w: World, m: Market, now: nat, rq: BidRequest): (o: Outcome<BidResult>)
    requires InSession(w, rq.player)
    ensures (o.result.BidAccepted? || o.result.BoughtOut?) <==> BidAllowed(w, m, now, rq)
    ensures o.result.MustWait? <==>
      MayBidOn(w, m, rq) && InBotWindow(w, HouseOf(m, HouseFor(w, rq.npc.value))[rq.auctionId], rq.player, now)
    ensures o.result.BidRejected? ==> o.result.error == CannotBidOwnAuction
    ensures !(o.result.BidAccepted? || o.result.BoughtOut?) ==> o.market == m
    ensures rq.auctionId == 0 || rq.price == 0 || rq.npc.None? ==> o.result == BidIgnored
    ensures o.result == BidRejected(CannotBidOwnAuction) <==>
      && rq.auctionId != 0 && rq.price != 0 && rq.npc.Some?
      && var h := HouseOf(m, HouseFor(w, rq.npc.value));
         rq.auctionId !in h || h[rq.auctionId].owner == rq.player
         || SameAccountOffline(w, h[rq.auctionId], rq.player)
    ensures o.result.MustWait? ==>
      var e := HouseOf(m, HouseFor(w, rq.npc.value))[rq.auctionId];
      && InBotWindow(w, e, rq.player, now) && 1 <= o.result.seconds
      && o.result.seconds == e.depositTime + BOT_WINDOW - now
    ensures o.result.BidAccepted? || o.result.BoughtOut? ==>
      var kind := HouseFor(w, rq.npc.value);
      var e := HouseOf(m, kind)[rq.auctionId];
      && rq.auctionId in HouseOf(m, kind)
      && e.owner != rq.player && !SameAccountOffline(w, e, rq.player)
      && !InBotWindow(w, e, rq.player, now)
      && e.bid < rq.price <= Money(m, rq.player)
      && (o.result.BidAccepted? <==> !IsBuyout(e, rq.price))
      && (o.result.BidAccepted? ==>
            && rq.price >= e.bid + OutBid(e.bid)
            && o.market == Raise(w, m, kind, rq.auctionId, rq.player, rq.price))
      && (o.result.BoughtOut? ==>
            && BuyoutCost(e, rq.player) <= Money(m, rq.player)
            && o.market == BuyOut(w, m, kind, rq.auctionId, rq.player))
  {
    if rq.auctionId == 0 || rq.price == 0 then Outcome(BidIgnored, m)
    else if rq.npc.None? then Outcome(BidIgnored, m)
    else
      var kind := HouseFor(w, rq.npc.value);
      var h := HouseOf(m, kind);
      if rq.auctionId !in h || h[rq.auctionId].owner == rq.player then
        Outcome(BidRejected(CannotBidOwnAuction), m)
      else
        var e := h[rq.auctionId];
        if SameAccountOffline(w, e, rq.player) then Outcome(BidRejected(CannotBidOwnAuction), m)
        else if InBotWindow(w, e, rq.player, now) then Outcome(MustWait(e.depositTime + BOT_WINDOW - now), m)
        else if rq.price <= e.bid then Outcome(BidIgnored, m)
        else if !IsBuyout(e, rq.price) && rq.price < e.bid + OutBid(e.bid) then Outcome(BidIgnored, m)
        else if rq.price > Money(m, rq.player) then Outcome(BidIgnored, m)
        else if !IsBuyout(e, rq.price) then Outcome(BidAccepted, Raise(w, m, kind, rq.auctionId, rq.player, rq.price))
        else Outcome(BoughtOut, BuyOut(w, m, kind, rq.auctionId, rq.player))
  }

  /** Replacing a listing by one with the same id and item that is itself
      well formed keeps the invariant. */
  lemma ReplaceKeepsValid(m: Market, kind: HouseKind, e': Entry, m': Market)
    requires Valid(m)
    requires e'.id in HouseOf(m, kind) && e'.item == HouseOf(m, kind)[e'.id].item && EntryValid(e')
    requires HouseOf(m', kind) == HouseOf(m, kind)[e'.id := e']
    requires forall k' | k' != kind :: HouseOf(m', k') == HouseOf(m, k')
    requires m'.custody == m.custody && m'.nextId == m.nextId
    ensures Valid(m')
  {
    ReplaceHouse(HouseOf(m, kind), e', m.nextId);
    assert HouseOf(m', AllianceHouse) == m'.alliance;
    assert HouseOf(m', HordeHouse) == m'.horde;
    assert HouseOf(m', NeutralHouse) == m'.neutral;
  }

  /** Replacing a listing by a well-formed one with the same id and item
      keeps the house well formed and its items as they were. */
  lemma ReplaceHouse(h: House, e': Entry, nextId: nat)
    requires HouseValid(h, nextId)
    requires e'.id in h && e'.item == h[e'.id].item && EntryValid(e')
    ensures HouseValid(h[e'.id := e'], nextId)
    ensures Items(h[e'.id := e']) == Items(h)
  {
    var h' := h[e'.id := e'];
    forall g | g in Items(h) ensures g in Items(h') {
      var k :| k in h && h[k].item == g;
      assert k in h' && h'[k].item == g;
    }
    forall g | g in Items(h') ensures g in Items(h) {
      var k :| k in h' && h'[k].item == g;
      assert k in h && h[k].item == g;
    }
  }

  /** The item of a single listing. */
  lemma ItemsOfOne(h: House, k: nat)
    requires k in h
    ensures ItemsOf(h, {k}) == {h[k].item}
  {
    assert h[k].item in ItemsOf(h, {k});
  }

  /** Bidding and buying out keep the registry invariant. */
  lemma PlaceBidKeepsValid(w: World, m: Market, now: nat, rq: BidRequest)
    requires Valid(m) && InSession(w, rq.player)
    ensures Valid(PlaceBid(w, m, now, rq).market)
  {
    var o := PlaceBid(w, m, now, rq);
    if o.result.BidAccepted? {
      RaiseKeepsValid(w, m, HouseFor(w, rq.npc.value), rq.auctionId, rq.player, rq.price);
    } else if o.result.BoughtOut? {
      BuyOutKeepsValid(w, m, HouseFor(w, rq.npc.value), rq.auctionId, rq.player);
    }
  }

  /** A raise by someone other than the seller keeps the invariant. */
  lemma RaiseKeepsValid(w: World, m: Market, kind: HouseKind, k: nat, pl: CharGuid, price: nat)
    requires Valid(m)
    requires k in HouseOf(m, kind) && HouseOf(m, kind)[k].owner != pl
    requires HouseOf(m, kind)[k].bid < price <= Money(m, pl)
    requires HouseOf(m, kind)[k].buyout != 0 ==> price < HouseOf(m, kind)[k].buyout
    ensures Valid(Raise(w, m, kind, k, pl, price))
  {
    var e := HouseOf(m, kind)[k];
    assert e.id == k;
    ReplaceKeepsValid(m, kind, e.(bidder := pl, bid := price), Raise(w, m, kind, k, pl, price));
  }

  /** A buyout keeps the invariant. */
  lemma BuyOutKeepsValid(w: World, m: Market, kind: HouseKind, k: nat, pl: CharGuid)
    requires Valid(m) && w.online(pl)
    requires k in HouseOf(m, kind)
    requires BuyoutCost(HouseOf(m, kind)[k], pl) <= Money(m, pl)
    ensures Valid(BuyOut(w, m, kind, k, pl))
  {
    var h := HouseOf(m, kind);
    assert h[k].id == k;
    ItemsOfOne(h, k);
    DropKeepsValid(m, kind, {k}, BuyOut(w, m, kind, k, pl));
  }

  /** The server never checks the starting price: the first bid on a listing
      may be a single coin whatever starting price the seller asked. */
  lemma FirstBidIgnoresStartBid(w: World, m: Market, now: nat, rq: BidRequest)
    requires InSession(w, rq.player)
    requires rq.auctionId != 0 && rq.npc.Some? && rq.price == 1 && Money(m, rq.player) >= 1
    requires var h := HouseOf(m, HouseFor(w, rq.npc.value));
      && rq.auctionId in h
      && var e := h[rq.auctionId];
         && e.owner != rq.player && e.bid == 0 && e.buyout == 0 && e.startBid > 1
         && !SameAccountOffline(w, e, rq.player) && !InBotWindow(w, e, rq.player, now)
    ensures PlaceBid(w, m, now, rq).result == BidAccepted
  {
  }

  /** The anti-bot window holds only while the seller is online: a seller who
      logs off lets anyone at any address bid at once. */
  lemma BotWindowNeedsOnlineSeller(w: World, m: Market, now: nat, rq: BidRequest)
    requires InSession(w, rq.player)
    requires rq.npc.Some? && rq.auctionId in HouseOf(m, HouseFor(w, rq.npc.value))
    requires !w.online(HouseOf(m, HouseFor(w, rq.npc.value))[rq.auctionId].owner)
    ensures !PlaceBid(w, m, now, rq).result.MustWait?
  {
  }

  /** Two accepted raises in a row leave the bid at least two minimum raises
      above where it started. */
  lemma RaisesAccumulate(w: World, m: Market, now: nat, rq1: BidRequest, rq2: BidRequest)
    requires InSession(w, rq1.player) && InSession(w, rq2.player)
    requires rq1.npc.Some? && rq2.npc.Some? && rq1.auctionId == rq2.auctionId
    requires HouseFor(w, rq1.npc.value) == HouseFor(w, rq2.npc.value)
    requires PlaceBid(w, m, now, rq1).result == BidAccepted
    requires PlaceBid(w, PlaceBid(w, m, now, rq1).market, now, rq2).result == BidAccepted
    ensures var b0 := HouseOf(m, HouseFor(w, rq1.npc.value))[rq1.auctionId].bid;
      rq2.price >= b0 + OutBid(b0) + OutBid(rq1.price)
  {
    var kind := HouseFor(w, rq1.npc.value);
    var m1 := PlaceBid(w, m, now, rq1).market;
    assert HouseOf(m1, kind)[rq1.auctionId].bid == rq1.price;
  }

  // ---------------------------------------------------------------------
  // Cancelling

  datatype CancelRequest = CancelRequest(player: CharGuid, npc: Option<Npc>, auctionId: nat)

  /** What cancelling costs the seller: the cut on the standing bid, when
      there is one. */
  function CancelFee(w: World, e: Entry): nat {
    if e.bidder != 0 then Cut(w.twoSide, e) else 0
  }

  /** Withdraws a listing: a bidder gets their whole bid back by mail and the
      seller pays the cut on it; the item is mailed back to the seller and
      leaves custody; the listing leaves its house. */
  function Withdraw(w: World, m: Market, kind: HouseKind, k: nat): (r: Market)
    requires k in HouseOf(m, kind)
    requires HouseOf(m, kind)[k].item in m.custody
    requires CancelFee(w, HouseOf(m, kind)[k]) <= Money(m, HouseOf(m, kind)[k].owner)
    ensures var e := HouseOf(m, kind)[k];
      && HouseOf(r, kind) == HouseOf(m, kind) - {e.id}
      && r.custody == m.custody - {e.item}
      && Money(r, e.owner) + CancelFee(w, e) == Money(m, e.owner)
      && (forall q | q != e.owner :: Money(r, q) == Money(m, q))
      && r.mail == m.mail + CancelMail(w, e)
    ensures forall k' | k' != kind :: HouseOf(r, k') == HouseOf(m, k')
    ensures r.nextId == m.nextId
  {
    var e := HouseOf(m, kind)[k];
    var paid := ModifyMoney(m, e.owner, -(CancelFee(w, e) as int));
    var removed := WithHouse(paid, kind, HouseOf(m, kind) - {e.id});
    removed.(custody := RemoveItem(m.custody, e.item).custody, mail := m.mail + CancelMail(w, e))
  }

  /** The mail a cancellation sends: the bidder's whole bid back, if there
      is a bidder the mail system can reach, then the item back to the
      seller; the item is the only thing it carries. */
  function CancelMail(w: World, e: Entry): (ms: seq<Event>)
    ensures ms == (if e.bidder != 0 && Known(w, e.bidder)
                   then [Mail(e.bidder, AuctionCancelledToBidder, e.bid, None)] else [])
                  + [Mail(e.owner, AuctionCanceled, 0, Some(e.item))]
    ensures Carried(ms) == [e.item]
    ensures Paid(ms) == if e.bidder != 0 && Known(w, e.bidder) then e.bid else 0
  {
    var refund := if e.bidder != 0 then CancelledToBidderMail(w, e) else [];
    var back := [Mail(e.owner, AuctionCanceled, 0, Some(e.item))];
    CarriedAppend(refund, back);
    PaidAppend(refund, back);
    assert Paid(back) == 0 by { assert back[1..] == []; }
    assert Carried(back) == [e.item] by { assert back[1..] == []; }
    assert Carried(refund) == [] by { if refund != [] { assert refund[1..] == []; } }
    refund + back
  }

  /** Cancels one's own listing (WorldSession::HandleAuctionRemoveItem). A
      listing that is missing or someone else's, or whose item custody no
      longer holds, is an internal error; a seller who cannot pay the cut on
      a standing bid is silently refused; every refusal leaves the registry
      as it was. */
  function Cancel(w: World, m: Market, rq: CancelRequest): (o: Outcome<CancelResult>)
    ensures !o.result.Cancelled? ==> o.market == m
    ensures rq.npc.None? ==> o.result == CancelIgnored
    ensures o.result == CancelRejected(InternalError) <==>
      && rq.npc.Some?
      && var h := HouseOf(m, HouseFor(w, rq.npc.value));
         rq.auctionId !in h || h[rq.auctionId].owner != rq.player || h[rq.auctionId].item !in m.custody
    ensures o.result.Cancelled? <==>
      && rq.npc.Some?
      && var h := HouseOf(m, HouseFor(w, rq.npc.value));
         && rq.auctionId in h && h[rq.auctionId].owner == rq.player && h[rq.auctionId].item in m.custody
         && CancelFee(w, h[rq.auctionId]) <= Money(m, rq.player)
    ensures o.result == CancelIgnored <==>
      || rq.npc.None?
      || var h := HouseOf(m, HouseFor(w, rq.npc.value));
         && rq.auctionId in h && h[rq.auctionId].owner == rq.player && h[rq.auctionId].item in m.custody
         && Money(m, rq.player) < CancelFee(w, h[rq.auctionId])
    ensures o.result.Cancelled? ==>
      var kind := HouseFor(w, rq.npc.value);
      o.market == Withdraw(w, m, kind, rq.auctionId)
  {
    if rq.npc.None? then Outcome(CancelIgnored, m)
    else
      var kind := HouseFor(w, rq.npc.value);
      var h := HouseOf(m, kind);
      if rq.auctionId !in h || h[rq.auctionId].owner != rq.player then Outcome(CancelRejected(InternalError), m)
      else
        var e := h[rq.auctionId];
        if e.item !in m.custody then Outcome(CancelRejected(InternalError), m)
        else if e.bidder > 0 && Money(m, rq.player) < Cut(w.twoSide, e) then Outcome(CancelIgnored, m)
        else Outcome(Cancelled, Withdraw(w, m, kind, rq.auctionId))
  }

  /** Cancelling keeps the registry invariant. */
  lemma CancelKeepsValid(w: World, m: Market, rq: CancelRequest)
    requires Valid(m)
    ensures Valid(Cancel(w, m, rq).market)
  {
    var o := Cancel(w, m, rq);
    if o.result.Cancelled? {
      var kind := HouseFor(w, rq.npc.value);
      var h := HouseOf(m, kind);
      assert h[rq.auctionId].id == rq.auctionId;
      ItemsOfOne(h, rq.auctionId);
      DropKeepsValid(m, kind, {rq.auctionId}, o.market);
    }
  }

  /** Cancelling one's own unbid listing costs nothing, mails the item
      back, and removes the listing and nothing else. */
  lemma CancelUnbid(w: World, m: Market, rq: CancelRequest)
    requires rq.npc.Some?
    requires var h := HouseOf(m, HouseFor(w, rq.npc.value));
      && rq.auctionId in h && h[rq.auctionId].owner == rq.player
      && h[rq.auctionId].bidder == 0 && h[rq.auctionId].item in m.custody
    ensures var kind := HouseFor(w, rq.npc.value);
      var e := HouseOf(m, kind)[rq.auctionId];
      var c := Cancel(w, m, rq);
      && c.result == Cancelled
      && HouseOf(c.market, kind) == HouseOf(m, kind) - {e.id}
      && (forall k' | k' != kind :: HouseOf(c.market, k') == HouseOf(m, k'))
      && c.market.custody == m.custody - {e.item}
      && Money(c.market, rq.player) == Money(m, rq.player)
      && c.market.mail == m.mail + [Mail(rq.player, AuctionCanceled, 0, Some(e.item))]
  {
  }

  /** Adding a fresh key and removing it again gives the house back. */
  lemma InsertThenRemove(h: House, k: nat, e: Entry)
    requires k !in h
    ensures h[k := e] - {k} == h
  {
    assert (h[k := e] - {k}).Keys == h.Keys;
  }

  /** A successful sale lists the item under a fresh id, unbid, in the
      seller's name. */
  lemma SoldFresh(w: World, m: Market, now: nat, rq: SellRequest)
    requires Valid(m) && SellAllowed(w, m, rq)
    ensures var kind := HouseFor(w, rq.npc.value);
      var s := Sell(w, m, now, rq).market;
      && m.nextId !in HouseOf(m, kind)
      && m.nextId in HouseOf(s, kind)
      && var e := HouseOf(s, kind)[m.nextId];
         && e.id == m.nextId && e.owner == rq.player && e.bidder == 0 && e.item == rq.itemGuid
         && e.item in s.custody
  {
    assert HouseValid(HouseOf(m, HouseFor(w, rq.npc.value)), m.nextId);
  }

  /** Listing an item and cancelling the listing at once gives every house
      and custody back as they were and mails the item back to the seller,
      but the deposit is not refunded. */
  lemma SellThenCancel(w: World, m: Market, now: nat, rq: SellRequest)
    requires Valid(m) && SellAllowed(w, m, rq)
    ensures var s := Sell(w, m, now, rq);
      var c := Cancel(w, s.market, CancelRequest(rq.player, rq.npc, m.nextId));
      var store := w.houseStore(AuctionHouseId(w, rq.npc.value.faction)).value;
      && c.result == Cancelled
      && (forall kind :: HouseOf(c.market, kind) == HouseOf(m, kind))
      && c.market.custody == m.custody
      && Money(c.market, rq.player) + Deposit(w, store, ListingTime(rq.minutes), rq.item.value.sellPrice, rq.item.value.count)
         == Money(m, rq.player)
      && c.market.mail == m.mail + [Mail(rq.player, AuctionCanceled, 0, Some(rq.itemGuid))]
  {
    var s := Sell(w, m, now, rq);
    var kind := HouseFor(w, rq.npc.value);
    SoldFresh(w, m, now, rq);
    CancelUnbid(w, s.market, CancelRequest(rq.player, rq.npc, m.nextId));
    InsertThenRemove(HouseOf(m, kind), m.nextId, HouseOf(s.market, kind)[m.nextId]);
    assert AddItem(m.custody, rq.itemGuid) - {rq.itemGuid} == m.custody;
  }
}
