/** The settlement effects of the registry's and the handler's mail senders:
    who gets mailed what, and what happens to the item in custody. Mail is an
    outbound event; an item handed to the mail system or destroyed leaves
    the engine's bookkeeping. */
module Settlement {
  import opened Common
  import opened Listing

  datatype MailKind =
    | AuctionOutbid | AuctionWon | AuctionSalePending | AuctionSuccessful
    | AuctionExpired | AuctionCancelledToBidder | AuctionCanceled

  datatype Event =
    | Mail(to: Player, kind: MailKind, money: nat, attached: Option<ItemGuid>)
    | ItemDeleted(item: ItemGuid)   // no recipient could be found

  /** The item an event takes out of custody, if any. */
  function EventItem(ev: Event): Option<ItemGuid> {
    match ev
    case Mail(_, _, _, a) => a
    case ItemDeleted(g) => Some(g)
  }

  /** Custody after a mail sender, and the events it emitted. */
  datatype Delivery = Delivery(custody: set<ItemGuid>, events: seq<Event>)

  /** The items a run of events takes out of custody, in order. */
  function Carried(evs: seq<Event>): seq<ItemGuid>
  {
    if evs == [] then []
    else
      (match EventItem(evs[0]) case Some(g) => [g] case None => []) + Carried(evs[1..])
  }

  lemma {:induction false} CarriedAppend(a: seq<Event>, b: seq<Event>)
    ensures Carried(a + b) == Carried(a) + Carried(b)
  {
    if a == [] {
      assert a + b == b;
    } else {
      assert (a + b)[1..] == a[1..] + b;
      CarriedAppend(a[1..], b);
    }
  }

  /** The money a run of events mails out, in total. */
  function Paid(evs: seq<Event>): nat
  {
    if evs == [] then 0
    else (if evs[0].Mail? then evs[0].money else 0) + Paid(evs[1..])
  }

  lemma {:induction false} PaidAppend(a: seq<Event>, b: seq<Event>)
    ensures Paid(a + b) == Paid(a) + Paid(b)
  {
    if a == [] {
      assert a + b == b;
    } else {
      assert (a + b)[1..] == a[1..] + b;
      PaidAppend(a[1..], b);
    }
  }

  /** An item that leaves custody goes to exactly one place: the delivery
      carries nothing away when custody did not hold the item, and otherwise
      carries that item alone, once; custody loses nothing else. */
  ghost predicate ItemConserved(custody: set<ItemGuid>, g: ItemGuid, d: Delivery) {
    && d.custody <= custody
    && d.custody - {g} == custody - {g}
    && Carried(d.events) == (if g in custody then [g] else [])
  }

  /** Hands the sold item to the winner (SendAuctionWonMail). An offline
      winner's item leaves custody here; a winner nobody knows loses it. */
  function WonMail(w: World, custody: set<ItemGuid>, e: Entry): (d: Delivery)
    ensures ItemConserved(custody, e.item, d)
    ensures e.item in custody ==>
      (d.events[0].Mail? <==> Known(w, e.bidder))
      && (d.events[0].Mail? ==> d.events[0] == Mail(e.bidder, AuctionWon, 0, Some(e.item)))
    ensures w.online(e.bidder) ==> d.custody == custody
    ensures Paid(d.events) == 0
  {
    if e.item !in custody then Delivery(custody, [])
    else if Known(w, e.bidder) then
      Delivery(if w.online(e.bidder) then custody else custody - {e.item},
               [Mail(e.bidder, AuctionWon, 0, Some(e.item))])
    else Delivery(custody - {e.item}, [ItemDeleted(e.item)])
  }

  /** Notice to the seller that a buyout is pending (SendAuctionSalePendingMail). */
  function SalePendingMail(w: World, e: Entry): (ms: seq<Event>)
    ensures |ms| <= 1
    ensures |ms| == 1 <==> Known(w, e.owner)
    ensures forall ev | ev in ms :: ev.Mail? && ev.to == e.owner && ev.money == 0 && ev.attached.None?
    ensures Paid(ms) == 0
  {
    if Known(w, e.owner) then [Mail(e.owner, AuctionSalePending, 0, None)] else []
  }

  /** Pays the seller for a sale (SendAuctionSuccessfulMail): the final bid
      less the cut, plus the deposit. A seller nobody knows is paid nothing. */
  function SuccessfulMail(w: World, e: Entry): (ms: seq<Event>)
    ensures |ms| <= 1
    ensures |ms| == 1 <==> Known(w, e.owner)
    ensures forall ev | ev in ms ::
      ev.Mail? && ev.to == e.owner && ev.kind == AuctionSuccessful && ev.attached.None?
      && ev.money + Cut(w.twoSide, e) == e.bid + e.deposit
    ensures Paid(ms) == if Known(w, e.owner) then Payout(w.twoSide, e) else 0
  {
    if Known(w, e.owner) then [Mail(e.owner, AuctionSuccessful, Payout(w.twoSide, e), None)] else []
  }

  /** Returns an unsold item to its seller (SendAuctionExpiredMail), with the
      recipient taken to be the listing's owner; see ExpiredMailAsWritten for
      what the source does when that owner is offline. */
  function ExpiredMail(w: World, custody: set<ItemGuid>, e: Entry): (d: Delivery)
    ensures ItemConserved(custody, e.item, d)
    ensures e.item in custody ==>
      (d.events[0].Mail? <==> Known(w, e.owner))
      && (d.events[0].Mail? ==> d.events[0] == Mail(e.owner, AuctionExpired, 0, Some(e.item)))
    ensures w.online(e.owner) ==> d.custody == custody
    ensures !w.online(e.owner) ==> e.item !in d.custody
    ensures Paid(d.events) == 0
  {
    if e.item !in custody then Delivery(custody, [])
    else if Known(w, e.owner) then
      Delivery(if w.online(e.owner) then custody else custody - {e.item},
               [Mail(e.owner, AuctionExpired, 0, Some(e.item))])
    else Delivery(custody - {e.item}, [ItemDeleted(e.item)])
  }

  /** SendAuctionExpiredMail as written: the recipient is read through the
      online-owner pointer even when only the character cache knows the
      owner, so an offline owner makes it dereference null (None here). */
  function ExpiredMailAsWritten(w: World, custody: set<ItemGuid>, e: Entry): (r: Option<Delivery>)
    ensures r.None? <==> e.item in custody && !w.online(e.owner) && w.account(e.owner) != 0
    ensures r.Some? ==> r.value == ExpiredMail(w, custody, e)
  {
    if e.item !in custody then Some(Delivery(custody, []))
    else if Known(w, e.owner) then
      if w.online(e.owner) then Some(Delivery(custody, [Mail(e.owner, AuctionExpired, 0, Some(e.item))]))
      else None
    else Some(Delivery(custody - {e.item}, [ItemDeleted(e.item)]))
  }

  /** A listing of an offline seller expiring unsold: the source crashes,
      the corrected sender mails the item back to the seller. */
  lemma ExpiredMailOfflineOwner()
    ensures
      var w := World(false, p => false, p => if p == 7 then 1 else 0, p => 0,
                     f => None, h => None, g => None, c => None);
      var e := Entry(1, 0, 5, 0, 7, 10, 0, 0, 0, 0, 0, 0, HouseEntry(7, 5));
      && ExpiredMailAsWritten(w, {5}, e).None?
      && ExpiredMail(w, {5}, e) == Delivery({}, [Mail(7, AuctionExpired, 0, Some(5))])
  {
  }

  /** Refunds an outbid bidder their whole bid (SendAuctionOutbiddedMail);
      called before the listing's bid changes. */
  function OutbidMail(w: World, e: Entry): (ms: seq<Event>)
    ensures |ms| <= 1
    ensures |ms| == 1 <==> Known(w, e.bidder)
    ensures forall ev | ev in ms ::
      ev == Mail(e.bidder, AuctionOutbid, e.bid, None)
    ensures Paid(ms) == if Known(w, e.bidder) then e.bid else 0
  {
    if Known(w, e.bidder) then [Mail(e.bidder, AuctionOutbid, e.bid, None)] else []
  }

  /** Refunds the bidder of a cancelled listing (SendAuctionCancelledToBidderMail). */
  function CancelledToBidderMail(w: World, e: Entry): (ms: seq<Event>)
    ensures |ms| <= 1
    ensures |ms| == 1 <==> Known(w, e.bidder)
    ensures forall ev | ev in ms ::
      ev == Mail(e.bidder, AuctionCancelledToBidder, e.bid, None)
    ensures Paid(ms) == if Known(w, e.bidder) then e.bid else 0
  {
    if Known(w, e.bidder) then [Mail(e.bidder, AuctionCancelledToBidder, e.bid, None)] else []
  }

  /** The money settling a listing mails: the payout of a sold listing to
      a seller the mail system can reach, nothing otherwise. */
  function SettledPay(w: World, e: Entry): nat {
    if e.bidder != 0 && Known(w, e.owner) then Payout(w.twoSide, e) else 0
  }

  /** The mail `evs` holds for a listing settled while custody was `custody`:
      an unsold listing's item back to its reachable seller; for a sold one,
      the payment to its reachable seller and the item to its reachable
      winner. An item custody no longer held goes nowhere. */
  ghost predicate Notified(w: World, custody: set<ItemGuid>, e: Entry, evs: seq<Event>) {
    && (e.bidder == 0 && e.item in custody && Known(w, e.owner) ==>
          Mail(e.owner, AuctionExpired, 0, Some(e.item)) in evs)
    && (e.bidder != 0 && Known(w, e.owner) ==>
          Mail(e.owner, AuctionSuccessful, Payout(w.twoSide, e), None) in evs)
    && (e.bidder != 0 && e.item in custody && Known(w, e.bidder) ==>
          Mail(e.bidder, AuctionWon, 0, Some(e.item)) in evs)
  }

  /** Settles a listing leaving its house by expiry or by the removal of its
      seller's listings: returned unsold when nobody bid, otherwise paid to
      the seller and delivered to the winner. The caller then drops the item
      from custody. */
  function SettleEntry(w: World, custody: set<ItemGuid>, e: Entry): (d: Delivery)
    ensures ItemConserved(custody, e.item, d)
    ensures e.bidder == 0 ==> d == ExpiredMail(w, custody, e)
    ensures Notified(w, custody, e, d.events)
    ensures Paid(d.events) == SettledPay(w, e)
  {
    if e.bidder == 0 then
      var d := ExpiredMail(w, custody, e);
      assert e.item in custody && Known(w, e.owner) ==> d.events[0] in d.events;
      d
    else
      var won := WonMail(w, custody, e);
      var paid := SuccessfulMail(w, e);
      CarriedAppend(paid, won.events);
      PaidAppend(paid, won.events);
      assert Known(w, e.owner) ==> paid[0] in paid + won.events;
      assert e.item in custody && Known(w, e.bidder) ==> won.events[0] in paid + won.events;
      Delivery(won.custody, paid + won.events)
  }
}
