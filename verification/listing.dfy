/** One listing (AuctionEntry): its fields, the arithmetic it carries (the
    minimum raise, the house cut, the seller's payout) and the shape of its
    stored row. */
module Listing {
  import opened Common

  /** An active sale. `bidder == 0` and `bid == 0` until the first bid. */
  datatype Entry = Entry(
    id: nat,
    auctioneer: nat,
    item: ItemGuid,
    itemTemplate: nat,
    owner: Player,
    startBid: nat,
    bidder: Player,
    bid: nat,
    buyout: nat,          // 0: no buyout
    expireTime: nat,
    deposit: nat,
    depositTime: nat,     // listing time; 0 after a reload
    house: HouseEntry)

  /** Minimum raise over the current bid: five coins per whole hundred of the
      bid, and never less than one coin. */
  function OutBid(bid: nat): (r: nat)
    ensures r >= 1
    ensures bid < 100 ==> r == 1
    ensures bid >= 100 ==> r % 5 == 0 && 20 * r <= bid < 20 * r + 100
  {
    var outbid := (bid / 100) * 5;
    if outbid == 0 then 1 else outbid
  }

  /** The raise never exceeds the bid it raises, once there is a bid. */
  lemma OutBidAtMostBid(bid: nat)
    requires bid >= 1
    ensures OutBid(bid) <= bid
  {
  }

  /** A larger bid never asks for a smaller raise. */
  lemma OutBidMonotone(a: nat, b: nat)
    requires a <= b
    ensures OutBid(a) <= OutBid(b)
  {
    if b >= 100 {
      assert a / 100 <= b / 100;
    }
  }

  /** Percentage of the final price the house keeps: 5 when the houses are
      shared, otherwise the house's own rate. */
  function CutPercent(twoSide: bool, house: HouseEntry): (p: Percent)
    ensures twoSide ==> p == 5
  {
    if twoSide then 5 else house.cutPercent
  }

  /** The house cut on the current bid, rounded down. The product of the
      percentage and the bid is a 32-bit product, so it wraps once it
      reaches 2^32. */
  function Cut(twoSide: bool, e: Entry): (r: nat)
    ensures 100 * r <= (CutPercent(twoSide, e.house) * e.bid) % UINT32 < 100 * r + 100
    ensures CutPercent(twoSide, e.house) * e.bid < UINT32 ==>
      100 * r <= CutPercent(twoSide, e.house) * e.bid < 100 * r + 100
    ensures r <= e.bid
  {
    var p := CutPercent(twoSide, e.house);
    assert p * e.bid <= 100 * e.bid;
    (p * e.bid) % UINT32 / 100
  }

  /** A bid of 858,993,460 at the shared houses' 5 percent makes the 32-bit
      product wrap to 4, so the house takes no cut at all. */
  lemma CutWraps(e: Entry)
    requires e.bid == 858_993_460
    ensures Cut(true, e) == 0
    ensures 5 * e.bid / 100 == 42_949_673
  {
  }

  /** What a successful sale pays the seller: the final bid less the cut,
      plus the listing deposit back. */
  function Payout(twoSide: bool, e: Entry): (r: nat)
    ensures r + Cut(twoSide, e) == e.bid + e.deposit
    ensures e.deposit <= r <= e.bid + e.deposit
  {
    e.bid + e.deposit - Cut(twoSide, e)
  }

  /** One row of the `auctionhouse` table, in its column order. */
  datatype AuctionRow = AuctionRow(
    id: nat, auctioneerGuid: nat, itemGuid: nat, itemTemplate: nat,
    itemOwner: nat, buyoutPrice: nat, time: nat, buyGuid: nat,
    lastBid: nat, startBid: nat, deposit: nat)

  /** The row a listing is saved as; the listing time and the house entry are
      not stored. */
  function ToRow(e: Entry): (r: AuctionRow)
    ensures r.id == e.id
    ensures r.auctioneerGuid == e.auctioneer
    ensures r.itemGuid == e.item
    ensures r.itemTemplate == e.itemTemplate
    ensures r.itemOwner == e.owner
    ensures r.buyoutPrice == e.buyout
    ensures r.time == e.expireTime
    ensures r.buyGuid == e.bidder
    ensures r.lastBid == e.bid
    ensures r.startBid == e.startBid
    ensures r.deposit == e.deposit
  {
    AuctionRow(e.id, e.auctioneer, e.item, e.itemTemplate, e.owner, e.buyout,
               e.expireTime, e.bidder, e.bid, e.startBid, e.deposit)
  }

  /** The listing a row is read back as. The expiry time is read as a 32-bit
      value although it is written as a 64-bit one, and the listing time
      restarts at 0. */
  function FromRow(row: AuctionRow, house: HouseEntry): (e: Entry)
    ensures e.depositTime == 0 && e.house == house
    ensures e.expireTime < UINT32
    ensures row.time < UINT32 ==> ToRow(e) == row
  {
    Entry(row.id, row.auctioneerGuid, row.itemGuid, row.itemTemplate,
          row.itemOwner, row.startBid, row.buyGuid, row.lastBid,
          row.buyoutPrice, row.time % UINT32, row.deposit, 0, house)
  }

  /** Saving then loading a listing restores every field but the listing
      time, as long as its expiry fits in 32 bits. */
  lemma RowRoundTrip(e: Entry)
    requires e.expireTime < UINT32
    ensures FromRow(ToRow(e), e.house) == e.(depositTime := 0)
  {
  }

  /** An expiry time of 2^32 does not survive a reload; the model reads
      the 32-bit column back modulo 2^32, so it comes back as 0. */
  lemma RowTimeTruncated(e: Entry)
    requires e.expireTime == UINT32
    ensures FromRow(ToRow(e), e.house).expireTime != e.expireTime
    ensures FromRow(ToRow(e), e.house).expireTime == 0
  {
  }
}
