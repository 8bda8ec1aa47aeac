/** Routing and listing economics of the registry (AuctionHouseMgr): which
    of the three houses an auctioneer serves, which auction-house store row
    it uses, and what a listing costs up front. */
module Routing {
  import opened Common

  datatype HouseKind = AllianceHouse | HordeHouse | NeutralHouse

  predicate HasAlliance(mask: bv32) { mask & FACTION_MASK_ALLIANCE != 0 }
  predicate HasHorde(mask: bv32) { mask & FACTION_MASK_HORDE != 0 }

  /** The house an auctioneer of the given faction template trades in. */
  function AuctionsMap(w: World, factionTemplateId: nat): (k: HouseKind)
    ensures w.twoSide ==> k == NeutralHouse
    ensures w.factionMask(factionTemplateId).None? ==> k == NeutralHouse
    ensures k == AllianceHouse <==>
      !w.twoSide && w.factionMask(factionTemplateId).Some? && HasAlliance(w.factionMask(factionTemplateId).value)
    ensures k == HordeHouse <==>
      !w.twoSide && w.factionMask(factionTemplateId).Some?
      && !HasAlliance(w.factionMask(factionTemplateId).value) && HasHorde(w.factionMask(factionTemplateId).value)
  {
    if w.twoSide then NeutralHouse
    else
      match w.factionMask(factionTemplateId)
      case None => NeutralHouse
      case Some(mask) =>
        if HasAlliance(mask) then AllianceHouse
        else if HasHorde(mask) then HordeHouse
        else NeutralHouse
  }

  /** The auctioneer factions with a fixed house: the capital cities and the
      three goblin towns. */
  predicate InFactionTable(f: nat) {
    f in {12, 29, 55, 68, 80, 104, 120, 474, 855, 1604}
  }

  /** The auction-house store row an auctioneer of the given faction uses:
      7 (goblin) when houses are shared, else a fixed city table, else 1, 6 or
      7 by the faction's mask. */
  function AuctionHouseId(w: World, factionTemplateId: nat): (id: nat)
    ensures 1 <= id <= 7
    ensures w.twoSide ==> id == 7
  {
    if w.twoSide then 7
    else if factionTemplateId == 12 then 1
    else if factionTemplateId == 29 then 6
    else if factionTemplateId == 55 then 2
    else if factionTemplateId == 68 then 4
    else if factionTemplateId == 80 then 3
    else if factionTemplateId == 104 then 5
    else if factionTemplateId == 120 then 7
    else if factionTemplateId == 474 then 7
    else if factionTemplateId == 855 then 7
    else if factionTemplateId == 1604 then 6
    else
      match w.factionMask(factionTemplateId)
      case None => 7
      case Some(mask) =>
        if HasAlliance(mask) then 1
        else if HasHorde(mask) then 6
        else 7
  }

  /** For an auctioneer outside the fixed table, the store row and the house
      agree: the human row goes with the alliance house, the orc row with
      the horde house and the goblin row with the neutral house. */
  lemma HouseIdAgreesWithRouting(w: World, f: nat)
    requires !w.twoSide && !InFactionTable(f)
    ensures AuctionsMap(w, f) == AllianceHouse <==> AuctionHouseId(w, f) == 1
    ensures AuctionsMap(w, f) == HordeHouse <==> AuctionHouseId(w, f) == 6
    ensures AuctionsMap(w, f) == NeutralHouse <==> AuctionHouseId(w, f) == 7
  {
  }

  /** The three goblin towns always use the goblin row. */
  lemma GoblinTownsUseGoblinHouse(w: World, f: nat)
    requires f == 120 || f == 474 || f == 855
    ensures AuctionHouseId(w, f) == 7
  {
  }

  /** Percentage of the item's sell price charged per duration unit: 15 when
      houses are shared or the store row, read as a faction template, is
      alliance or horde; 75 otherwise. */
  function DepositPercent(w: World, house: HouseEntry): (p: nat)
    ensures p == 15 || p == 75
    ensures w.twoSide ==> p == 15
    ensures p == 75 <==>
      !w.twoSide && (w.factionMask(house.houseId).None?
                     || (!HasAlliance(w.factionMask(house.houseId).value)
                         && !HasHorde(w.factionMask(house.houseId).value)))
  {
    if w.twoSide then 15
    else
      match w.factionMask(house.houseId)
      case None => 75
      case Some(mask) =>
        if HasAlliance(mask) then 15
        else if HasHorde(mask) then 15
        else 75
  }

  /** Listing fee: sell price times percentage times stack size times the
      number of whole duration units, rounded down; nothing for an item
      without a sell price. */
  function Deposit(w: World, house: HouseEntry, time: nat, sellPrice: nat, count: nat): (d: nat)
    ensures sellPrice == 0 ==> d == 0
    ensures 100 * d <= sellPrice * DepositPercent(w, house) * count * (time / MIN_AUCTION_TIME)
    ensures sellPrice * DepositPercent(w, house) * count * (time / MIN_AUCTION_TIME) < 100 * d + 100
  {
    if sellPrice > 0 then
      sellPrice * DepositPercent(w, house) * count * (time / MIN_AUCTION_TIME) / 100
    else 0
  }

  /** A bigger stack or a longer duration never costs less. */
  lemma DepositMonotone(w: World, house: HouseEntry, sellPrice: nat,
                        count1: nat, count2: nat, time1: nat, time2: nat)
    requires count1 <= count2 && time1 <= time2
    ensures Deposit(w, house, time1, sellPrice, count1) <= Deposit(w, house, time2, sellPrice, count2)
  {
    var p := DepositPercent(w, house);
    var u1, u2 := time1 / MIN_AUCTION_TIME, time2 / MIN_AUCTION_TIME;
    assert u1 <= u2;
    var a := sellPrice * p;
    MulMonotone(a, count1, count2);
    MulMonotone2(a * count1, u1, a * count2, u2);
    assert (a * count1 * u1) / 100 <= (a * count2 * u2) / 100;
  }

  /** A listing shorter than the minimum duration carries no fee. */
  lemma DepositZeroBelowMinimum(w: World, house: HouseEntry, time: nat, sellPrice: nat, count: nat)
    requires time < MIN_AUCTION_TIME
    ensures Deposit(w, house, time, sellPrice, count) == 0
  {
  }

  lemma MulMonotone(a: nat, x: nat, y: nat)
    requires x <= y
    ensures a * x <= a * y
  {
  }

  lemma MulMonotone2(a: nat, x: nat, b: nat, y: nat)
    requires a <= b && x <= y
    ensures a * x <= b * y
  {
    MulMonotone(a, x, y);
    assert a * y <= b * y;
  }
}
