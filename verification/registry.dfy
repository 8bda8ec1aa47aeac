/** The registry (AuctionHouseMgr) as a value: the alliance, horde and
    neutral houses, the item custody table, the characters' balances, the
    outbound mail and the auction id generator, with the invariant every
    operation keeps and the registry-wide sweep and owner removal. */
module Registry {
  import opened Common
  import opened Listing
  import opened Routing
  import opened Settlement
  import opened AuctionHouse

  datatype Market = Market(
    alliance: House,
    horde: House,
    neutral: House,
    custody: set<ItemGuid>,
    money: map<Player, nat>,
    mail: seq<Event>,
    nextId: nat)            // next id the auction id generator hands out

  function HouseOf(m: Market, k: HouseKind): House {
    match k
    case AllianceHouse => m.alliance
    case HordeHouse => m.horde
    case NeutralHouse => m.neutral
  }

  /** Replaces one house and nothing else. */
  function WithHouse(m: Market, k: HouseKind, h: House): (r: Market)
    ensures HouseOf(r, k) == h
    ensures forall k' | k' != k :: HouseOf(r, k') == HouseOf(m, k')
    ensures r.custody == m.custody && r.money == m.money && r.mail == m.mail && r.nextId == m.nextId
  {
    match k
    case AllianceHouse => m.(alliance := h)
    case HordeHouse => m.(horde := h)
    case NeutralHouse => m.(neutral := h)
  }

  function Money(m: Market, p: Player): nat {
    if p in m.money then m.money[p] else 0
  }

  /** Adds `delta` to one character's balance (Player::ModifyMoney), never
      going below zero; nobody else's balance changes. */
  function ModifyMoney(m: Market, p: Player, delta: int): (r: Market)
    ensures Money(r, p) == if Money(m, p) + delta < 0 then 0 else Money(m, p) + delta
    ensures forall q | q != p :: Money(r, q) == Money(m, q)
    ensures r.alliance == m.alliance && r.horde == m.horde && r.neutral == m.neutral
    ensures r.custody == m.custody && r.mail == m.mail && r.nextId == m.nextId
  {
    var v := Money(m, p) + delta;
    m.(money := m.money[p := if v < 0 then 0 else v])
  }

  // ---------------------------------------------------------------------
  // The invariant

  /** What holds of every listing between requests: a seller, a bid exactly
      when there is a bidder, a bidder other than the seller, and a bid
      below the buyout price when there is one. */
  ghost predicate EntryValid(e: Entry) {
    && e.owner != 0
    && (e.bidder == 0 <==> e.bid == 0)
    && e.bidder != e.owner
    && (e.buyout != 0 ==> e.bid < e.buyout)
  }

  ghost predicate HouseValid(h: House, nextId: nat) {
    && WellKeyed(h)
    && Injective(h)
    && forall k | k in h :: k < nextId && EntryValid(h[k])
  }

  /** The registry invariant: every house is well formed, no item is listed
      twice (within or across houses), and the custody table holds exactly
      the items of the listed auctions. */
  ghost predicate Valid(m: Market) {
    && HouseValid(m.alliance, m.nextId)
    && HouseValid(m.horde, m.nextId)
    && HouseValid(m.neutral, m.nextId)
    && Items(m.alliance) !! Items(m.horde)
    && Items(m.alliance) !! Items(m.neutral)
    && Items(m.horde) !! Items(m.neutral)
    && m.custody == Items(m.alliance) + Items(m.horde) + Items(m.neutral)
  }

  /** An empty registry satisfies the invariant. */
  lemma EmptyValid(money: map<Player, nat>, nextId: nat)
    ensures Valid(Market(map[], map[], map[], {}, money, [], nextId))
  {
  }

  /** Dropping listings from an injective house drops exactly their items. */
  lemma DropItems(h: House, ks: set<nat>)
    requires Injective(h)
    ensures Injective(h - ks)
    ensures Items(h - ks) == Items(h) - ItemsOf(h, ks)
  {
    forall g | g in Items(h) - ItemsOf(h, ks) ensures g in Items(h - ks) {
      var k :| k in h && h[k].item == g;
      assert k !in ks && k in h - ks;
    }
    forall g | g in Items(h - ks) ensures g !in ItemsOf(h, ks) {
      var k :| k in h - ks && h[k].item == g;
    }
  }

  /** A house keeps its well-formedness when listings leave it. */
  lemma DropHouseValid(h: House, ks: set<nat>, nextId: nat)
    requires HouseValid(h, nextId)
    ensures HouseValid(h - ks, nextId)
  {
  }

  /** Removing listings from one house, and with them exactly their items
      from custody, keeps the invariant. */
  lemma DropKeepsValid(m: Market, kind: HouseKind, ks: set<nat>, m': Market)
    requires Valid(m)
    requires HouseOf(m', kind) == HouseOf(m, kind) - ks
    requires forall k' | k' != kind :: HouseOf(m', k') == HouseOf(m, k')
    requires m'.custody == m.custody - ItemsOf(HouseOf(m, kind), ks)
    requires m'.nextId == m.nextId
    ensures Valid(m')
  {
    DropItems(HouseOf(m, kind), ks);
    DropHouseValid(HouseOf(m, kind), ks, m.nextId);
    assert HouseOf(m', AllianceHouse) == m'.alliance;
    assert HouseOf(m', HordeHouse) == m'.horde;
    assert HouseOf(m', NeutralHouse) == m'.neutral;
  }

  /** `after` extends `before`: mail is only ever appended. */
  predicate Extends(before: seq<Event>, after: seq<Event>) {
    |before| <= |after| && after[..|before|] == before
  }

  lemma ExtendsTrans(a: seq<Event>, b: seq<Event>, c: seq<Event>)
    requires Extends(a, b) && Extends(b, c)
    ensures Extends(a, c)
  {
    assert c[..|a|] == c[..|b|][..|a|];
  }

  // ---------------------------------------------------------------------
  // Registry-wide passes

  /** Sweeps one house of the registry: it loses exactly its listings
      expired at `now`, custody exactly their items. */
  function SweepHouse(w: World, m: Market, kind: HouseKind, now: nat): (r: Market)
    ensures HouseOf(r, kind) == HouseOf(m, kind) - ExpiredKeys(HouseOf(m, kind), now)
    ensures forall k' | k' != kind :: HouseOf(r, k') == HouseOf(m, k')
    ensures r.custody == m.custody - ItemsOf(HouseOf(m, kind), ExpiredKeys(HouseOf(m, kind), now))
    ensures r.money == m.money && r.nextId == m.nextId
    ensures Extends(m.mail, r.mail)
  {
    var s := Sweep(w, HouseOf(m, kind), m.custody, m.mail, now);
    WithHouse(m, kind, s.house).(custody := s.custody, mail := s.mail)
  }

  /** Expiry sweep over the three houses, horde first, then alliance, then
      neutral (AuctionHouseMgr::Update): each house loses exactly its
      listings expired at `now`. */
  function Update(w: World, m: Market, now: nat): (r: Market)
    ensures r.horde == m.horde - ExpiredKeys(m.horde, now)
    ensures r.alliance == m.alliance - ExpiredKeys(m.alliance, now)
    ensures r.neutral == m.neutral - ExpiredKeys(m.neutral, now)
    ensures r.money == m.money && r.nextId == m.nextId
    ensures Extends(m.mail, r.mail)
  {
    var m1 := SweepHouse(w, m, HordeHouse, now);
    var m2 := SweepHouse(w, m1, AllianceHouse, now);
    var m3 := SweepHouse(w, m2, NeutralHouse, now);
    ExtendsTrans(m.mail, m1.mail, m2.mail);
    ExtendsTrans(m.mail, m2.mail, m3.mail);
    m3
  }

  /** Sweeping one house keeps the invariant. */
  lemma SweepHouseKeepsValid(w: World, m: Market, kind: HouseKind, now: nat)
    requires Valid(m)
    ensures Valid(SweepHouse(w, m, kind, now))
  {
    DropKeepsValid(m, kind, ExpiredKeys(HouseOf(m, kind), now), SweepHouse(w, m, kind, now));
  }

  /** The sweep keeps the invariant: expired listings leave their houses
      together with their items. */
  lemma UpdateKeepsValid(w: World, m: Market, now: nat)
    requires Valid(m)
    ensures Valid(Update(w, m, now))
  {
    var m1 := SweepHouse(w, m, HordeHouse, now);
    var m2 := SweepHouse(w, m1, AllianceHouse, now);
    SweepHouseKeepsValid(w, m, HordeHouse, now);
    SweepHouseKeepsValid(w, m1, AllianceHouse, now);
    SweepHouseKeepsValid(w, m2, NeutralHouse, now);
  }

  /** Sweeping a house with nothing expired changes nothing. */
  lemma SweepHouseNothing(w: World, m: Market, kind: HouseKind, now: nat)
    requires forall k | k in HouseOf(m, kind) :: !(now > HouseOf(m, kind)[k].expireTime)
    ensures SweepHouse(w, m, kind, now) == m
  {
    var h := HouseOf(m, kind);
    SettleNothing(w, SortedKeys(h.Keys), h, m.custody, m.mail, ExpiredAt(now));
    assert Sweep(w, h, m.custody, m.mail, now) == Settled(h, m.custody, m.mail);
    match kind
    case AllianceHouse =>
    case HordeHouse =>
    case NeutralHouse =>
  }

  /** A second sweep at the same time settles nothing. */
  lemma UpdateIdempotent(w: World, m: Market, now: nat)
    ensures Update(w, Update(w, m, now), now) == Update(w, m, now)
  {
    var r := Update(w, m, now);
    SweepHouseNothing(w, r, HordeHouse, now);
    SweepHouseNothing(w, r, AllianceHouse, now);
    SweepHouseNothing(w, r, NeutralHouse, now);
  }

  /** Removes one character's listings from one house of the registry. */
  function RemoveFromHouse(w: World, m: Market, kind: HouseKind, owner: Player): (r: Market)
    ensures HouseOf(r, kind) == HouseOf(m, kind) - KeysOf(HouseOf(m, kind), owner)
    ensures forall k' | k' != kind :: HouseOf(r, k') == HouseOf(m, k')
    ensures r.custody == m.custody - ItemsOf(HouseOf(m, kind), KeysOf(HouseOf(m, kind), owner))
    ensures r.money == m.money && r.nextId == m.nextId
    ensures Extends(m.mail, r.mail)
  {
    var s := RemoveAllOf(w, HouseOf(m, kind), m.custody, m.mail, owner);
    WithHouse(m, kind, s.house).(custody := s.custody, mail := s.mail)
  }

  /** Removal of one character's listings from the three houses
      (AuctionHouseMgr::RemoveAllAuctionsOf), each settled as the sweep
      settles it; afterwards none of the three holds a listing of theirs. */
  function RemoveAllAuctionsOf(w: World, m: Market, owner: Player): (r: Market)
    ensures r.horde == m.horde - KeysOf(m.horde, owner)
    ensures r.alliance == m.alliance - KeysOf(m.alliance, owner)
    ensures r.neutral == m.neutral - KeysOf(m.neutral, owner)
    ensures forall k | k in r.horde :: r.horde[k].owner != owner
    ensures forall k | k in r.alliance :: r.alliance[k].owner != owner
    ensures forall k | k in r.neutral :: r.neutral[k].owner != owner
    ensures r.money == m.money && r.nextId == m.nextId
    ensures Extends(m.mail, r.mail)
  {
    var m1 := RemoveFromHouse(w, m, HordeHouse, owner);
    var m2 := RemoveFromHouse(w, m1, AllianceHouse, owner);
    var m3 := RemoveFromHouse(w, m2, NeutralHouse, owner);
    ExtendsTrans(m.mail, m1.mail, m2.mail);
    ExtendsTrans(m.mail, m2.mail, m3.mail);
    m3
  }

  /** Removing a character's listings from one house keeps the invariant. */
  lemma RemoveFromHouseKeepsValid(w: World, m: Market, kind: HouseKind, owner: Player)
    requires Valid(m)
    ensures Valid(RemoveFromHouse(w, m, kind, owner))
  {
    DropKeepsValid(m, kind, KeysOf(HouseOf(m, kind), owner), RemoveFromHouse(w, m, kind, owner));
  }

  /** Removing a character's listings keeps the invariant. */
  lemma RemoveAllAuctionsOfKeepsValid(w: World, m: Market, owner: Player)
    requires Valid(m)
    ensures Valid(RemoveAllAuctionsOf(w, m, owner))
  {
    var m1 := RemoveFromHouse(w, m, HordeHouse, owner);
    var m2 := RemoveFromHouse(w, m1, AllianceHouse, owner);
    RemoveFromHouseKeepsValid(w, m, HordeHouse, owner);
    RemoveFromHouseKeepsValid(w, m1, AllianceHouse, owner);
    RemoveFromHouseKeepsValid(w, m2, NeutralHouse, owner);
  }
}
