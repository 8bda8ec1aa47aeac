/** Shared vocabulary of the auction-house model: identifiers, the constants
    the engine is compiled with, and the oracles through which it sees the
    rest of the game world (sessions, the character cache, the faction
    template store and the auction-house store). */
module Common {

  datatype Option<+T> = None | Some(value: T)

  /** Low part of a character guid; 0 means "no character" (an auction
      without a bidder has bidder 0). */
  type Player = nat

  /** A character that is actually playing: its guid is never 0. */
  type CharGuid = p: nat | p != 0 witness 1

  /** Low part of an item guid. */
  type ItemGuid = nat

  const MINUTE: nat := 60
  const HOUR: nat := 60 * MINUTE

  /** Shortest listing duration, in seconds; the client offers 1, 2 or 4 times it. */
  const MIN_AUCTION_TIME: nat := 12 * HOUR

  /** Listing cap per character and per house. */
  const MAX_AUCTIONS: nat := 50

  /** Faction-template mask bits. */
  const FACTION_MASK_ALLIANCE: bv32 := 2
  const FACTION_MASK_HORDE: bv32 := 4

  /** Guid given to every listing's auctioneer when the houses are shared. */
  const NEUTRAL_AUCTIONEER: nat := 23442

  /** Seconds after listing during which only the seller's address may bid. */
  const BOT_WINDOW: nat := 60

  /** Number of listings one search page carries. */
  const PAGE_SIZE: nat := 50

  /** 2^32: the range of the 32-bit columns and counters. */
  const UINT32: nat := 0x1_0000_0000

  /** Percentages lie between 0 and 100. */
  type Percent = p: nat | p <= 100

  /** A row of the auction-house store: the house id and the cut the house keeps. */
  datatype HouseEntry = HouseEntry(houseId: nat, cutPercent: Percent)

  /** Everything the engine asks of the rest of the server. Each field is a
      total function standing for a lookup the engine cannot see into. */
  datatype World = World(
    twoSide: bool,                          // the shared-auction-house switch
    online: Player -> bool,                 // a connected session exists
    account: Player -> nat,                 // account of a character, 0 if none
    address: Player -> nat,                 // remote address of a session
    factionMask: nat -> Option<bv32>,       // faction template store
    houseStore: nat -> Option<HouseEntry>,  // auction-house store
    creatureEntry: nat -> Option<nat>,      // spawn guid -> creature entry
    creatureFaction: nat -> Option<nat>)    // creature entry -> faction template

  /** A character the mail system can reach: online, or known to the cache. */
  predicate Known(w: World, p: Player) {
    w.online(p) || w.account(p) != 0
  }
}
