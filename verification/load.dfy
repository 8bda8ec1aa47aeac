/** Reading the stored listings back at start-up (AuctionHouseMgr::LoadAuctions):
    each row is checked against the world's data, and a row whose auctioneer
    cannot be resolved is returned to its seller and dropped, a row whose
    item custody does not hold is dropped silently, and any other row is
    placed in its auctioneer's house. */
module Loading {
  import opened Common
  import opened Listing
  import opened Routing
  import opened Settlement
  import opened AuctionHouse
  import opened Registry

  /** Where a row's auctioneer puts it: its house and its store row. */
  datatype Placement = Placement(kind: HouseKind, store: HouseEntry)

  /** Follows a row's auctioneer from its spawn to its creature template, to
      the template's faction, to the faction's store row. None when any link
      is missing. */
  function Resolve(w: World, row: AuctionRow): (p: Option<Placement>)
    ensures p.Some? <==>
      && w.creatureEntry(row.auctioneerGuid).Some?
      && w.creatureFaction(w.creatureEntry(row.auctioneerGuid).value).Some?
      && w.houseStore(AuctionHouseId(w, w.creatureFaction(w.creatureEntry(row.auctioneerGuid).value).value)).Some?
    ensures p.Some? ==>
      var f := w.creatureFaction(w.creatureEntry(row.auctioneerGuid).value).value;
      p.value == Placement(AuctionsMap(w, f), w.houseStore(AuctionHouseId(w, f)).value)
  {
    match w.creatureEntry(row.auctioneerGuid)
    case None => None
    case Some(entry) =>
      match w.creatureFaction(entry)
      case None => None
      case Some(f) =>
        match w.houseStore(AuctionHouseId(w, f))
        case None => None
        case Some(store) => Some(Placement(AuctionsMap(w, f), store))
  }

  /** The store row a dropped listing is settled with: the source has not
      looked one up yet, and the settlement does not read it. */
  const Unplaced: HouseEntry := HouseEntry(0, 0)

  /** Loads one row. */
  function LoadRow(w: World, m: Market, row: AuctionRow): (r: Market)
    ensures r.money == m.money && r.nextId == m.nextId
    ensures Extends(m.mail, r.mail)
    ensures r.custody <= m.custody
    ensures Resolve(w, row).None? ==>
      var d := ExpiredMail(w, m.custody, FromRow(row, Unplaced));
      && r == m.(custody := d.custody, mail := m.mail + d.events)
    ensures Resolve(w, row).Some? && row.itemGuid !in m.custody ==> r == m
    ensures Resolve(w, row).Some? && row.itemGuid in m.custody ==>
      var p := Resolve(w, row).value;
      && HouseOf(r, p.kind) == HouseOf(m, p.kind)[row.id := FromRow(row, p.store)]
      && (forall k' | k' != p.kind :: HouseOf(r, k') == HouseOf(m, k'))
      && r.custody == m.custody && r.mail == m.mail
  {
    match Resolve(w, row)
    case None =>
      var d := ExpiredMail(w, m.custody, FromRow(row, Unplaced));
      assert (m.mail + d.events)[..|m.mail|] == m.mail;
      m.(custody := d.custody, mail := m.mail + d.events)
    case Some(p) =>
      if row.itemGuid !in m.custody then m
      else WithHouse(m, p.kind, HouseOf(m, p.kind)[row.id := FromRow(row, p.store)])
  }

  /** A listing saved while its auctioneer still resolves, its expiry fits
      in 32 bits and custody holds its item is read back unchanged but for
      its listing time, into the house and store row its auctioneer names. */
  lemma LoadSavedListing(w: World, m: Market, e: Entry)
    requires e.expireTime < UINT32 && e.item in m.custody
    requires Resolve(w, ToRow(e)).Some? && Resolve(w, ToRow(e)).value.store == e.house
    ensures var kind := Resolve(w, ToRow(e)).value.kind;
      HouseOf(LoadRow(w, m, ToRow(e)), kind) == HouseOf(m, kind)[e.id := e.(depositTime := 0)]
  {
    RowRoundTrip(e);
  }

  /** A row whose auctioneer no longer resolves hands its item back and
      leaves every house as it was. */
  lemma LoadUnresolvedReturnsItem(w: World, m: Market, row: AuctionRow)
    requires Resolve(w, row).None? && row.itemGuid in m.custody && Known(w, row.itemOwner)
    ensures var r := LoadRow(w, m, row);
      && r.alliance == m.alliance && r.horde == m.horde && r.neutral == m.neutral
      && r.mail == m.mail + [Mail(row.itemOwner, AuctionExpired, 0, Some(row.itemGuid))]
  {
  }

  /** Some row among the first `n` loaded `k` into house `kind`. */
  ghost predicate LoadedFrom(w: World, rows: seq<AuctionRow>, n: nat, kind: HouseKind, k: nat)
    requires n <= |rows|
  {
    exists i | 0 <= i < n :: rows[i].id == k && Resolve(w, rows[i]).Some? && Resolve(w, rows[i]).value.kind == kind
  }

  /** No two rows share an id or an item, as the table's keys promise. */
  ghost predicate DistinctRows(rows: seq<AuctionRow>) {
    forall i, j | 0 <= i < j < |rows| :: rows[i].id != rows[j].id && rows[i].itemGuid != rows[j].itemGuid
  }

  /** What loading did with `row`, judged against the registry `m` before
      loading began: a row whose auctioneer resolves and whose item custody
      held is in its house, read back as FromRow; a row whose auctioneer
      does not resolve has had its item mailed back to a reachable seller
      and, unless the seller is online, released from custody; a resolved
      row whose item custody did not hold added nothing. */
  ghost predicate RowOutcome(w: World, m: Market, row: AuctionRow, r: Market) {
    && (Resolve(w, row).Some? && row.itemGuid in m.custody ==>
          var p := Resolve(w, row).value;
          row.id in HouseOf(r, p.kind) && HouseOf(r, p.kind)[row.id] == FromRow(row, p.store))
    && (Resolve(w, row).None? && row.itemGuid in m.custody ==>
          && (Known(w, row.itemOwner) ==> Mail(row.itemOwner, AuctionExpired, 0, Some(row.itemGuid)) in r.mail)
          && (!w.online(row.itemOwner) ==> row.itemGuid !in r.custody))
    && (Resolve(w, row).Some? && row.itemGuid !in m.custody && row.id !in HouseOf(m, Resolve(w, row).value.kind) ==>
          row.id !in HouseOf(r, Resolve(w, row).value.kind))
  }

  /** Loading has not yet touched `row`'s id or item. */
  ghost predicate Untouched(m: Market, row: AuctionRow, r: Market) {
    && (row.itemGuid in r.custody <==> row.itemGuid in m.custody)
    && forall kind :: row.id in HouseOf(r, kind) <==> row.id in HouseOf(m, kind)
  }

  /** The rows before `i` have their outcome, the rest are untouched. */
  ghost predicate LoadedSoFar(w: World, m: Market, rows: seq<AuctionRow>, i: nat, r: Market)
    requires i <= |rows|
  {
    && (forall j | 0 <= j < i :: RowOutcome(w, m, rows[j], r))
    && (forall j | i <= j < |rows| :: Untouched(m, rows[j], r))
  }

  lemma MailKept(a: seq<Event>, b: seq<Event>, ev: Event)
    requires Extends(a, b) && ev in a
    ensures ev in b
  {
    var i :| 0 <= i < |a| && a[i] == ev;
    assert b[..|a|][i] == ev;
  }

  /** Loading a row untouched so far gives it its outcome. */
  lemma RowOutcomeNew(w: World, m: Market, row: AuctionRow, r: Market)
    requires Untouched(m, row, r)
    ensures RowOutcome(w, m, row, LoadRow(w, r, row))
  {
    var next := LoadRow(w, r, row);
    if Resolve(w, row).None? && row.itemGuid in m.custody && Known(w, row.itemOwner) {
      var d := ExpiredMail(w, r.custody, FromRow(row, Unplaced));
      assert next.mail[|r.mail|] == d.events[0];
    }
  }

  /** Loading another row keeps a row's outcome. */
  lemma RowOutcomeKept(w: World, m: Market, row: AuctionRow, r: Market, other: AuctionRow)
    requires RowOutcome(w, m, row, r) && row.id != other.id
    ensures RowOutcome(w, m, row, LoadRow(w, r, other))
  {
    var next := LoadRow(w, r, other);
    if Resolve(w, row).None? && row.itemGuid in m.custody && Known(w, row.itemOwner) {
      MailKept(r.mail, next.mail, Mail(row.itemOwner, AuctionExpired, 0, Some(row.itemGuid)));
    }
  }

  /** Loading another row leaves a row with a different id and item untouched. */
  lemma UntouchedKept(w: World, m: Market, row: AuctionRow, r: Market, other: AuctionRow)
    requires Untouched(m, row, r) && row.id != other.id && row.itemGuid != other.itemGuid
    ensures Untouched(m, row, LoadRow(w, r, other))
  {
  }

  /** One step of the load loop keeps LoadedSoFar. */
  lemma LoadStep(w: World, m: Market, rows: seq<AuctionRow>, i: nat, r: Market)
    requires DistinctRows(rows) && i < |rows| && LoadedSoFar(w, m, rows, i, r)
    ensures LoadedSoFar(w, m, rows, i + 1, LoadRow(w, r, rows[i]))
  {
    var next := LoadRow(w, r, rows[i]);
    forall j | 0 <= j < i + 1 ensures RowOutcome(w, m, rows[j], next) {
      if j == i {
        RowOutcomeNew(w, m, rows[i], r);
      } else {
        RowOutcomeKept(w, m, rows[j], r, rows[i]);
      }
    }
    forall j | i + 1 <= j < |rows| ensures Untouched(m, rows[j], next) {
      UntouchedKept(w, m, rows[j], r, rows[i]);
    }
  }

  /** One step of the load loop: every listing new since `m` comes from a
      row among the first `i + 1`. */
  lemma ProvenanceStep(w: World, m: Market, rows: seq<AuctionRow>, i: nat, r: Market)
    requires i < |rows|
    requires forall kind, k | k in HouseOf(r, kind) && k !in HouseOf(m, kind) :: LoadedFrom(w, rows, i, kind, k)
    ensures var next := LoadRow(w, r, rows[i]);
      forall kind, k | k in HouseOf(next, kind) && k !in HouseOf(m, kind) :: LoadedFrom(w, rows, i + 1, kind, k)
  {
    var next := LoadRow(w, r, rows[i]);
    forall kind, k | k in HouseOf(next, kind) && k !in HouseOf(m, kind)
      ensures LoadedFrom(w, rows, i + 1, kind, k)
    {
      if k in HouseOf(r, kind) {
        var j :| 0 <= j < i && rows[j].id == k && Resolve(w, rows[j]).Some? && Resolve(w, rows[j]).value.kind == kind;
      } else {
        NewKeyFromRow(w, r, rows[i], kind, k);
      }
    }
  }

  /** A key that loading one row adds to a house is that row's id, and the
      row's auctioneer resolves to that house. */
  lemma NewKeyFromRow(w: World, r: Market, row: AuctionRow, kind: HouseKind, k: nat)
    requires k in HouseOf(LoadRow(w, r, row), kind) && k !in HouseOf(r, kind)
    ensures k == row.id && Resolve(w, row).Some? && Resolve(w, row).value.kind == kind
  {
  }

  /** Loads the rows in order. Loading only ever hands items out of custody,
      never takes new ones in; it never pays anyone; and every listing it
      adds to a house comes from a row whose auctioneer resolves to that
      house. When no two rows share an id or an item, every row gets its
      outcome: a resolved row with its item in custody is loaded into its
      house, an unresolved one is returned to its seller. */
  method LoadAuctions(w: World, m: Market, rows: seq<AuctionRow>) returns (r: Market)
    ensures r.money == m.money && r.nextId == m.nextId
    ensures Extends(m.mail, r.mail)
    ensures r.custody <= m.custody
    ensures forall kind, k | k in HouseOf(r, kind) && k !in HouseOf(m, kind) ::
      LoadedFrom(w, rows, |rows|, kind, k)
    ensures DistinctRows(rows) ==> forall i | 0 <= i < |rows| :: RowOutcome(w, m, rows[i], r)
  {
    r := m;
    for i := 0 to |rows|
      invariant r.money == m.money && r.nextId == m.nextId
      invariant Extends(m.mail, r.mail)
      invariant r.custody <= m.custody
      invariant forall kind, k | k in HouseOf(r, kind) && k !in HouseOf(m, kind) ::
        LoadedFrom(w, rows, i, kind, k)
      invariant DistinctRows(rows) ==> LoadedSoFar(w, m, rows, i, r)
    {
      var next := LoadRow(w, r, rows[i]);
      ExtendsTrans(m.mail, r.mail, next.mail);
      ProvenanceStep(w, m, rows, i, r);
      if DistinctRows(rows) {
        LoadStep(w, m, rows, i, r);
      }
      r := next;
    }
  }
}
