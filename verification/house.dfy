/** One auction house (AuctionHouseObject): listings keyed by id, visited
    in ascending id order as the source's ordered map is, with the periodic
    expiry sweep, the removal of one seller's listings, the per-seller count
    and the paginated search. */
module AuctionHouse {
  import opened Common
  import opened Custody
  import opened Listing
  import opened Settlement

  type House = map<nat, Entry>

  /** Every listing is stored under its own id. */
  ghost predicate WellKeyed(h: House) {
    forall k | k in h :: h[k].id == k
  }

  /** No two listings of a house hold the same item. */
  ghost predicate Injective(h: House) {
    forall k1, k2 | k1 in h && k2 in h && h[k1].item == h[k2].item :: k1 == k2
  }

  /** The items a house holds. */
  function Items(h: House): set<ItemGuid> {
    set k | k in h :: h[k].item
  }

  /** The items of the listings in `ks`. */
  function ItemsOf(h: House, ks: set<nat>): set<ItemGuid> {
    set k | k in ks && k in h :: h[k].item
  }

  // ---------------------------------------------------------------------
  // Ascending key order

  predicate Increasing(s: seq<nat>) {
    forall i, j | 0 <= i < j < |s| :: s[i] < s[j]
  }

  /** A non-empty key set has a least element. */
  lemma {:induction false} LeastOf(s: set<nat>) returns (m: nat)
    requires s != {}
    ensures m in s && forall y | y in s :: m <= y
    decreases |s|
  {
    var x :| x in s;
    if s == {x} {
      m := x;
    } else {
      var rest := LeastOf(s - {x});
      m := if x < rest then x else rest;
      forall y | y in s ensures m <= y {
        if y != x {
          assert y in s - {x};
        }
      }
    }
  }

  lemma HasMin(s: set<nat>)
    requires s != {}
    ensures exists m :: m in s && forall y | y in s :: m <= y
  {
    var m := LeastOf(s);
  }

  /** The least key of a non-empty key set. */
  function MinKey(s: set<nat>): (m: nat)
    requires s != {}
    ensures m in s && forall y | y in s :: m <= y
  {
    HasMin(s);
    var m :| m in s && forall y | y in s :: m <= y;
    m
  }

  /** The keys of a set in ascending order. */
  function SortedKeys(s: set<nat>): (r: seq<nat>)
    ensures Increasing(r)
    ensures forall k :: k in r <==> k in s
    ensures |r| == |s|
    decreases |s|
  {
    if s == {} then []
    else
      var m := MinKey(s);
      var rest := SortedKeys(s - {m});
      [m] + rest
  }

  // ---------------------------------------------------------------------
  // Settling the listings a predicate selects

  /** House, custody and mail after a pass that settles listings. */
  datatype Settled = Settled(house: House, custody: set<ItemGuid>, mail: seq<Event>)

  /** The keys of `keys` whose listings `sel` selects. */
  function Selected(keys: seq<nat>, h: House, sel: Entry -> bool): set<nat> {
    set k | k in h && k in keys && sel(h[k])
  }

  /** Visits `keys` in order; each visited listing that `sel` selects is
      settled (SettleEntry), its item released from custody and the listing
      removed; the rest stay as they are. This is the loop shared by the
      expiry sweep and the removal of one seller's listings. */
  function SettleWhere(w: World, keys: seq<nat>, h: House, custody: set<ItemGuid>,
                       mail: seq<Event>, sel: Entry -> bool): (r: Settled)
    ensures r.house == h - Selected(keys, h, sel)
    ensures r.custody == custody - ItemsOf(h, Selected(keys, h, sel))
    ensures |mail| <= |r.mail| && r.mail[..|mail|] == mail
    decreases |keys|
  {
    if keys == [] then Settled(h, custody, mail)
    else
      var k := keys[0];
      if k in h && sel(h[k]) then
        var d := SettleEntry(w, custody, h[k]);
        var r := SettleWhere(w, keys[1..], h - {k}, RemoveItem(d.custody, h[k].item).custody, mail + d.events, sel);
        SelectedStep(keys, h, sel);
        assert r.mail[..|mail + d.events|][..|mail|] == mail;
        r
      else
        var r := SettleWhere(w, keys[1..], h, custody, mail, sel);
        SkipStep(keys, h, sel);
        r
  }

  lemma SkipStep(keys: seq<nat>, h: House, sel: Entry -> bool)
    requires keys != [] && !(keys[0] in h && sel(h[keys[0]]))
    ensures Selected(keys, h, sel) == Selected(keys[1..], h, sel)
  {
    forall k | k in Selected(keys, h, sel) ensures k in Selected(keys[1..], h, sel) {
      var i :| 0 <= i < |keys| && keys[i] == k;
      assert keys[1..][i - 1] == k;
    }
  }

  /** A settled first key joins the keys the rest of the pass settles. */
  lemma SelectedStep(keys: seq<nat>, h: House, sel: Entry -> bool)
    requires keys != [] && keys[0] in h && sel(h[keys[0]])
    ensures Selected(keys, h, sel) == Selected(keys[1..], h - {keys[0]}, sel) + {keys[0]}
    ensures ItemsOf(h, Selected(keys, h, sel)) ==
      ItemsOf(h - {keys[0]}, Selected(keys[1..], h - {keys[0]}, sel)) + {h[keys[0]].item}
  {
    var k := keys[0];
    var S, S' := Selected(keys, h, sel), Selected(keys[1..], h - {k}, sel);
    forall j | j in S ensures j in S' + {k} {
      if j != k {
        var i :| 0 <= i < |keys| && keys[i] == j;
        assert keys[1..][i - 1] == j;
      }
    }
    assert S == S' + {k};
  }

  /** The mail a pass appends: every settled listing gets the mail its
      settlement calls for (Notified, judged against custody before the
      pass), and the only items leaving by mail or destruction are those of
      settled listings. */
  lemma SettleWhereMail(w: World, keys: seq<nat>, h: House, custody: set<ItemGuid>,
                        mail: seq<Event>, sel: Entry -> bool)
    requires Injective(h) && Increasing(keys)
    ensures var r := SettleWhere(w, keys, h, custody, mail, sel);
      && (forall k | k in Selected(keys, h, sel) :: Notified(w, custody, h[k], r.mail))
      && (forall g | g in Carried(r.mail[|mail|..]) :: g in ItemsOf(h, Selected(keys, h, sel)))
      && Paid(r.mail[|mail|..]) == PassPay(w, keys, h, sel)
  {
    SettleWhereNotifies(w, keys, h, custody, mail, sel);
    SettleWhereCarries(w, keys, h, custody, mail, sel);
    SettleWherePays(w, keys, h, custody, mail, sel);
  }

  /** The mail a pass appends after `mail`, once it has settled `keys[0]`. */
  lemma SettledFirst(w: World, keys: seq<nat>, h: House, custody: set<ItemGuid>,
                     mail: seq<Event>, sel: Entry -> bool)
    requires keys != [] && keys[0] in h && sel(h[keys[0]])
    ensures var d := SettleEntry(w, custody, h[keys[0]]);
      var r := SettleWhere(w, keys, h, custody, mail, sel);
      && r == SettleWhere(w, keys[1..], h - {keys[0]}, RemoveItem(d.custody, h[keys[0]].item).custody, mail + d.events, sel)
      && r.mail[|mail|..] == d.events + r.mail[|mail + d.events|..]
  {
    var d := SettleEntry(w, custody, h[keys[0]]);
    var r := SettleWhere(w, keys, h, custody, mail, sel);
    var mail' := mail + d.events;
    assert r.mail[..|mail'|] == mail';
    assert r.mail[..|mail'|][|mail|..] == d.events;
  }

  /** Mail only grows, so what it held for a listing it still holds. */
  lemma NotifiedGrows(w: World, custody: set<ItemGuid>, e: Entry, evs: seq<Event>, more: seq<Event>)
    requires Notified(w, custody, e, evs)
    requires forall ev | ev in evs :: ev in more
    ensures Notified(w, custody, e, more)
  {
  }

  /** Every listing a pass settles gets the mail its settlement calls for.
      In a house where no item is listed twice, each listing's item is
      still in custody at its turn if it was before the pass. */
  lemma {:induction false} SettleWhereNotifies(w: World, keys: seq<nat>, h: House, custody: set<ItemGuid>,
                                               mail: seq<Event>, sel: Entry -> bool)
    requires Injective(h)
    ensures var r := SettleWhere(w, keys, h, custody, mail, sel);
      forall k | k in Selected(keys, h, sel) :: Notified(w, custody, h[k], r.mail)
    decreases |keys|
  {
    if keys != [] {
      var k := keys[0];
      if k in h && sel(h[k]) {
        var d := SettleEntry(w, custody, h[k]);
        var h' := h - {k};
        var custody' := RemoveItem(d.custody, h[k].item).custody;
        var mail' := mail + d.events;
        var r := SettleWhere(w, keys, h, custody, mail, sel);
        SettledFirst(w, keys, h, custody, mail, sel);
        assert Injective(h');
        SettleWhereNotifies(w, keys[1..], h', custody', mail', sel);
        SelectedStep(keys, h, sel);
        forall j | j in Selected(keys, h, sel) ensures Notified(w, custody, h[j], r.mail) {
          if j == k {
            assert r.mail[..|mail'|] == mail';
            forall ev | ev in d.events ensures ev in r.mail {
              var i :| 0 <= i < |d.events| && d.events[i] == ev;
              assert r.mail[|mail| + i] == ev;
            }
            NotifiedGrows(w, custody, h[k], d.events, r.mail);
          } else {
            assert j in Selected(keys[1..], h', sel);
            assert h[j].item != h[k].item;
            assert h[j].item in custody ==> h[j].item in custody';
          }
        }
      } else {
        SettleWhereNotifies(w, keys[1..], h, custody, mail, sel);
        SkipStep(keys, h, sel);
      }
    }
  }

  /** The only items a pass mails or destroys are those of settled listings. */
  lemma {:induction false} SettleWhereCarries(w: World, keys: seq<nat>, h: House, custody: set<ItemGuid>,
                                              mail: seq<Event>, sel: Entry -> bool)
    ensures var r := SettleWhere(w, keys, h, custody, mail, sel);
      forall g | g in Carried(r.mail[|mail|..]) :: g in ItemsOf(h, Selected(keys, h, sel))
    decreases |keys|
  {
    var r := SettleWhere(w, keys, h, custody, mail, sel);
    if keys == [] {
      assert r.mail[|mail|..] == [];
    } else {
      var k := keys[0];
      if k in h && sel(h[k]) {
        var d := SettleEntry(w, custody, h[k]);
        var mail' := mail + d.events;
        SettledFirst(w, keys, h, custody, mail, sel);
        SettleWhereCarries(w, keys[1..], h - {k}, RemoveItem(d.custody, h[k].item).custody, mail', sel);
        SelectedStep(keys, h, sel);
        CarriedAppend(d.events, r.mail[|mail'|..]);
      } else {
        SettleWhereCarries(w, keys[1..], h, custody, mail, sel);
        SkipStep(keys, h, sel);
      }
    }
  }

  /** The money a pass over `keys` owes: the settlement payout of each
      selected listing, summed in key order over the house as it stood
      before the pass. */
  function PassPay(w: World, keys: seq<nat>, h: House, sel: Entry -> bool): nat
    decreases |keys|
  {
    if keys == [] then 0
    else (if keys[0] in h && sel(h[keys[0]]) then SettledPay(w, h[keys[0]]) else 0) + PassPay(w, keys[1..], h, sel)
  }

  /** Dropping a listing the keys never visit does not change what they owe. */
  lemma {:induction false} PassPayWithout(w: World, keys: seq<nat>, h: House, sel: Entry -> bool, k: nat)
    requires k !in keys
    ensures PassPay(w, keys, h - {k}, sel) == PassPay(w, keys, h, sel)
    decreases |keys|
  {
    if keys != [] {
      PassPayWithout(w, keys[1..], h, sel, k);
    }
  }

  /** A pass over keys in ascending order mails exactly the money it owes:
      each settled listing's payout once, and nothing more. */
  lemma {:induction false} SettleWherePays(w: World, keys: seq<nat>, h: House, custody: set<ItemGuid>,
                                           mail: seq<Event>, sel: Entry -> bool)
    requires Increasing(keys)
    ensures var r := SettleWhere(w, keys, h, custody, mail, sel);
      Paid(r.mail[|mail|..]) == PassPay(w, keys, h, sel)
    decreases |keys|
  {
    var r := SettleWhere(w, keys, h, custody, mail, sel);
    if keys == [] {
      assert r.mail[|mail|..] == [];
    } else {
      var k := keys[0];
      assert Increasing(keys[1..]);
      if k in h && sel(h[k]) {
        var d := SettleEntry(w, custody, h[k]);
        var mail' := mail + d.events;
        SettledFirst(w, keys, h, custody, mail, sel);
        SettleWherePays(w, keys[1..], h - {k}, RemoveItem(d.custody, h[k].item).custody, mail', sel);
        PaidAppend(d.events, r.mail[|mail'|..]);
        assert k !in keys[1..] by {
          forall i | 0 <= i < |keys[1..]| ensures keys[1..][i] != k {
            assert keys[1..][i] == keys[i + 1];
          }
        }
        PassPayWithout(w, keys[1..], h, sel, k);
      } else {
        SettleWherePays(w, keys[1..], h, custody, mail, sel);
      }
    }
  }

  /** When every key of the house is visited, exactly the selected listings
      are settled. */
  lemma SelectedAll(h: House, sel: Entry -> bool)
    ensures Selected(SortedKeys(h.Keys), h, sel) == set k | k in h && sel(h[k])
  {
  }

  /** The sweep's selector: expiry strictly before `now`. */
  function ExpiredAt(now: nat): Entry -> bool {
    (e: Entry) => now > e.expireTime
  }

  /** The owner removal's selector. */
  function OwnedBy(owner: Player): Entry -> bool {
    (e: Entry) => e.owner == owner
  }

  /** The listings of a house expired at `now`: expiry strictly before it. */
  function ExpiredKeys(h: House, now: nat): set<nat> {
    set k | k in h && now > h[k].expireTime
  }

  /** The listings of a house put up by `owner`. */
  function KeysOf(h: House, owner: Player): set<nat> {
    set k | k in h && h[k].owner == owner
  }

  lemma SweepSelects(h: House, now: nat)
    ensures Selected(SortedKeys(h.Keys), h, ExpiredAt(now)) == ExpiredKeys(h, now)
  {
    SelectedAll(h, ExpiredAt(now));
  }

  lemma RemoveSelects(h: House, owner: Player)
    ensures Selected(SortedKeys(h.Keys), h, OwnedBy(owner)) == KeysOf(h, owner)
  {
    SelectedAll(h, OwnedBy(owner));
  }

  /** Expiry sweep (AuctionHouseObject::Update): every listing whose expiry
      time lies strictly before `now` is settled and removed with its item;
      every other listing stays as it was; mail is only appended. */
  function Sweep(w: World, h: House, custody: set<ItemGuid>, mail: seq<Event>, now: nat): (r: Settled)
    ensures r.house == h - ExpiredKeys(h, now)
    ensures r.custody == custody - ItemsOf(h, ExpiredKeys(h, now))
    ensures |mail| <= |r.mail| && r.mail[..|mail|] == mail
  {
    SweepSelects(h, now);
    SettleWhere(w, SortedKeys(h.Keys), h, custody, mail, ExpiredAt(now))
  }

  /** The sweep returns each expired listing without a bid to its seller,
      and pays the seller and delivers the item to the winner of each one
      with a bid; it mails or destroys only items of expired listings. */
  lemma SweepMail(w: World, h: House, custody: set<ItemGuid>, mail: seq<Event>, now: nat)
    requires Injective(h)
    ensures var r := Sweep(w, h, custody, mail, now);
      && (forall k | k in ExpiredKeys(h, now) :: Notified(w, custody, h[k], r.mail))
      && (forall g | g in Carried(r.mail[|mail|..]) :: g in ItemsOf(h, ExpiredKeys(h, now)))
      && Paid(r.mail[|mail|..]) == PassPay(w, SortedKeys(h.Keys), h, ExpiredAt(now))
  {
    SweepSelects(h, now);
    SettleWhereMail(w, SortedKeys(h.Keys), h, custody, mail, ExpiredAt(now));
  }

  /** Removal of one seller's listings (AuctionHouseObject::RemoveAllAuctionsOf):
      each is settled as the sweep settles it; other sellers' listings stay. */
  function RemoveAllOf(w: World, h: House, custody: set<ItemGuid>, mail: seq<Event>, owner: Player): (r: Settled)
    ensures r.house == h - KeysOf(h, owner)
    ensures r.custody == custody - ItemsOf(h, KeysOf(h, owner))
    ensures |mail| <= |r.mail| && r.mail[..|mail|] == mail
  {
    RemoveSelects(h, owner);
    SettleWhere(w, SortedKeys(h.Keys), h, custody, mail, OwnedBy(owner))
  }

  /** Removing a seller's listings settles each of them as the sweep does,
      and mails or destroys only items of their listings. */
  lemma RemoveAllOfMail(w: World, h: House, custody: set<ItemGuid>, mail: seq<Event>, owner: Player)
    requires Injective(h)
    ensures var r := RemoveAllOf(w, h, custody, mail, owner);
      && (forall k | k in KeysOf(h, owner) :: Notified(w, custody, h[k], r.mail))
      && (forall g | g in Carried(r.mail[|mail|..]) :: g in ItemsOf(h, KeysOf(h, owner)))
      && Paid(r.mail[|mail|..]) == PassPay(w, SortedKeys(h.Keys), h, OwnedBy(owner))
  {
    RemoveSelects(h, owner);
    SettleWhereMail(w, SortedKeys(h.Keys), h, custody, mail, OwnedBy(owner));
  }

  /** A pass that selects nothing changes nothing. */
  lemma {:induction false} SettleNothing(w: World, keys: seq<nat>, h: House, custody: set<ItemGuid>,
                                         mail: seq<Event>, sel: Entry -> bool)
    requires forall k | k in h :: !sel(h[k])
    ensures SettleWhere(w, keys, h, custody, mail, sel) == Settled(h, custody, mail)
    decreases |keys|
  {
    if keys != [] {
      SettleNothing(w, keys[1..], h, custody, mail, sel);
    }
  }

  /** Sweeping twice at the same time settles nothing the second time. */
  lemma SweepIdempotent(w: World, h: House, custody: set<ItemGuid>, mail: seq<Event>, now: nat)
    ensures var r := Sweep(w, h, custody, mail, now);
            Sweep(w, r.house, r.custody, r.mail, now) == r
  {
    var r := Sweep(w, h, custody, mail, now);
    SettleNothing(w, SortedKeys(r.house.Keys), r.house, r.custody, r.mail, ExpiredAt(now));
  }

  /** Removing a seller's listings twice removes nothing the second time. */
  lemma RemoveAllOfIdempotent(w: World, h: House, custody: set<ItemGuid>, mail: seq<Event>, owner: Player)
    ensures var r := RemoveAllOf(w, h, custody, mail, owner);
            RemoveAllOf(w, r.house, r.custody, r.mail, owner) == r
  {
    var r := RemoveAllOf(w, h, custody, mail, owner);
    SettleNothing(w, SortedKeys(r.house.Keys), r.house, r.custody, r.mail, OwnedBy(owner));
  }

  // ---------------------------------------------------------------------
  // Per-seller count

  /** The listings of a seller among the keys `ks`. */
  function OwnedAmong(ks: seq<nat>, h: House, p: Player): set<nat> {
    set k | k in ks && k in h && h[k].owner == p
  }

  /** The number of listings a seller has in the house. */
  function CountOwned(h: House, p: Player): nat {
    |KeysOf(h, p)|
  }

  lemma OwnedAmongStep(keys: seq<nat>, i: nat, h: House, p: Player)
    requires Increasing(keys) && i < |keys|
    ensures keys[i] !in OwnedAmong(keys[..i], h, p)
    ensures OwnedAmong(keys[..i + 1], h, p) ==
      OwnedAmong(keys[..i], h, p) + (if keys[i] in h && h[keys[i]].owner == p then {keys[i]} else {})
  {
    assert keys[..i + 1] == keys[..i] + [keys[i]];
  }

  /** The listing count of one seller (AuctionHouseObject::GetAuctionsCount),
      walking the house in key order. */
  method AuctionsCount(h: House, p: Player) returns (n: nat)
    ensures n == CountOwned(h, p)
  {
    var keys := SortedKeys(h.Keys);
    n := 0;
    var i := 0;
    while i < |keys|
      invariant 0 <= i <= |keys|
      invariant n == |OwnedAmong(keys[..i], h, p)|
    {
      var k := keys[i];
      assert k in h;
      OwnedAmongStep(keys, i, h, p);
      if h[k].owner == p {
        n := n + 1;
      }
      i := i + 1;
    }
    assert keys[..i] == keys;
    assert OwnedAmong(keys, h, p) == KeysOf(h, p);
  }

  // ---------------------------------------------------------------------
  // Paginated search

  /** A listing a search shows: its item is still in custody and it passes
      the client's filters (class, level, usability, name), which the model
      takes as the predicate `matches`. */
  predicate Shown(h: House, custody: set<ItemGuid>, matches: Entry -> bool, k: nat) {
    k in h && h[k].item in custody && matches(h[k])
  }

  /** The keys among the first `n` of `ks` a search shows, in order. */
  function Matching(ks: seq<nat>, n: nat, h: House, custody: set<ItemGuid>, matches: Entry -> bool): (r: seq<nat>)
    requires n <= |ks|
    ensures |r| <= n
  {
    if n == 0 then []
    else Matching(ks, n - 1, h, custody, matches) + (if Shown(h, custody, matches, ks[n - 1]) then [ks[n - 1]] else [])
  }

  /** A search lists a key exactly when the key is among those searched and
      its listing is shown. */
  lemma {:induction false} MatchingShowsExactly(ks: seq<nat>, n: nat, h: House, custody: set<ItemGuid>, matches: Entry -> bool)
    requires n <= |ks|
    ensures forall k :: k in Matching(ks, n, h, custody, matches) <==> k in ks[..n] && Shown(h, custody, matches, k)
  {
    if n > 0 {
      MatchingShowsExactly(ks, n - 1, h, custody, matches);
      assert ks[..n] == ks[..n - 1] + [ks[n - 1]];
    }
  }

  function Min(a: nat, b: nat): nat { if a <= b then a else b }

  /** The part of the shown listings `all` one page carries: from position
      `listfrom` on, at most PAGE_SIZE of them. */
  function Window(all: seq<nat>, listfrom: nat): (page: seq<nat>)
    ensures |page| <= PAGE_SIZE
    ensures listfrom >= |all| ==> page == []
  {
    all[Min(listfrom, |all|)..Min(listfrom + PAGE_SIZE, |all|)]
  }

  /** One step of the search over `ks[n]`: a shown listing is counted, and
      joins the page exactly when the page is not full and the shown
      listings before it reach `listfrom`. */
  lemma ListStep(ks: seq<nat>, n: nat, h: House, custody: set<ItemGuid>, matches: Entry -> bool, listfrom: nat)
    requires n < |ks|
    ensures var all, all' := Matching(ks, n, h, custody, matches), Matching(ks, n + 1, h, custody, matches);
      && (!Shown(h, custody, matches, ks[n]) ==> all' == all)
      && (Shown(h, custody, matches, ks[n]) ==> |all'| == |all| + 1)
      && (Shown(h, custody, matches, ks[n]) && |Window(all, listfrom)| < PAGE_SIZE && |all| >= listfrom ==>
            Window(all', listfrom) == Window(all, listfrom) + [ks[n]])
      && (Shown(h, custody, matches, ks[n]) && !(|Window(all, listfrom)| < PAGE_SIZE && |all| >= listfrom) ==>
            Window(all', listfrom) == Window(all, listfrom))
  {
  }

  /** Search (AuctionHouseObject::BuildListAuctionItems), pagination only:
      `total` counts every shown listing, and the page holds the shown
      listings from position `listfrom` on, at most PAGE_SIZE of them. */
  method BuildListAuctionItems(h: House, custody: set<ItemGuid>, matches: Entry -> bool, listfrom: nat)
    returns (page: seq<nat>, total: nat)
    ensures var keys := SortedKeys(h.Keys);
      var all := Matching(keys, |keys|, h, custody, matches);
      && total == |all|
      && page == Window(all, listfrom)
  {
    page, total := Paginate(SortedKeys(h.Keys), h, custody, matches, listfrom);
  }

  /** The search loop over the house's keys in order. */
  method Paginate(keys: seq<nat>, h: House, custody: set<ItemGuid>, matches: Entry -> bool, listfrom: nat)
    returns (page: seq<nat>, total: nat)
    ensures total == |Matching(keys, |keys|, h, custody, matches)|
    ensures page == Window(Matching(keys, |keys|, h, custody, matches), listfrom)
  {
    page, total := [], 0;
    var count := 0;
    for i := 0 to |keys|
      invariant total == |Matching(keys, i, h, custody, matches)|
      invariant page == Window(Matching(keys, i, h, custody, matches), listfrom)
      invariant count == |page|
    {
      page, total, count := PageStep(keys, i, h, custody, matches, listfrom, page, total, count);
    }
  }

  /** One listing of the search: a shown listing is counted, and joins the
      page while the page has room and `listfrom` listings have been
      skipped. */
  method PageStep(keys: seq<nat>, i: nat, h: House, custody: set<ItemGuid>, matches: Entry -> bool,
                  listfrom: nat, page: seq<nat>, total: nat, count: nat)
    returns (page': seq<nat>, total': nat, count': nat)
    requires i < |keys|
    requires total == |Matching(keys, i, h, custody, matches)|
    requires page == Window(Matching(keys, i, h, custody, matches), listfrom)
    requires count == |page|
    ensures total' == |Matching(keys, i + 1, h, custody, matches)|
    ensures page' == Window(Matching(keys, i + 1, h, custody, matches), listfrom)
    ensures count' == |page'|
  {
    var k := keys[i];
    ListStep(keys, i, h, custody, matches, listfrom);
    page', total', count' := page, total, count;
    if Shown(h, custody, matches, k) {
      if count < PAGE_SIZE && total >= listfrom {
        count' := count + 1;
        page' := page + [k];
      }
      total' := total + 1;
    }
  }

}
