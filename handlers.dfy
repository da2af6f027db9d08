/** The live-event handlers of src/handlers.ts. Each one looks the NFT up with
    `fetchNft` (which may insert a baseline record), then updates that record,
    and the sale handlers then insert one activity row. Every step is a
    separate store write: a step that throws leaves the earlier ones in place.
    `asset` is what the asset resolver would answer for the NFT and `tracked`
    is the list of tracked collection addresses, as for `Utils.FetchNft`. */
module Handlers {
  import opened Types
  import opened Utils
  import opened Db

  datatype HandlerOutcome =
    | Applied          // every write of the handler was made
    | LookupFailed     // `fetchNft` threw: the asset could not be resolved
    | UpdateFailed     // the NFT update threw
    | ActivityFailed   // the activity insert threw: the txid is taken

  /** The arguments the offer handlers read from their payload. */
  datatype OfferEvent = OfferEvent(user: string, offer: string, nft: string)

  /** The arguments `onAcceptOffer` reads from its payload. */
  datatype AcceptEvent = AcceptEvent(sender: string, offer: string, nft: string, to: string, amountSol: int, txId: string)

  /** The fixed values `onMakeOffer` writes into every offer it creates. */
  const PlaceholderOfferAddress := "offer-address"
  const PlaceholderOfferMint := "nft-mint-address"
  const PlaceholderBid := 100

  /** The offer `onMakeOffer` creates for `bidder`; `expiry` is the time one day ahead. */
  function PlaceholderOffer(bidder: string, expiry: string): Offer {
    Offer(PlaceholderOfferAddress, PlaceholderOfferMint, PlaceholderBid, bidder, expiry)
  }

  /** No record other than the one at `address` was added, removed or changed. */
  ghost predicate Elsewhere(before: map<string, NftRecord>, after: map<string, NftRecord>, address: string) {
    forall a :: a != address ==> (a in after <==> a in before) && (a in before ==> after[a] == before[a])
  }

  /** `fetchNft` hands the handler a record to update: a stored one, or one it
      can create because the asset resolves and is not in a foreign collection. */
  predicate Resolvable(nfts: map<string, NftRecord>, address: string, asset: Option<AssetInfo>, tracked: seq<string>) {
    address in nfts || (asset.Some? && !ForeignCollection(asset.value, tracked))
  }

  /** The outcome when `fetchNft` yields no record: it threw, or it returned
      an empty object whose missing address makes the update throw. */
  function Miss(f: Fetched): HandlerOutcome {
    if f.result.AssetUnavailable? then LookupFailed else UpdateFailed
  }

  /** Some offer of the record uses this address. */
  predicate HasOffer(n: NftRecord, address: string) {
    exists o :: o in n.offers && o.address == address
  }

  /** The offers without the one(s) using `address`, in their order. */
  function Without(os: seq<Offer>, address: string): seq<Offer>
    decreases |os|
  {
    if os == [] then []
    else Without(os[..|os| - 1], address) + (if os[|os| - 1].address == address then [] else [os[|os| - 1]])
  }

  /** `Without` keeps exactly the offers at other addresses. */
  lemma {:induction false} WithoutMembers(os: seq<Offer>, address: string)
    ensures forall o :: o in Without(os, address) <==> o in os && o.address != address
    decreases |os|
  {
    if os != [] {
      var init, last := os[..|os| - 1], os[|os| - 1];
      WithoutMembers(init, address);
      assert os == init + [last];
    }
  }

  // ---------------------------------------------------------------------------
  // onList / onDelist

  /** `fetchNft(address, owner, listed)` followed by the update that sets
      `price`, `listed` and `owner`: `onList` passes its seller, `true` and the
      gross amount, `onDelist` its seller, `false` and no price. */
  function SetListing(nfts: map<string, NftRecord>, address: string, owner: string, listed: bool, price: Option<int>,
                      asset: Option<AssetInfo>, tracked: seq<string>): (r: (HandlerOutcome, map<string, NftRecord>))
    ensures r.0.LookupFailed? <==> address !in nfts && asset.None?
    ensures r.0.Applied? <==> Resolvable(nfts, address, asset, tracked)
    ensures !r.0.ActivityFailed?
    ensures !r.0.Applied? ==> r.1 == nfts
    ensures r.0.Applied? ==>
      && address in r.1
      && r.1[address].price == price && r.1[address].listed == listed && r.1[address].owner == owner
      && var n := FetchNft(nfts, address, owner, listed, asset, tracked).result.nft;
         && (address in nfts ==> n == nfts[address])
         && r.1[address].(price := n.price, listed := n.listed, owner := n.owner) == n
    ensures Elsewhere(nfts, r.1, address)
  {
    var f := FetchNft(nfts, address, owner, listed, asset, tracked);
    if !(f.result.Existing? || f.result.Inserted?) then (Miss(f), f.nfts)
    else (Applied, f.nfts[address := f.result.nft.(price := price, listed := listed, owner := owner)])
  }

  /** The later of two listing changes to the same NFT decides its price,
      flag and owner: the earlier leaves no trace (a delist undoes a list, a
      repeated list changes nothing). */
  lemma SetListingOverrides(nfts: map<string, NftRecord>, address: string,
                            owner: string, listed: bool, price: Option<int>,
                            owner': string, listed': bool, price': Option<int>,
                            asset: Option<AssetInfo>, asset': Option<AssetInfo>, tracked: seq<string>)
    requires SetListing(nfts, address, owner, listed, price, asset, tracked).0.Applied?
    ensures SetListing(SetListing(nfts, address, owner, listed, price, asset, tracked).1, address, owner', listed', price', asset', tracked)
         == SetListing(nfts, address, owner', listed', price', asset, tracked)
  {
    if address in nfts {
      ListingOverridesStored(nfts, address, owner, listed, price, owner', listed', price', asset, asset', tracked);
    } else {
      ListingOverridesCreated(nfts, address, owner, listed, price, owner', listed', price', asset, asset', tracked);
    }
  }

  lemma ListingOverridesStored(nfts: map<string, NftRecord>, address: string,
                               owner: string, listed: bool, price: Option<int>,
                               owner': string, listed': bool, price': Option<int>,
                               asset: Option<AssetInfo>, asset': Option<AssetInfo>, tracked: seq<string>)
    requires address in nfts
    ensures SetListing(SetListing(nfts, address, owner, listed, price, asset, tracked).1, address, owner', listed', price', asset', tracked)
         == SetListing(nfts, address, owner', listed', price', asset, tracked)
  {
    var m := nfts[address];
    var first := nfts[address := m.(price := price, listed := listed, owner := owner)];
    StoredListing(nfts, address, owner, listed, price, asset, tracked);
    StoredListing(first, address, owner', listed', price', asset', tracked);
    StoredListing(nfts, address, owner', listed', price', asset, tracked);
    assert first[address := first[address].(price := price', listed := listed', owner := owner')] ==
           nfts[address := m.(price := price', listed := listed', owner := owner')];
  }

  lemma ListingOverridesCreated(nfts: map<string, NftRecord>, address: string,
                                owner: string, listed: bool, price: Option<int>,
                                owner': string, listed': bool, price': Option<int>,
                                asset: Option<AssetInfo>, asset': Option<AssetInfo>, tracked: seq<string>)
    requires address !in nfts && asset.Some? && !ForeignCollection(asset.value, tracked)
    ensures SetListing(SetListing(nfts, address, owner, listed, price, asset, tracked).1, address, owner', listed', price', asset', tracked)
         == SetListing(nfts, address, owner', listed', price', asset, tracked)
  {
    var a := asset.value;
    var m := NftRecord(address, a.name, a.image, owner, price, listed, 0, false, a.properties, a.attributes, []);
    var n := NftRecord(address, a.name, a.image, owner', price', listed', 0, false, a.properties, a.attributes, []);
    var first := nfts[address := m];
    CreatedListing(nfts, address, owner, listed, price, asset, tracked);
    CreatedListing(nfts, address, owner', listed', price', asset, tracked);
    StoredListing(first, address, owner', listed', price', asset', tracked);
    assert first[address := first[address].(price := price', listed := listed', owner := owner')] == nfts[address := n];
  }

  /** A listing change of a stored record rewrites its three fields. */
  lemma StoredListing(nfts: map<string, NftRecord>, address: string, owner: string, listed: bool, price: Option<int>,
                      asset: Option<AssetInfo>, tracked: seq<string>)
    requires address in nfts
    ensures SetListing(nfts, address, owner, listed, price, asset, tracked) ==
      (Applied, nfts[address := nfts[address].(price := price, listed := listed, owner := owner)])
  {
    assert FetchNft(nfts, address, owner, listed, asset, tracked) == Fetched(Existing(nfts[address]), nfts);
  }

  /** A listing change of an unknown NFT stores its baseline record with the
      three fields already set. */
  lemma CreatedListing(nfts: map<string, NftRecord>, address: string, owner: string, listed: bool, price: Option<int>,
                       asset: Option<AssetInfo>, tracked: seq<string>)
    requires address !in nfts && asset.Some? && !ForeignCollection(asset.value, tracked)
    ensures var a := asset.value;
      SetListing(nfts, address, owner, listed, price, asset, tracked) ==
        (Applied, nfts[address := NftRecord(address, a.name, a.image, owner, price, listed, 0, false, a.properties, a.attributes, [])])
  {
    var a := asset.value;
    var base := NftRecord(address, a.name, a.image, owner, None, listed, 0, false, a.properties, a.attributes, []);
    assert FetchNft(nfts, address, owner, listed, asset, tracked) == Fetched(Inserted(base), nfts[address := base]);
    assert nfts[address := base][address := base.(price := price, listed := listed, owner := owner)] ==
           nfts[address := base.(price := price)];
  }

  /** `onList(tx)`. */
  method OnList(store: Store, tx: Tx, asset: Option<AssetInfo>, tracked: seq<string>) returns (outcome: HandlerOutcome)
    modifies store
    ensures (outcome, store.nfts) ==
      SetListing(old(store.nfts), tx.mintOnchainId, tx.sellerId, true, Some(tx.grossAmount.GetOr(0)), asset, tracked)
    ensures store.activity == old(store.activity) && store.users == old(store.users)
    ensures store.collections == old(store.collections) && store.memory == old(store.memory)
  {
    outcome := ApplyListing(store, tx.mintOnchainId, tx.sellerId, true, Some(tx.grossAmount.GetOr(0)), asset, tracked);
  }

  /** `onDelist(tx)`. */
  method OnDelist(store: Store, tx: Tx, asset: Option<AssetInfo>, tracked: seq<string>) returns (outcome: HandlerOutcome)
    modifies store
    ensures (outcome, store.nfts) == SetListing(old(store.nfts), tx.mintOnchainId, tx.sellerId, false, None, asset, tracked)
    ensures store.activity == old(store.activity) && store.users == old(store.users)
    ensures store.collections == old(store.collections) && store.memory == old(store.memory)
  {
    outcome := ApplyListing(store, tx.mintOnchainId, tx.sellerId, false, None, asset, tracked);
  }

  /** The lookup and the listing update, as two writes to the store. */
  method ApplyListing(store: Store, address: string, owner: string, listed: bool, price: Option<int>,
                      asset: Option<AssetInfo>, tracked: seq<string>) returns (outcome: HandlerOutcome)
    modifies store
    ensures (outcome, store.nfts) == SetListing(old(store.nfts), address, owner, listed, price, asset, tracked)
    ensures store.activity == old(store.activity) && store.users == old(store.users)
    ensures store.collections == old(store.collections) && store.memory == old(store.memory)
  {
    var f := FetchNft(store.nfts, address, owner, listed, asset, tracked);
    store.nfts := f.nfts;
    if !(f.result.Existing? || f.result.Inserted?) {
      return Miss(f);
    }
    var n := f.result.nft;
    store.nfts := store.nfts[address := n.(price := price, listed := listed, owner := owner)];
    outcome := Applied;
  }

  // ---------------------------------------------------------------------------
  // onBuy / onAcceptOffer

  /** `fetchNft(address, lookupOwner, false)`, then the update that unlists the
      NFT, hands it to `newOwner` (`None` is a null owner, which the update
      refuses), sets `lastSale` when one is given and deletes every offer, then
      the insert of the activity row `row`. */
  function Sale(nfts: map<string, NftRecord>, activity: map<string, Activity>, address: string,
                lookupOwner: string, newOwner: Option<string>, lastSale: Option<int>, row: Activity,
                asset: Option<AssetInfo>, tracked: seq<string>): (r: (HandlerOutcome, map<string, NftRecord>, map<string, Activity>))
    ensures r.0.LookupFailed? <==> address !in nfts && asset.None?
    ensures r.0.UpdateFailed? <==>
      (!Resolvable(nfts, address, asset, tracked) && asset.Some?) ||
      (Resolvable(nfts, address, asset, tracked) && newOwner.None?)
    ensures r.0.ActivityFailed? <==> Resolvable(nfts, address, asset, tracked) && newOwner.Some? && row.txid in activity
    ensures r.0.LookupFailed? || r.0.UpdateFailed? ==>
      r.1 == FetchNft(nfts, address, lookupOwner, false, asset, tracked).nfts && r.2 == activity
    ensures r.0.Applied? || r.0.ActivityFailed? ==>
      && address in r.1
      && var n := FetchNft(nfts, address, lookupOwner, false, asset, tracked).result.nft;
         && (address in nfts ==> n == nfts[address])
         && !r.1[address].listed && r.1[address].price.None? && r.1[address].offers == []
         && r.1[address].owner == newOwner.value && r.1[address].lastSale == lastSale.GetOr(n.lastSale)
         && r.1[address].(listed := n.listed, price := n.price, offers := n.offers, owner := n.owner, lastSale := n.lastSale) == n
    ensures r.0.ActivityFailed? ==> r.2 == activity
    ensures r.0.Applied? ==> r.2 == activity[row.txid := row] && row.txid !in activity
    ensures Elsewhere(nfts, r.1, address)
  {
    var f := FetchNft(nfts, address, lookupOwner, false, asset, tracked);
    if !(f.result.Existing? || f.result.Inserted?) then (Miss(f), f.nfts, activity)
    else if newOwner.None? then (UpdateFailed, f.nfts, activity)
    else
      var n := f.result.nft;
      var sold := n.(listed := false, price := None, lastSale := lastSale.GetOr(n.lastSale),
                     owner := newOwner.value, offers := []);
      if row.txid in activity then (ActivityFailed, f.nfts[address := sold], activity)
      else (Applied, f.nfts[address := sold], activity[row.txid := row])
  }

  /** The activity row `onBuy` inserts. */
  function BuyRow(tx: Tx): Activity {
    Activity(tx.txId, tx.sellerId, tx.buyerId, Some(tx.grossAmount.GetOr(0)), Buy, tx.mintOnchainId)
  }

  /** The activity row `onAcceptOffer` inserts. */
  function AcceptRow(ev: AcceptEvent): Activity {
    Activity(ev.txId, ev.sender, Some(ev.to), Some(ev.amountSol), AcceptBid, ev.nft)
  }

  /** Replaying a sale that went through repeats its NFT update, which changes
      nothing, and is then refused at the activity insert. */
  lemma SaleReplayRefused(nfts: map<string, NftRecord>, activity: map<string, Activity>, address: string,
                          lookupOwner: string, newOwner: Option<string>, lastSale: Option<int>, row: Activity,
                          asset: Option<AssetInfo>, asset': Option<AssetInfo>, tracked: seq<string>)
    requires Sale(nfts, activity, address, lookupOwner, newOwner, lastSale, row, asset, tracked).0.Applied?
    ensures var r := Sale(nfts, activity, address, lookupOwner, newOwner, lastSale, row, asset, tracked);
      Sale(r.1, r.2, address, lookupOwner, newOwner, lastSale, row, asset', tracked) == (ActivityFailed, r.1, r.2)
  {
    var r := Sale(nfts, activity, address, lookupOwner, newOwner, lastSale, row, asset, tracked);
    assert address in r.1 && row.txid in r.2;
    var n := r.1[address];
    assert n.lastSale == lastSale.GetOr(n.lastSale);
    var sold := n.(listed := false, price := None, lastSale := lastSale.GetOr(n.lastSale),
                   owner := newOwner.value, offers := []);
    assert sold == n;
    assert FetchNft(r.1, address, lookupOwner, false, asset', tracked) == Fetched(Existing(n), r.1);
    assert r.1[address := sold] == r.1;
  }

  /** A sale whose txid is already recorded still leaves the NFT sold. */
  lemma SaleNotAtomic(nfts: map<string, NftRecord>, activity: map<string, Activity>, address: string,
                      lookupOwner: string, newOwner: string, lastSale: Option<int>, row: Activity,
                      asset: Option<AssetInfo>, tracked: seq<string>)
    requires Resolvable(nfts, address, asset, tracked) && row.txid in activity
    ensures var r := Sale(nfts, activity, address, lookupOwner, Some(newOwner), lastSale, row, asset, tracked);
      r.0 == ActivityFailed && r.2 == activity && address in r.1 && r.1[address].owner == newOwner && r.1[address].offers == []
  {
  }

  /** `onBuy(tx)`: the buyer (or `""` when there is none) is the owner a
      created record starts with; the gross amount becomes `lastSale`. */
  method OnBuy(store: Store, tx: Tx, asset: Option<AssetInfo>, tracked: seq<string>) returns (outcome: HandlerOutcome)
    modifies store
    ensures (outcome, store.nfts, store.activity) ==
      Sale(old(store.nfts), old(store.activity), tx.mintOnchainId, tx.buyerId.GetOr(""), tx.buyerId,
           Some(tx.grossAmount.GetOr(0)), BuyRow(tx), asset, tracked)
    ensures store.users == old(store.users)
    ensures store.collections == old(store.collections) && store.memory == old(store.memory)
  {
    outcome := ApplySale(store, tx.mintOnchainId, tx.buyerId.GetOr(""), tx.buyerId,
                         Some(tx.grossAmount.GetOr(0)), BuyRow(tx), asset, tracked);
  }

  /** `onAcceptOffer(ev)`: the lookup creates records with an empty owner, and
      `lastSale` is left as it was. */
  method OnAcceptOffer(store: Store, ev: AcceptEvent, asset: Option<AssetInfo>, tracked: seq<string>) returns (outcome: HandlerOutcome)
    modifies store
    ensures (outcome, store.nfts, store.activity) ==
      Sale(old(store.nfts), old(store.activity), ev.nft, "", Some(ev.to), None, AcceptRow(ev), asset, tracked)
    ensures store.users == old(store.users)
    ensures store.collections == old(store.collections) && store.memory == old(store.memory)
  {
    outcome := ApplySale(store, ev.nft, "", Some(ev.to), None, AcceptRow(ev), asset, tracked);
  }

  /** The lookup, the NFT update and the activity insert, as three writes. */
  method ApplySale(store: Store, address: string, lookupOwner: string, newOwner: Option<string>, lastSale: Option<int>,
                   row: Activity, asset: Option<AssetInfo>, tracked: seq<string>) returns (outcome: HandlerOutcome)
    modifies store
    ensures (outcome, store.nfts, store.activity) ==
      Sale(old(store.nfts), old(store.activity), address, lookupOwner, newOwner, lastSale, row, asset, tracked)
    ensures store.users == old(store.users)
    ensures store.collections == old(store.collections) && store.memory == old(store.memory)
  {
    var f := FetchNft(store.nfts, address, lookupOwner, false, asset, tracked);
    store.nfts := f.nfts;
    if !(f.result.Existing? || f.result.Inserted?) {
      return Miss(f);
    }
    if newOwner.None? {
      return UpdateFailed;
    }
    var n := f.result.nft;
    store.nfts := store.nfts[address := n.(listed := false, price := None, lastSale := lastSale.GetOr(n.lastSale),
                                           owner := newOwner.value, offers := [])];
    if row.txid in store.activity {
      return ActivityFailed;
    }
    store.activity := store.activity[row.txid := row];
    outcome := Applied;
  }

  // ---------------------------------------------------------------------------
  // onMakeOffer

  /** `fetchNft(ev.nft, "", true)`, then the nested create of the placeholder
      offer, which the offer table refuses once that address is in use. */
  function MakeOffer(nfts: map<string, NftRecord>, ev: OfferEvent, expiry: string,
                     asset: Option<AssetInfo>, tracked: seq<string>): (r: (HandlerOutcome, map<string, NftRecord>))
    ensures r.0.LookupFailed? <==> ev.nft !in nfts && asset.None?
    ensures r.0.Applied? <==>
      Resolvable(nfts, ev.nft, asset, tracked) && !OfferAddressInUse(nfts, PlaceholderOfferAddress)
    ensures !r.0.ActivityFailed?
    ensures !r.0.Applied? ==> r.1 == FetchNft(nfts, ev.nft, "", true, asset, tracked).nfts
    ensures r.0.Applied? ==>
      && ev.nft in r.1
      && var n := FetchNft(nfts, ev.nft, "", true, asset, tracked).result.nft;
         && (ev.nft in nfts ==> n == nfts[ev.nft])
         && r.1[ev.nft].offers == n.offers + [PlaceholderOffer(ev.user, expiry)]
         && r.1[ev.nft].(offers := n.offers) == n
    ensures Elsewhere(nfts, r.1, ev.nft)
  {
    var f := FetchNft(nfts, ev.nft, "", true, asset, tracked);
    if !(f.result.Existing? || f.result.Inserted?) then (Miss(f), f.nfts)
    else
      LookupKeepsOfferAddresses(nfts, ev.nft, "", true, asset, tracked, PlaceholderOfferAddress);
      if OfferAddressInUse(f.nfts, PlaceholderOfferAddress) then (UpdateFailed, f.nfts)
      else
        var n := f.result.nft;
        (Applied, f.nfts[ev.nft := n.(offers := n.offers + [PlaceholderOffer(ev.user, expiry)])])
  }

  /** The lookup adds no offer: a record it creates has none. */
  lemma LookupKeepsOfferAddresses(nfts: map<string, NftRecord>, address: string, owner: string, listed: bool,
                                  asset: Option<AssetInfo>, tracked: seq<string>, offer: string)
    ensures OfferAddressInUse(FetchNft(nfts, address, owner, listed, asset, tracked).nfts, offer) ==
            OfferAddressInUse(nfts, offer)
  {
    var f := FetchNft(nfts, address, owner, listed, asset, tracked);
    if f.result.Inserted? {
      if OfferAddressInUse(f.nfts, offer) {
        var a :| a in f.nfts && exists o :: o in f.nfts[a].offers && o.address == offer;
        assert a != address;
        assert a in nfts && f.nfts[a] == nfts[a];
      }
      if OfferAddressInUse(nfts, offer) {
        var a :| a in nfts && exists o :: o in nfts[a].offers && o.address == offer;
        assert a in f.nfts && f.nfts[a] == nfts[a];
      }
    }
  }

  /** Every offer `onMakeOffer` creates has the same address, so once one
      exists every later offer is refused. */
  lemma SecondOfferRefused(nfts: map<string, NftRecord>, ev: OfferEvent, expiry: string, asset: Option<AssetInfo>,
                           ev': OfferEvent, expiry': string, asset': Option<AssetInfo>, tracked: seq<string>)
    requires MakeOffer(nfts, ev, expiry, asset, tracked).0.Applied?
    ensures var r := MakeOffer(nfts, ev, expiry, asset, tracked);
      Resolvable(r.1, ev'.nft, asset', tracked) ==> MakeOffer(r.1, ev', expiry', asset', tracked).0 == UpdateFailed
  {
    var r := MakeOffer(nfts, ev, expiry, asset, tracked);
    var o := PlaceholderOffer(ev.user, expiry);
    assert o in r.1[ev.nft].offers;
    assert OfferAddressInUse(r.1, PlaceholderOfferAddress);
  }

  /** `onMakeOffer(ev)`. */
  method OnMakeOffer(store: Store, ev: OfferEvent, expiry: string, asset: Option<AssetInfo>, tracked: seq<string>)
    returns (outcome: HandlerOutcome)
    modifies store
    ensures (outcome, store.nfts) == MakeOffer(old(store.nfts), ev, expiry, asset, tracked)
    ensures store.activity == old(store.activity) && store.users == old(store.users)
    ensures store.collections == old(store.collections) && store.memory == old(store.memory)
  {
    var f := FetchNft(store.nfts, ev.nft, "", true, asset, tracked);
    store.nfts := f.nfts;
    if !(f.result.Existing? || f.result.Inserted?) {
      return Miss(f);
    }
    if OfferAddressInUse(store.nfts, PlaceholderOfferAddress) {
      return UpdateFailed;
    }
    var n := f.result.nft;
    store.nfts := store.nfts[ev.nft := n.(offers := n.offers + [PlaceholderOffer(ev.user, expiry)])];
    outcome := Applied;
  }

  // ---------------------------------------------------------------------------
  // onCancelOffer / onRejectOffer

  /** `fetchNft(ev.nft, lookupOwner, true)`, then the nested delete of the
      offer at `ev.offer`, which throws unless that offer belongs to the NFT.
      `onCancelOffer` looks up with `""`, `onRejectOffer` with its user. */
  function RemoveOffer(nfts: map<string, NftRecord>, lookupOwner: string, ev: OfferEvent,
                       asset: Option<AssetInfo>, tracked: seq<string>): (r: (HandlerOutcome, map<string, NftRecord>))
    ensures r.0.LookupFailed? <==> ev.nft !in nfts && asset.None?
    ensures r.0.Applied? <==> ev.nft in nfts && HasOffer(nfts[ev.nft], ev.offer)
    ensures !r.0.ActivityFailed?
    ensures !r.0.Applied? ==> r.1 == FetchNft(nfts, ev.nft, lookupOwner, true, asset, tracked).nfts
    ensures r.0.Applied? ==>
      && ev.nft in r.1
      && r.1[ev.nft].offers == Without(nfts[ev.nft].offers, ev.offer)
      && r.1[ev.nft].(offers := nfts[ev.nft].offers) == nfts[ev.nft]
    ensures Elsewhere(nfts, r.1, ev.nft)
  {
    var f := FetchNft(nfts, ev.nft, lookupOwner, true, asset, tracked);
    if !(f.result.Existing? || f.result.Inserted?) then (Miss(f), f.nfts)
    else
      var n := f.result.nft;
      if !HasOffer(n, ev.offer) then (UpdateFailed, f.nfts)
      else (Applied, f.nfts[ev.nft := n.(offers := Without(n.offers, ev.offer))])
  }

  /** With offer addresses unique, exactly the one offer at that address goes
      and the others keep their order. */
  lemma RemoveOfferRemovesOne(nfts: map<string, NftRecord>, lookupOwner: string, ev: OfferEvent,
                              asset: Option<AssetInfo>, tracked: seq<string>)
    requires OfferKeysUnique(nfts)
    requires RemoveOffer(nfts, lookupOwner, ev, asset, tracked).0.Applied?
    ensures var os := nfts[ev.nft].offers;
      exists i :: 0 <= i < |os| && os[i].address == ev.offer &&
        RemoveOffer(nfts, lookupOwner, ev, asset, tracked).1[ev.nft].offers == os[..i] + os[i + 1..]
  {
    var os := nfts[ev.nft].offers;
    var o :| o in os && o.address == ev.offer;
    var i :| 0 <= i < |os| && os[i] == o;
    OwnOffersDistinct(nfts, ev.nft);
    assert forall j :: 0 <= j < |os| && j != i ==> os[j].address != ev.offer by {
      assert forall j :: 0 <= j < i ==> os[j].address != os[i].address;
      assert forall j :: i < j < |os| ==> os[i].address != os[j].address;
    }
    WithoutSingle(os, ev.offer, i);
  }

  lemma {:induction false} WithoutSingle(os: seq<Offer>, address: string, i: nat)
    requires i < |os| && os[i].address == address
    requires forall j :: 0 <= j < |os| && j != i ==> os[j].address != address
    ensures Without(os, address) == os[..i] + os[i + 1..]
    decreases |os|
  {
    var init, last := os[..|os| - 1], os[|os| - 1];
    assert os == init + [last];
    if i == |os| - 1 {
      assert forall j :: 0 <= j < |init| ==> init[j].address != address;
      WithoutAbsent(init, address);
      assert Without(os, address) == Without(init, address);
      assert os[..i] + os[i + 1..] == init;
    } else {
      assert last.address != address;
      assert Without(os, address) == Without(init, address) + [last];
      assert forall j :: 0 <= j < |init| && j != i ==> init[j].address != address;
      WithoutSingle(init, address, i);
      assert os[..i] + os[i + 1..] == init[..i] + init[i + 1..] + [last];
    }
  }

  /** Without an offer at that address the offers stay as they are. */
  lemma {:induction false} WithoutAbsent(os: seq<Offer>, address: string)
    requires forall j :: 0 <= j < |os| ==> os[j].address != address
    ensures Without(os, address) == os
    decreases |os|
  {
    if os != [] {
      var init := os[..|os| - 1];
      WithoutAbsent(init, address);
      assert init + [os[|os| - 1]] == os;
    }
  }

  /** Once the offer is gone, removing it again is refused. */
  lemma SecondRemoveRefused(nfts: map<string, NftRecord>, lookupOwner: string, lookupOwner': string, ev: OfferEvent,
                            asset: Option<AssetInfo>, asset': Option<AssetInfo>, tracked: seq<string>)
    requires RemoveOffer(nfts, lookupOwner, ev, asset, tracked).0.Applied?
    ensures var r := RemoveOffer(nfts, lookupOwner, ev, asset, tracked);
      RemoveOffer(r.1, lookupOwner', ev, asset', tracked) == (UpdateFailed, r.1)
  {
    var r := RemoveOffer(nfts, lookupOwner, ev, asset, tracked);
    WithoutMembers(nfts[ev.nft].offers, ev.offer);
    assert !HasOffer(r.1[ev.nft], ev.offer);
  }

  /** Cancelling the offer `onMakeOffer` created leaves what the lookup alone
      would have left. */
  lemma CancelUndoesMakeOffer(nfts: map<string, NftRecord>, ev: OfferEvent, expiry: string,
                              asset: Option<AssetInfo>, asset': Option<AssetInfo>, tracked: seq<string>)
    requires MakeOffer(nfts, ev, expiry, asset, tracked).0.Applied?
    ensures var r := MakeOffer(nfts, ev, expiry, asset, tracked).1;
      RemoveOffer(r, "", ev.(offer := PlaceholderOfferAddress), asset', tracked) ==
        (Applied, FetchNft(nfts, ev.nft, "", true, asset, tracked).nfts)
  {
    var f := FetchNft(nfts, ev.nft, "", true, asset, tracked);
    var r := MakeOffer(nfts, ev, expiry, asset, tracked).1;
    var n := f.result.nft;
    var o := PlaceholderOffer(ev.user, expiry);
    var made := n.(offers := n.offers + [o]);
    assert r == f.nfts[ev.nft := made];
    assert ev.nft in f.nfts && f.nfts[ev.nft] == n;
    LookupKeepsOfferAddresses(nfts, ev.nft, "", true, asset, tracked, PlaceholderOfferAddress);
    NotInUseAbsent(f.nfts, ev.nft, PlaceholderOfferAddress);
    RemoveAddedOffer(f.nfts, ev.nft, n, o, "", ev.user, asset', tracked);
    assert ev.(offer := PlaceholderOfferAddress) == OfferEvent(ev.user, o.address, ev.nft);
    assert f.nfts[ev.nft := n] == f.nfts;
  }

  /** Removing an offer just appended to a record whose other offers use
      other addresses gives the record back. */
  lemma RemoveAddedOffer(g: map<string, NftRecord>, k: string, m: NftRecord, o: Offer, lookupOwner: string, user: string,
                         asset: Option<AssetInfo>, tracked: seq<string>)
    requires forall j :: 0 <= j < |m.offers| ==> m.offers[j].address != o.address
    ensures RemoveOffer(g[k := m.(offers := m.offers + [o])], lookupOwner, OfferEvent(user, o.address, k), asset, tracked) ==
      (Applied, g[k := m])
  {
    var made := m.(offers := m.offers + [o]);
    var g2 := g[k := made];
    assert Without(made.offers, o.address) == m.offers by {
      WithoutAbsent(m.offers, o.address);
      WithoutSnocMatching(m.offers, o, o.address);
    }
    assert HasOffer(made, o.address) by { assert o in made.offers; }
    assert FetchNft(g2, k, lookupOwner, true, asset, tracked) == Fetched(Existing(made), g2);
    assert made.(offers := m.offers) == m;
    assert g2[k := m] == g[k := m];
  }

  /** No stored offer of the record uses an address that is not in use. */
  lemma NotInUseAbsent(nfts: map<string, NftRecord>, address: string, offer: string)
    requires address in nfts && !OfferAddressInUse(nfts, offer)
    ensures forall j :: 0 <= j < |nfts[address].offers| ==> nfts[address].offers[j].address != offer
  {
    forall j | 0 <= j < |nfts[address].offers|
      ensures nfts[address].offers[j].address != offer
    {
      var o := nfts[address].offers[j];
      assert o in nfts[address].offers;
    }
  }

  lemma WithoutSnocMatching(os: seq<Offer>, o: Offer, address: string)
    requires o.address == address
    ensures Without(os + [o], address) == Without(os, address)
  {
    assert (os + [o])[..|os|] == os;
  }

  /** `onCancelOffer(ev)`. */
  method OnCancelOffer(store: Store, ev: OfferEvent, asset: Option<AssetInfo>, tracked: seq<string>)
    returns (outcome: HandlerOutcome)
    modifies store
    ensures (outcome, store.nfts) == RemoveOffer(old(store.nfts), "", ev, asset, tracked)
    ensures store.activity == old(store.activity) && store.users == old(store.users)
    ensures store.collections == old(store.collections) && store.memory == old(store.memory)
  {
    outcome := ApplyRemoveOffer(store, "", ev, asset, tracked);
  }

  /** `onRejectOffer(ev)`. */
  method OnRejectOffer(store: Store, ev: OfferEvent, asset: Option<AssetInfo>, tracked: seq<string>)
    returns (outcome: HandlerOutcome)
    modifies store
    ensures (outcome, store.nfts) == RemoveOffer(old(store.nfts), ev.user, ev, asset, tracked)
    ensures store.activity == old(store.activity) && store.users == old(store.users)
    ensures store.collections == old(store.collections) && store.memory == old(store.memory)
  {
    outcome := ApplyRemoveOffer(store, ev.user, ev, asset, tracked);
  }

  /** The lookup and the nested offer delete, as two writes. */
  method ApplyRemoveOffer(store: Store, lookupOwner: string, ev: OfferEvent, asset: Option<AssetInfo>, tracked: seq<string>)
    returns (outcome: HandlerOutcome)
    modifies store
    ensures (outcome, store.nfts) == RemoveOffer(old(store.nfts), lookupOwner, ev, asset, tracked)
    ensures store.activity == old(store.activity) && store.users == old(store.users)
    ensures store.collections == old(store.collections) && store.memory == old(store.memory)
  {
    var f := FetchNft(store.nfts, ev.nft, lookupOwner, true, asset, tracked);
    store.nfts := f.nfts;
    if !(f.result.Existing? || f.result.Inserted?) {
      return Miss(f);
    }
    var n := f.result.nft;
    if !HasOffer(n, ev.offer) {
      return UpdateFailed;
    }
    store.nfts := store.nfts[ev.nft := n.(offers := Without(n.offers, ev.offer))];
    outcome := Applied;
  }

  // ---------------------------------------------------------------------------
  // The offer table's key stays unique

  /** A change confined to one record whose new offers are old offers keeps
      the offer table's key unique. */
  lemma {:induction false} OfferKeysKept(before: map<string, NftRecord>, after: map<string, NftRecord>, address: string)
    requires OfferKeysUnique(before) && Elsewhere(before, after, address)
    requires address in after && address in before
    requires forall o :: o in after[address].offers ==> o in before[address].offers
    requires forall i, j :: 0 <= i < j < |after[address].offers| ==>
      after[address].offers[i].address != after[address].offers[j].address
    ensures OfferKeysUnique(after)
  {
    forall a, b, i, j |
      a in after && b in after && 0 <= i < |after[a].offers| && 0 <= j < |after[b].offers| &&
      after[a].offers[i].address == after[b].offers[j].address
      ensures a == b && i == j
    {
      var x, y := after[a].offers[i], after[b].offers[j];
      assert x in before[a].offers && y in before[b].offers;
      var i' :| 0 <= i' < |before[a].offers| && before[a].offers[i'] == x;
      var j' :| 0 <= j' < |before[b].offers| && before[b].offers[j'] == y;
      assert a == b;
    }
  }

  /** A record the lookup creates holds no offers, so the key stays unique. */
  lemma LookupKeepsOfferKeys(nfts: map<string, NftRecord>, address: string, owner: string, listed: bool,
                             asset: Option<AssetInfo>, tracked: seq<string>)
    requires OfferKeysUnique(nfts)
    ensures OfferKeysUnique(FetchNft(nfts, address, owner, listed, asset, tracked).nfts)
  {
    var f := FetchNft(nfts, address, owner, listed, asset, tracked).nfts;
    forall a, b, i, j |
      a in f && b in f && 0 <= i < |f[a].offers| && 0 <= j < |f[b].offers| &&
      f[a].offers[i].address == f[b].offers[j].address
      ensures a == b && i == j
    {
      assert a in nfts && f[a] == nfts[a];
      assert b in nfts && f[b] == nfts[b];
    }
  }

  /** Listing and delisting keep every offer address used at most once. */
  lemma ListingKeepsOfferKeys(nfts: map<string, NftRecord>, address: string, owner: string, listed: bool,
                              price: Option<int>, asset: Option<AssetInfo>, tracked: seq<string>)
    requires OfferKeysUnique(nfts)
    ensures OfferKeysUnique(SetListing(nfts, address, owner, listed, price, asset, tracked).1)
  {
    var f := FetchNft(nfts, address, owner, listed, asset, tracked);
    LookupKeepsOfferKeys(nfts, address, owner, listed, asset, tracked);
    var r := SetListing(nfts, address, owner, listed, price, asset, tracked);
    if r.0.Applied? {
      assert Elsewhere(f.nfts, r.1, address);
      assert r.1[address].offers == f.nfts[address].offers;
      OfferKeysKept(f.nfts, r.1, address);
    }
  }

  /** Both sales keep every offer address used at most once. */
  lemma SaleKeepsOfferKeys(nfts: map<string, NftRecord>, activity: map<string, Activity>, address: string,
                           lookupOwner: string, newOwner: Option<string>, lastSale: Option<int>, row: Activity,
                           asset: Option<AssetInfo>, tracked: seq<string>)
    requires OfferKeysUnique(nfts)
    ensures OfferKeysUnique(Sale(nfts, activity, address, lookupOwner, newOwner, lastSale, row, asset, tracked).1)
  {
    var f := FetchNft(nfts, address, lookupOwner, false, asset, tracked);
    LookupKeepsOfferKeys(nfts, address, lookupOwner, false, asset, tracked);
    var r := Sale(nfts, activity, address, lookupOwner, newOwner, lastSale, row, asset, tracked);
    if r.0.Applied? || r.0.ActivityFailed? {
      assert Elsewhere(f.nfts, r.1, address);
      OfferKeysKept(f.nfts, r.1, address);
    }
  }

  /** The offer creation keeps every offer address used at most once. */
  lemma MakeOfferKeepsOfferKeys(nfts: map<string, NftRecord>, ev: OfferEvent, expiry: string,
                                asset: Option<AssetInfo>, tracked: seq<string>)
    requires OfferKeysUnique(nfts)
    ensures OfferKeysUnique(MakeOffer(nfts, ev, expiry, asset, tracked).1)
  {
    var f := FetchNft(nfts, ev.nft, "", true, asset, tracked);
    LookupKeepsOfferKeys(nfts, ev.nft, "", true, asset, tracked);
    var r := MakeOffer(nfts, ev, expiry, asset, tracked);
    if r.0.Applied? {
      var os := f.nfts[ev.nft].offers;
      var o := PlaceholderOffer(ev.user, expiry);
      LookupKeepsOfferAddresses(nfts, ev.nft, "", true, asset, tracked, PlaceholderOfferAddress);
      NotInUseNowhere(f.nfts, PlaceholderOfferAddress);
      assert r.1 == f.nfts[ev.nft := f.nfts[ev.nft].(offers := os + [o])];
      AppendFreshOfferKeepsKeys(f.nfts, ev.nft, o);
    }
  }

  /** Appending an offer whose address no stored offer uses keeps offer keys unique. */
  lemma AppendFreshOfferKeepsKeys(g: map<string, NftRecord>, k: string, o: Offer)
    requires OfferKeysUnique(g) && k in g
    requires forall b, j :: b in g && 0 <= j < |g[b].offers| ==> g[b].offers[j].address != o.address
    ensures OfferKeysUnique(g[k := g[k].(offers := g[k].offers + [o])])
  {
    var os := g[k].offers;
    var h := g[k := g[k].(offers := os + [o])];
    assert forall b, j :: b in h && 0 <= j < |h[b].offers| && (b != k || j < |os|) ==>
      b in g && j < |g[b].offers| && h[b].offers[j] == g[b].offers[j];
    assert |h[k].offers| == |os| + 1 && h[k].offers[|os|] == o;
  }

  /** No stored offer uses an address that is not in use. */
  lemma NotInUseNowhere(nfts: map<string, NftRecord>, offer: string)
    requires !OfferAddressInUse(nfts, offer)
    ensures forall b, j :: b in nfts && 0 <= j < |nfts[b].offers| ==> nfts[b].offers[j].address != offer
  {
    forall b, j | b in nfts && 0 <= j < |nfts[b].offers|
      ensures nfts[b].offers[j].address != offer
    {
      NotInUseAbsent(nfts, b, offer);
    }
  }

  /** Both offer removals keep every offer address used at most once. */
  lemma RemoveOfferKeepsOfferKeys(nfts: map<string, NftRecord>, lookupOwner: string, ev: OfferEvent,
                                  asset: Option<AssetInfo>, tracked: seq<string>)
    requires OfferKeysUnique(nfts)
    ensures OfferKeysUnique(RemoveOffer(nfts, lookupOwner, ev, asset, tracked).1)
  {
    var r := RemoveOffer(nfts, lookupOwner, ev, asset, tracked);
    if r.0.Applied? {
      RemoveOfferRemovesOne(nfts, lookupOwner, ev, asset, tracked);
      var os := nfts[ev.nft].offers;
      var i :| 0 <= i < |os| && os[i].address == ev.offer && r.1[ev.nft].offers == os[..i] + os[i + 1..];
      OwnOffersDistinct(nfts, ev.nft);
      RemovalDistinct(os, i, r.1[ev.nft].offers);
      WithoutMembers(os, ev.offer);
      OfferKeysKept(nfts, r.1, ev.nft);
    }
  }

  /** Within one record the offer addresses are pairwise distinct. */
  lemma OwnOffersDistinct(nfts: map<string, NftRecord>, address: string)
    requires OfferKeysUnique(nfts) && address in nfts
    ensures forall p, q :: 0 <= p < q < |nfts[address].offers| ==>
      nfts[address].offers[p].address != nfts[address].offers[q].address
  {
  }

  lemma RemovalDistinct(os: seq<Offer>, i: nat, ns: seq<Offer>)
    requires i < |os| && ns == os[..i] + os[i + 1..]
    requires forall p, q :: 0 <= p < q < |os| ==> os[p].address != os[q].address
    ensures forall p, q :: 0 <= p < q < |ns| ==> ns[p].address != ns[q].address
  {
    forall p, q | 0 <= p < q < |ns|
      ensures ns[p].address != ns[q].address
    {
      var p' := if p < i then p else p + 1;
      var q' := if q < i then q else q + 1;
      assert ns[p] == os[p'] && ns[q] == os[q'];
    }
  }
}
