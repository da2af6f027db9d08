/** The Tensor marketplace side of the engine (src/tensor.ts): the paginated
    crawls of the collection, the format step that turns a crawled mint into a
    store record, the incremental transaction-history import with its
    per-collection watermark, and the per-user counter deltas.

    Every HTTP endpoint is modelled as the sequence of answers it gives to the
    successive requests; a crawl that has not finished when the answers run
    out is reported as still polling. */
module Tensor {
  import opened Types
  import opened Utils
  import opened Db

  // ---------------------------------------------------------------------------
  // Transaction types

  /** The marketplace's transaction-type strings that map to an activity type
      other than the fallback. */
  const ActivityTypeTable: map<string, ActivityType> := map[
    "LIST" := List,
    "DELIST" := Delist,
    "SALE_BUY_NOW" := Buy,
    "SWAP_SELL_NFT" := Sell,
    "SWAP_WITHDRAW_NFT" := Delist,
    "SALE_ACCEPT_BID" := AcceptBid,
    "PLACE_BID" := PlaceBid,
    "CANCEL_BID" := CancelBid,
    "ADJUST_PRICE" := Update,
    "SWAP_BUY_NFT" := Buy,
    "SWAP_DEPOSIT_NFT" := List
  ]

  /** `getActivityType`: the chain of string comparisons, with `UPDATE` for any
      unrecognised type. */
  function GetActivityType(txType: string): (t: ActivityType)
    ensures txType in ActivityTypeTable ==> t == ActivityTypeTable[txType]
    ensures txType !in ActivityTypeTable ==> t == Update
  {
    if txType == "LIST" then List
    else if txType == "DELIST" then Delist
    else if txType == "SALE_BUY_NOW" then Buy
    else if txType == "SWAP_SELL_NFT" then Sell
    else if txType == "SWAP_WITHDRAW_NFT" then Delist
    else if txType == "SALE_ACCEPT_BID" then AcceptBid
    else if txType == "PLACE_BID" then PlaceBid
    else if txType == "CANCEL_BID" then CancelBid
    else if txType == "ADJUST_PRICE" then Update
    else if txType == "SWAP_BUY_NFT" then Buy
    else if txType == "SWAP_DEPOSIT_NFT" then List
    else Update
  }

  // ---------------------------------------------------------------------------
  // Formatting a crawled mint into a store record

  /** An active listing. `price` is `None` when the price string is empty. */
  datatype Listing = Listing(price: Option<int>, seller: string)

  /** One mint of the collection crawl. `lastSalePrice` is `None` when there is
      no last sale or its price string is empty; `attributes` holds each
      `trait_type` with its value already converted to a string. */
  datatype MintResp = MintResp(
    mint: string,
    name: string,
    imageUri: string,
    owner: string,
    listing: Option<Listing>,
    lastSalePrice: Option<int>,
    attributes: Option<seq<MetadataEntry>>)

  datatype Bid = Bid(address: string, bidder: string, expiry: string, price: int)

  /** One entry of the bids endpoint: the bids on one mint. */
  datatype MintBids = MintBids(mint: string, bids: seq<Bid>)

  function BidsMint(e: MintBids): string { e.mint }

  /** The off-chain document has a `properties` member that is truthy. */
  predicate HasTruthyProperties(doc: Option<Json>) {
    doc.Some? && doc.value.JObject? &&
    var p := Lookup(doc.value.fields, "properties");
    p.Some? && Truthy(p.value)
  }

  /** `nftAddressToMetadata.get(mint)?.properties || null`. */
  function BlobProperties(doc: Option<Json>): (p: Json)
    ensures HasTruthyProperties(doc) ==> Lookup(doc.value.fields, "properties") == Some(p)
    ensures !HasTruthyProperties(doc) ==> p == JNull
    ensures doc.Some? && WellFormed(doc.value) ==> WellFormed(p)
  {
    if HasTruthyProperties(doc) then
      var fs := doc.value.fields;
      var p := Lookup(fs, "properties").value;
      p
    else JNull
  }

  /** `nftAddressToMetadata.get(mint)?.properties` without the `|| null`:
      `None` stands for `undefined`, which is what a missing document, a
      document that is not an object, or one without `properties` gives. */
  function RawProperties(metadata: map<string, Json>, mint: string): (p: Option<Json>)
    ensures p.Some? <==> mint in metadata && metadata[mint].JObject? &&
                         Lookup(metadata[mint].fields, "properties").Some?
  {
    if mint in metadata && metadata[mint].JObject? then Lookup(metadata[mint].fields, "properties") else None
  }

  /** The formatted blob is the raw value when that is truthy, and null
      otherwise, `undefined` included. */
  lemma BlobIsTruthyRaw(metadata: map<string, Json>, mint: string)
    ensures var raw := RawProperties(metadata, mint);
      BlobProperties(MetadataDoc(metadata, mint)) == if raw.Some? && Truthy(raw.value) then raw.value else JNull
  {
  }

  /** The offer rows built from the bids of one mint. */
  function BidsToOffers(e: MintBids): seq<Offer> {
    seq(|e.bids|, i requires 0 <= i < |e.bids| =>
      Offer(e.bids[i].address, e.mint, e.bids[i].price, e.bids[i].bidder, e.bids[i].expiry))
  }

  function MetadataDoc(metadata: map<string, Json>, mint: string): Option<Json> {
    if mint in metadata then Some(metadata[mint]) else None
  }

  /** The record `formatOffersAndMints` builds for one mint. */
  function FormatMint(nft: MintResp, offers: seq<MintBids>, metadata: map<string, Json>): (r: NftRecord)
    ensures r.address == nft.mint && r.name == nft.name && r.image == nft.imageUri
    ensures r.listed <==> nft.listing.Some?
    ensures r.price == (if nft.listing.Some? then nft.listing.value.price else None)
    ensures r.owner == (if nft.listing.Some? && nft.listing.value.seller != "" then nft.listing.value.seller
                        else nft.owner)
    ensures r.lastSale == nft.lastSalePrice.GetOr(0)
    ensures !r.burned
    ensures r.properties == BlobProperties(MetadataDoc(metadata, nft.mint))
    ensures r.metadata == nft.attributes.GetOr([])
    ensures forall o :: o in r.offers ==> o.nftMint == nft.mint
    ensures (forall e :: e in offers ==> e.mint != nft.mint) ==> r.offers == []
    ensures (exists e :: e in offers && e.mint == nft.mint) ==>
      exists e :: e in offers && e.mint == nft.mint && r.offers == BidsToOffers(e)
    ensures |offers| > 0 && offers[0].mint == nft.mint ==> r.offers == BidsToOffers(offers[0])
  {
    var mine := FindFirst(offers, nft.mint, BidsMint);
    NftRecord(
      address := nft.mint,
      name := nft.name,
      image := nft.imageUri,
      owner := if nft.listing.Some? && nft.listing.value.seller != "" then nft.listing.value.seller else nft.owner,
      price := if nft.listing.Some? then nft.listing.value.price else None,
      listed := nft.listing.Some?,
      lastSale := nft.lastSalePrice.GetOr(0),
      burned := false,
      properties := BlobProperties(MetadataDoc(metadata, nft.mint)),
      metadata := nft.attributes.GetOr([]),
      offers := if mine.Some? then BidsToOffers(mine.value) else [])
  }

  /** The offers of a formatted row come from the first bid entry for its mint. */
  lemma FormatMintFirstOffers(nft: MintResp, offers: seq<MintBids>, metadata: map<string, Json>)
    requires exists e :: e in offers && e.mint == nft.mint
    ensures exists i :: (0 <= i < |offers| && offers[i].mint == nft.mint &&
                         FormatMint(nft, offers, metadata).offers == BidsToOffers(offers[i]) &&
                         forall j :: 0 <= j < i ==> offers[j].mint != nft.mint)
  {
    FindFirstIsFirst(offers, nft.mint, BidsMint);
  }

  /** `formatOffersAndMints`: one record per crawled mint, in crawl order. */
  function FormatOffersAndMints(mints: seq<MintResp>, offers: seq<MintBids>,
                                metadata: map<string, Json>): (r: seq<NftRecord>)
    ensures |r| == |mints|
    ensures forall i :: 0 <= i < |r| ==> r[i].address == mints[i].mint && !r[i].burned
    ensures forall i :: 0 <= i < |r| ==> (r[i].price.Some? ==> r[i].listed)
    ensures forall i :: 0 <= i < |r| ==> r[i] == FormatMint(mints[i], offers, metadata)
  {
    seq(|mints|, i requires 0 <= i < |mints| => FormatMint(mints[i], offers, metadata))
  }

  // ---------------------------------------------------------------------------
  // The collection crawl

  /** The outcome of a paginated crawl: the items and the cursor of every
      request made, or only the requests when the crawl is still polling. */
  datatype Crawl<T> = Complete(items: seq<T>, requests: seq<string>) | Polling(requests: seq<string>)

  predicate IsLastPage<T>(r: Response<T>) {
    r.Page? && !r.hasMore
  }

  /** The index of the first last page, or `|rs|` if there is none. */
  function LastPageAt<T>(rs: seq<Response<T>>): (n: nat)
    ensures n <= |rs|
    ensures n < |rs| ==> IsLastPage(rs[n])
    ensures forall j :: 0 <= j < n ==> !IsLastPage(rs[j])
    decreases |rs|
  {
    if rs == [] then 0
    else if IsLastPage(rs[0]) then 0
    else 1 + LastPageAt(rs[1..])
  }

  lemma LastPageAtIs<T>(rs: seq<Response<T>>, k: nat)
    requires k <= |rs| && (k < |rs| ==> IsLastPage(rs[k]))
    requires forall j :: 0 <= j < k ==> !IsLastPage(rs[j])
    ensures LastPageAt(rs) == k
  {
  }

  /** The crawl of one collection: requests go on, repeating after a failure,
      until a page says there are no more. */
  function CollectPages<T>(rs: seq<Response<T>>): (c: Crawl<T>)
    ensures c.Complete? <==> exists j :: 0 <= j < |rs| && IsLastPage(rs[j])
    ensures |c.requests| <= |rs|
    ensures c.Polling? ==> |c.requests| == |rs|
    ensures c.Complete? ==>
      (0 < |c.requests| && IsLastPage(rs[|c.requests| - 1]) &&
       forall j :: 0 <= j < |c.requests| - 1 ==> !IsLastPage(rs[j]))
  {
    var n := LastPageAt(rs);
    if n == |rs| then Polling(Cursors(rs))
    else Complete(PageItems(rs[..n + 1]), Cursors(rs[..n + 1]))
  }

  lemma PageItemsSnoc<T>(rs: seq<Response<T>>, k: nat)
    requires k < |rs|
    ensures PageItems(rs[..k + 1]) ==
      PageItems(rs[..k]) + (if rs[k].Page? then rs[k].items else [])
    ensures Cursors(rs[..k + 1]) == Cursors(rs[..k]) + [NextCursor(rs[..k])]
    ensures rs[k].Page? ==> NextCursor(rs[..k + 1]) == rs[k].cursor
    ensures rs[k].Failed? ==> NextCursor(rs[..k + 1]) == NextCursor(rs[..k])
  {
    assert rs[..k + 1][..k] == rs[..k];
  }

  /** The inner loop of `fetchAllCollectionMintsFromTensor` for one collection. */
  method FetchCollectionMints<T>(rs: seq<Response<T>>) returns (c: Crawl<T>)
    ensures c == CollectPages(rs)
  {
    var result: seq<T> := [];
    var cursor := "";
    var requests: seq<string> := [];
    var k := 0;
    while k < |rs|
      invariant 0 <= k <= |rs|
      invariant forall j :: 0 <= j < k ==> !IsLastPage(rs[j])
      invariant requests == Cursors(rs[..k])
      invariant cursor == NextCursor(rs[..k])
      invariant result == PageItems(rs[..k])
    {
      PageItemsSnoc(rs, k);
      requests := requests + [cursor];
      var r := rs[k];
      if r.Page? {
        result := result + r.items;
        if !r.hasMore {
          LastPageAtIs(rs, k);
          c := Complete(result, requests);
          return;
        }
        cursor := r.cursor;
      }
      k := k + 1;
    }
    assert rs[..k] == rs;
    LastPageAtIs(rs, k);
    c := Polling(requests);
  }

  /** The whole crawl: the items of every collection in turn, or `None` when
      some collection is still polling. */
  function AllCollectionMints<T>(streams: seq<seq<Response<T>>>): (r: Option<seq<T>>)
    ensures r.Some? <==> forall i :: 0 <= i < |streams| ==> CollectPages(streams[i]).Complete?
    decreases |streams|
  {
    if streams == [] then Some([])
    else
      var prev := AllCollectionMints(streams[..|streams| - 1]);
      var c := CollectPages(streams[|streams| - 1]);
      if prev.Some? && c.Complete? then Some(prev.value + c.items) else None
  }

  /** `fetchAllCollectionMintsFromTensor`: the collections in turn, each with
      the answers its endpoint gives. */
  method FetchAllCollectionMints<T>(streams: seq<seq<Response<T>>>) returns (r: Option<seq<T>>)
    ensures r == AllCollectionMints(streams)
  {
    var result: seq<T> := [];
    var k := 0;
    while k < |streams|
      invariant 0 <= k <= |streams|
      invariant AllCollectionMints(streams[..k]) == Some(result)
    {
      assert streams[..k + 1][..k] == streams[..k];
      var c := FetchCollectionMints(streams[k]);
      if c.Polling? {
        return None;
      }
      result := result + c.items;
      k := k + 1;
    }
    assert streams[..k] == streams;
    r := Some(result);
  }

  // ---------------------------------------------------------------------------
  // The transaction-history import

  /** One entry of the history endpoint: a transaction and the mint it is on. */
  datatype HistoryItem = HistoryItem(tx: Tx, mintOnchainId: string)

  /** The activity row the import builds for one transaction. */
  function ToRow(item: HistoryItem): Activity {
    var tx := item.tx;
    Activity(
      txid := tx.txKey,
      from := if tx.sellerId != "" then tx.sellerId
              else if tx.buyerId.Some? && tx.buyerId.value != "" then tx.buyerId.value
              else "",
      to := tx.buyerId,
      amount := tx.grossAmount,
      kind := GetActivityType(tx.txType),
      nftAddress := item.mintOnchainId)
  }

  function Rows(items: seq<HistoryItem>): (rows: seq<Activity>) {
    seq(|items|, i requires 0 <= i < |items| => ToRow(items[i]))
  }

  lemma RowsAppend(a: seq<HistoryItem>, b: seq<HistoryItem>)
    ensures Rows(a + b) == Rows(a) + Rows(b)
  {
    assert forall i :: 0 <= i < |a| ==> (a + b)[i] == a[i];
  }

  /** The transaction is the one the stored watermark names. */
  predicate IsWatermark(item: HistoryItem, last: Option<string>) {
    last.Some? && item.tx.txKey == last.value
  }

  predicate NoWatermark(items: seq<HistoryItem>, last: Option<string>) {
    forall i :: 0 <= i < |items| ==> !IsWatermark(items[i], last)
  }

  /** The items before the first one that is the watermark. */
  function Before(items: seq<HistoryItem>, last: Option<string>): (r: seq<HistoryItem>)
    ensures r <= items
    ensures NoWatermark(r, last)
    ensures |r| < |items| ==> IsWatermark(items[|r|], last)
    decreases |items|
  {
    if items == [] then []
    else if IsWatermark(items[0], last) then []
    else [items[0]] + Before(items[1..], last)
  }

  lemma {:induction false} BeforeUnmarkedPrefix(a: seq<HistoryItem>, b: seq<HistoryItem>, last: Option<string>)
    requires NoWatermark(a, last)
    ensures Before(a + b, last) == a + Before(b, last)
    decreases |a|
  {
    if a != [] {
      assert (a + b)[0] == a[0];
      assert (a + b)[1..] == a[1..] + b;
      BeforeUnmarkedPrefix(a[1..], b, last);
    } else {
      assert a + b == b;
    }
  }

  lemma BeforeIsPrefix(items: seq<HistoryItem>, j: nat, last: Option<string>)
    requires j <= |items| && NoWatermark(items[..j], last)
    requires j < |items| ==> IsWatermark(items[j], last)
    ensures Before(items, last) == items[..j]
  {
    var r := Before(items, last);
    assert items[..|r|] == r;
  }

  /** A page ends the walk: it holds the watermark or is the last page. */
  predicate StopsWalk(r: Response<HistoryItem>, last: Option<string>) {
    r.Page? && (!NoWatermark(r.items, last) || !r.hasMore)
  }

  /** An unset `first` in the source: `undefined` or the empty string. */
  predicate Unset(first: Option<string>) {
    first.None? || first.value == ""
  }

  /** The value of `first` after the given answers: each page taken while
      `first` is unset overwrites it with its first transaction's key, or with
      `undefined` when the page is empty. */
  function FirstSeen(rs: seq<Response<HistoryItem>>): Option<string>
    decreases |rs|
  {
    if rs == [] then None
    else
      NextFirst(FirstSeen(rs[..|rs| - 1]), rs[|rs| - 1])
  }

  /** `if (!first) first = txs[0]?.tx?.txKey` for one answer. */
  function NextFirst(first: Option<string>, r: Response<HistoryItem>): Option<string> {
    if r.Page? && Unset(first) then
      (if |r.items| > 0 then Some(r.items[0].tx.txKey) else None)
    else first
  }

  /** The walk over one collection's history. */
  datatype Walk = Done(rows: seq<Activity>, first: Option<string>, requests: seq<string>)
                | Pending(requests: seq<string>)

  function StopAt(rs: seq<Response<HistoryItem>>, last: Option<string>): (n: nat)
    ensures n <= |rs|
    ensures n < |rs| ==> StopsWalk(rs[n], last)
    ensures forall j :: 0 <= j < n ==> !StopsWalk(rs[j], last)
    decreases |rs|
  {
    if rs == [] then 0
    else if StopsWalk(rs[0], last) then 0
    else 1 + StopAt(rs[1..], last)
  }

  lemma StopAtIs(rs: seq<Response<HistoryItem>>, last: Option<string>, k: nat)
    requires k <= |rs| && (k < |rs| ==> StopsWalk(rs[k], last))
    requires forall j :: 0 <= j < k ==> !StopsWalk(rs[j], last)
    ensures StopAt(rs, last) == k
  {
  }

  /** The result of the history walk of one collection against the stored
      watermark `last`: pages are requested until one holds the watermark or
      says there are no more; the rows are every transaction of those pages up
      to, not including, the first one that is the watermark. */
  function HistoryWalk(rs: seq<Response<HistoryItem>>, last: Option<string>): (w: Walk)
  {
    var n := StopAt(rs, last);
    if n == |rs| then Pending(Cursors(rs))
    else Done(Rows(Before(PageItems(rs[..n + 1]), last)), FirstSeen(rs[..n + 1]), Cursors(rs[..n + 1]))
  }

  lemma FirstSeenSnoc(rs: seq<Response<HistoryItem>>, k: nat)
    requires k < |rs|
    ensures FirstSeen(rs[..k + 1]) == NextFirst(FirstSeen(rs[..k]), rs[k])
  {
    assert rs[..k + 1][..k] == rs[..k];
  }

  lemma NoWatermarkAppend(a: seq<HistoryItem>, b: seq<HistoryItem>, last: Option<string>)
    requires NoWatermark(a, last) && NoWatermark(b, last)
    ensures NoWatermark(a + b, last)
  {
    assert forall i :: 0 <= i < |a| ==> (a + b)[i] == a[i];
    assert forall i :: |a| <= i < |a + b| ==> (a + b)[i] == b[i - |a|];
  }

  lemma HistoryWalkStopsAt(rs: seq<Response<HistoryItem>>, last: Option<string>, k: nat)
    requires k < |rs| && StopsWalk(rs[k], last)
    requires forall j :: 0 <= j < k ==> !StopsWalk(rs[j], last)
    ensures HistoryWalk(rs, last) ==
      Done(Rows(Before(PageItems(rs[..k + 1]), last)), FirstSeen(rs[..k + 1]), Cursors(rs[..k + 1]))
  {
    StopAtIs(rs, last, k);
  }

  lemma HistoryWalkPending(rs: seq<Response<HistoryItem>>, last: Option<string>)
    requires forall j :: 0 <= j < |rs| ==> !StopsWalk(rs[j], last)
    ensures HistoryWalk(rs, last) == Pending(Cursors(rs))
  {
    StopAtIs(rs, last, |rs|);
  }

  /** The inner `for` loop over one page: the rows it pushes, and whether it
      reached the watermark (the labelled `break loop`). */
  method ScanPage(items: seq<HistoryItem>, last: Option<string>) returns (emitted: seq<Activity>, hit: bool)
    ensures emitted == Rows(Before(items, last))
    ensures hit <==> !NoWatermark(items, last)
    ensures !hit ==> emitted == Rows(items)
  {
    emitted := [];
    var j := 0;
    while j < |items|
      invariant 0 <= j <= |items|
      invariant NoWatermark(items[..j], last)
      invariant emitted == Rows(items[..j])
    {
      if IsWatermark(items[j], last) {
        BeforeIsPrefix(items, j, last);
        return emitted, true;
      }
      assert items[..j + 1] == items[..j] + [items[j]];
      RowsAppend(items[..j], [items[j]]);
      emitted := emitted + [ToRow(items[j])];
      j := j + 1;
    }
    assert items[..j] == items;
    BeforeIsPrefix(items, j, last);
    hit := false;
  }

  /** Taking one more page: the rows up to the watermark grow by the page's
      rows up to the watermark, and the pages so far stay free of it. */
  lemma PageStep(rs: seq<Response<HistoryItem>>, k: nat, last: Option<string>)
    requires k < |rs| && rs[k].Page?
    requires NoWatermark(PageItems(rs[..k]), last)
    ensures Rows(Before(PageItems(rs[..k + 1]), last)) ==
      Rows(PageItems(rs[..k])) + Rows(Before(rs[k].items, last))
    ensures NoWatermark(rs[k].items, last) ==>
      NoWatermark(PageItems(rs[..k + 1]), last) &&
      Rows(PageItems(rs[..k + 1])) == Rows(PageItems(rs[..k])) + Rows(rs[k].items)
  {
    var done, items := PageItems(rs[..k]), rs[k].items;
    assert PageItems(rs[..k + 1]) == done + items by {
      assert rs[..k + 1][..k] == rs[..k];
    }
    BeforeUnmarkedPrefix(done, items, last);
    RowsAppend(done, Before(items, last));
    if NoWatermark(items, last) {
      NoWatermarkAppend(done, items, last);
      RowsAppend(done, items);
    }
  }

  /** The body of the `loop:` while-loop of `fetchTransactionHistoryRecent`
      for one collection. */
  method WalkHistory(rs: seq<Response<HistoryItem>>, last: Option<string>) returns (w: Walk)
    ensures w == HistoryWalk(rs, last)
  {
    var first: Option<string> := None;
    var cursor := "";
    var rows: seq<Activity> := [];
    var requests: seq<string> := [];
    var k := 0;
    while k < |rs|
      invariant 0 <= k <= |rs|
      invariant forall j :: 0 <= j < k ==> !StopsWalk(rs[j], last)
      invariant requests == Cursors(rs[..k])
      invariant cursor == NextCursor(rs[..k])
      invariant first == FirstSeen(rs[..k])
      invariant NoWatermark(PageItems(rs[..k]), last)
      invariant rows == Rows(PageItems(rs[..k]))
    {
      PageItemsSnoc(rs, k);
      FirstSeenSnoc(rs, k);
      requests := requests + [cursor];
      var r := rs[k];
      if r.Page? {
        first := NextFirst(first, r);
        var emitted, hit := ScanPage(r.items, last);
        PageStep(rs, k, last);
        rows := rows + emitted;
        if hit || !r.hasMore {
          HistoryWalkStopsAt(rs, last, k);
          w := Done(rows, first, requests);
          return;
        }
        cursor := r.cursor;
      }
      k := k + 1;
    }
    assert rs[..k] == rs;
    HistoryWalkPending(rs, last);
    w := Pending(requests);
  }

  /** The walk finishes exactly when some answer is a page that ends it; it
      makes at most one request per answer; and the row of the watermark
      transaction itself is never emitted. */
  lemma HistoryWalkShape(rs: seq<Response<HistoryItem>>, last: Option<string>)
    ensures HistoryWalk(rs, last).Done? <==> exists j :: 0 <= j < |rs| && StopsWalk(rs[j], last)
    ensures |HistoryWalk(rs, last).requests| <= |rs|
    ensures var w := HistoryWalk(rs, last);
      w.Done? ==> forall i :: 0 <= i < |w.rows| ==> !(last.Some? && w.rows[i].txid == last.value)
  {
    var n := StopAt(rs, last);
    if n < |rs| {
      var items := Before(PageItems(rs[..n + 1]), last);
      assert forall i :: 0 <= i < |items| ==> Rows(items)[i].txid == items[i].tx.txKey;
    }
  }

  /** Once the walk has stopped, no later answer is looked at: appending more
      answers changes nothing, and no further page is requested. */
  lemma HistoryWalkIgnoresLaterAnswers(rs: seq<Response<HistoryItem>>, more: seq<Response<HistoryItem>>,
                                       last: Option<string>)
    requires HistoryWalk(rs, last).Done?
    ensures HistoryWalk(rs + more, last) == HistoryWalk(rs, last)
  {
    var n := StopAt(rs, last);
    assert forall j :: 0 <= j <= n ==> (rs + more)[j] == rs[j];
    StopAtIs(rs + more, last, n);
    assert (rs + more)[..n + 1] == rs[..n + 1];
  }

  lemma {:induction false} FirstSeenIsNewest(rs: seq<Response<HistoryItem>>)
    requires forall i :: 0 <= i < |PageItems(rs)| ==> PageItems(rs)[i].tx.txKey != ""
    ensures FirstSeen(rs) == if PageItems(rs) == [] then None else Some(PageItems(rs)[0].tx.txKey)
    decreases |rs|
  {
    if rs != [] {
      var init := rs[..|rs| - 1];
      var r := rs[|rs| - 1];
      assert PageItems(rs) == PageItems(init) + (if r.Page? then r.items else []);
      assert forall i :: 0 <= i < |PageItems(init)| ==> PageItems(rs)[i] == PageItems(init)[i];
      FirstSeenIsNewest(init);
      if PageItems(init) == [] && r.Page? && |r.items| > 0 {
        assert PageItems(rs)[0] == r.items[0];
      }
    }
  }

  /** When every transaction key is non-empty, the new `first` is the key of
      the newest transaction the walk saw: the first item of the first
      non-empty page. */
  lemma NewWatermarkIsNewestTransaction(rs: seq<Response<HistoryItem>>, last: Option<string>)
    requires HistoryWalk(rs, last).Done?
    requires forall i :: 0 <= i < |PageItems(rs)| ==> PageItems(rs)[i].tx.txKey != ""
    ensures var n := |HistoryWalk(rs, last).requests|;
      var seen := PageItems(rs[..n]);
      HistoryWalk(rs, last).first == if seen == [] then None else Some(seen[0].tx.txKey)
  {
    var n := StopAt(rs, last);
    var seen := PageItems(rs[..n + 1]);
    PageItemsPrefix(rs, n + 1);
    assert forall i :: 0 <= i < |seen| ==> seen[i] == PageItems(rs)[i];
    FirstSeenIsNewest(rs[..n + 1]);
  }

  lemma {:induction false} PageItemsPrefix<T>(rs: seq<Response<T>>, n: nat)
    requires n <= |rs|
    ensures PageItems(rs[..n]) <= PageItems(rs)
    decreases |rs|
  {
    if n < |rs| {
      var init := rs[..|rs| - 1];
      assert init[..n] == rs[..n];
      PageItemsPrefix(init, n);
    } else {
      assert rs[..n] == rs;
    }
  }

  /** A re-run with no new transactions upstream: the first answer's first
      transaction is the watermark, so the walk emits nothing, makes one
      request, and its `first` is the watermark again. */
  lemma WatermarkSafety(rs: seq<Response<HistoryItem>>, mark: string)
    requires |rs| > 0 && rs[0].Page? && |rs[0].items| > 0 && rs[0].items[0].tx.txKey == mark
    ensures HistoryWalk(rs, Some(mark)) == Done([], Some(mark), [""])
  {
    assert StopsWalk(rs[0], Some(mark));
    HistoryWalkStopsAt(rs, Some(mark), 0);
    var p := rs[..1];
    assert p == [rs[0]] && p[..0] == [];
    assert PageItems(p) == rs[0].items;
    assert Before(rs[0].items, Some(mark)) == [];
    assert FirstSeen(p) == Some(mark);
    assert Cursors(p) == [""];
  }

  function ExampleTx(key: string): HistoryItem {
    HistoryItem(Tx(key, key, "LIST", None, "seller", None, "mint"), "mint")
  }

  function ExamplePage1(): Response<HistoryItem> {
    Page([ExampleTx("t5"), ExampleTx("t4"), ExampleTx("t3")], true, "c1")
  }

  function ExamplePage2(): Response<HistoryItem> {
    Page([ExampleTx("t2"), ExampleTx("t1")], true, "c2")
  }

  /** An example. Watermark `t2`; the first page holds `t5, t4, t3` and says there is more,
      the second holds `t2, t1`: the rows are those of `t5, t4, t3`, two pages
      are requested, and the new watermark is `t5`. */
  lemma HistoryCompletenessExample()
    ensures HistoryWalk([ExamplePage1(), ExamplePage2()], Some("t2")) ==
      Done(Rows(ExamplePage1().items), Some("t5"), ["", "c1"])
  {
    var p1, p2, last := ExamplePage1(), ExamplePage2(), Some("t2");
    var rs := [p1, p2];
    ExampleFirstPageUnmarked();
    assert !StopsWalk(p1, last);
    assert IsWatermark(p2.items[0], last);
    HistoryWalkStopsAt(rs, last, 1);
    assert rs[..2] == rs;
    ExampleRowsBefore();
    ExampleFirstSeen();
    ExampleCursors();
  }

  /** The example walk asks for the first page with no cursor, then with `c1`. */
  lemma ExampleCursors()
    ensures Cursors([ExamplePage1(), ExamplePage2()]) == ["", "c1"]
  {
    var p1, p2 := ExamplePage1(), ExamplePage2();
    var rs := [p1, p2];
    assert rs[..2] == rs;
    assert rs[..1] == [p1] && [p1][..0] == [];
    PageItemsSnoc(rs, 0);
    PageItemsSnoc(rs, 1);
  }

  /** No item of the first example page is the watermark. */
  lemma ExampleFirstPageUnmarked()
    ensures NoWatermark(ExamplePage1().items, Some("t2"))
  {
    var p1, last := ExamplePage1(), Some("t2");
    assert !IsWatermark(p1.items[0], last) && !IsWatermark(p1.items[1], last);
    assert !IsWatermark(p1.items[2], last);
  }

  /** The items before the watermark are those of the first example page. */
  lemma ExampleRowsBefore()
    ensures Before(PageItems([ExamplePage1(), ExamplePage2()]), Some("t2")) == ExamplePage1().items
  {
    var p1, p2, last := ExamplePage1(), ExamplePage2(), Some("t2");
    var rs := [p1, p2];
    ExampleFirstPageUnmarked();
    assert rs[..2] == rs;
    assert rs[..1] == [p1] && [p1][..0] == [];
    PageItemsSnoc(rs, 0);
    PageItemsSnoc(rs, 1);
    assert PageItems(rs) == p1.items + p2.items;
    BeforeUnmarkedPrefix(p1.items, p2.items, last);
    assert IsWatermark(p2.items[0], last);
    assert Before(p2.items, last) == [];
  }

  /** The first transaction of the example walk is `t5`. */
  lemma ExampleFirstSeen()
    ensures FirstSeen([ExamplePage1(), ExamplePage2()]) == Some("t5")
  {
    var p1, p2 := ExamplePage1(), ExamplePage2();
    var rs := [p1, p2];
    assert rs[..2] == rs;
    assert rs[..1] == [p1] && [p1][..0] == [];
    FirstSeenSnoc(rs, 0);
    FirstSeenSnoc(rs, 1);
  }

  // ---------------------------------------------------------------------------
  // The watermark in the store's memory table

  /** The memory key under which a collection's watermark is kept. */
  function WatermarkName(collId: string): string {
    "firstActivity:" + collId
  }

  function StoredWatermark(memory: map<string, string>, name: string): Option<string> {
    if name in memory then Some(memory[name]) else None
  }

  /** `prisma.memory.upsert` with `update: { value: first }` (an undefined
      value leaves the row as it is) and `create: { value: first || "" }`. */
  function UpsertWatermark(memory: map<string, string>, name: string, first: Option<string>): (m: map<string, string>)
    ensures m.Keys == memory.Keys + {name}
    ensures first.Some? ==> m[name] == first.value
    ensures first.None? ==> m[name] == (if name in memory then memory[name] else "")
    ensures forall k :: k in memory && k != name ==> m[k] == memory[k]
  {
    if first.Some? then memory[name := first.value]
    else if name in memory then memory
    else memory[name := ""]
  }

  /** One collection of `fetchTransactionHistoryRecent`: the rows it adds and
      the memory after its upsert, or `None` while it is still polling. */
  function CollectionImport(memory: map<string, string>, collId: string, rs: seq<Response<HistoryItem>>)
    : (Option<seq<Activity>>, map<string, string>)
  {
    var name := WatermarkName(collId);
    var w := HistoryWalk(rs, StoredWatermark(memory, name));
    if w.Pending? then (None, memory)
    else (Some(w.rows), UpsertWatermark(memory, name, w.first))
  }

  /** Re-running a collection whose stored watermark is still the newest
      transaction upstream imports nothing and leaves the memory as it was. */
  lemma RerunImportsNothing(memory: map<string, string>, collId: string, rs: seq<Response<HistoryItem>>)
    requires WatermarkName(collId) in memory
    requires |rs| > 0 && rs[0].Page? && |rs[0].items| > 0
    requires rs[0].items[0].tx.txKey == memory[WatermarkName(collId)]
    ensures CollectionImport(memory, collId, rs) == (Some([]), memory)
  {
    var name := WatermarkName(collId);
    WatermarkSafety(rs, memory[name]);
    assert memory[name := memory[name]] == memory;
  }

  /** After an import that saw a transaction, the stored watermark of the
      collection is the `first` of that walk. */
  lemma ImportStoresFirst(memory: map<string, string>, collId: string, rs: seq<Response<HistoryItem>>)
    requires CollectionImport(memory, collId, rs).0.Some?
    ensures var m := CollectionImport(memory, collId, rs).1;
      var w := HistoryWalk(rs, StoredWatermark(memory, WatermarkName(collId)));
      WatermarkName(collId) in m &&
      (w.first.Some? ==> m[WatermarkName(collId)] == w.first.value)
  {
  }

  /** The whole import, the collections in turn; `None` while some collection
      is still polling. */
  function HistoryRun(memory: map<string, string>, collIds: seq<string>,
                      upstream: seq<seq<Response<HistoryItem>>>): (Option<seq<Activity>>, map<string, string>)
    requires |upstream| == |collIds|
    decreases |collIds|
  {
    if collIds == [] then (Some([]), memory)
    else
      var n := |collIds| - 1;
      var (prev, mem) := HistoryRun(memory, collIds[..n], upstream[..n]);
      if prev.None? then (None, mem)
      else
        var (rows, mem') := CollectionImport(mem, collIds[n], upstream[n]);
        if rows.None? then (None, mem') else (Some(prev.value + rows.value), mem')
  }

  lemma HistoryRunStep(memory: map<string, string>, collIds: seq<string>,
                       upstream: seq<seq<Response<HistoryItem>>>, k: nat, rows: seq<Activity>,
                       mem: map<string, string>)
    requires |upstream| == |collIds| && k < |collIds|
    requires HistoryRun(memory, collIds[..k], upstream[..k]) == (Some(rows), mem)
    ensures var (more, mem') := CollectionImport(mem, collIds[k], upstream[k]);
      HistoryRun(memory, collIds[..k + 1], upstream[..k + 1]) ==
        (if more.None? then (None, mem') else (Some(rows + more.value), mem'))
  {
    assert collIds[..k + 1][..k] == collIds[..k] && upstream[..k + 1][..k] == upstream[..k];
  }

  /** `fetchTransactionHistoryRecent`: only the memory table changes. */
  method FetchTransactionHistoryRecent(store: Store, collIds: seq<string>,
                                       upstream: seq<seq<Response<HistoryItem>>>)
    returns (result: Option<seq<Activity>>)
    requires IsIdListing(collIds, store.collections)
    requires |upstream| == |collIds|
    modifies store
    ensures (result, store.memory) == HistoryRun(old(store.memory), collIds, upstream)
    ensures store.nfts == old(store.nfts) && store.activity == old(store.activity)
    ensures store.users == old(store.users) && store.collections == old(store.collections)
  {
    var rows: seq<Activity> := [];
    var k := 0;
    while k < |collIds|
      invariant 0 <= k <= |collIds|
      invariant HistoryRun(old(store.memory), collIds[..k], upstream[..k]) == (Some(rows), store.memory)
      invariant store.nfts == old(store.nfts) && store.activity == old(store.activity)
      invariant store.users == old(store.users) && store.collections == old(store.collections)
    {
      HistoryRunStep(old(store.memory), collIds, upstream, k, rows, store.memory);
      var name := WatermarkName(collIds[k]);
      var w := WalkHistory(upstream[k], StoredWatermark(store.memory, name));
      if w.Pending? {
        HistoryRunStuck(old(store.memory), collIds, upstream, k + 1);
        return None;
      }
      rows := rows + w.rows;
      store.memory := UpsertWatermark(store.memory, name, w.first);
      k := k + 1;
    }
    assert collIds[..k] == collIds && upstream[..k] == upstream;
    result := Some(rows);
  }

  /** Once a collection is still polling, so is the whole import, whatever the
      later collections answer, and the memory stays where it was. */
  /** A run that failed before its last collection does not import it. */
  lemma HistoryRunFailedStays(memory: map<string, string>, collIds: seq<string>,
                              upstream: seq<seq<Response<HistoryItem>>>)
    requires |upstream| == |collIds| && collIds != []
    requires HistoryRun(memory, collIds[..|collIds| - 1], upstream[..|collIds| - 1]).0.None?
    ensures HistoryRun(memory, collIds, upstream) ==
      HistoryRun(memory, collIds[..|collIds| - 1], upstream[..|collIds| - 1])
  {
  }

  lemma {:induction false} HistoryRunStuck(memory: map<string, string>, collIds: seq<string>,
                                           upstream: seq<seq<Response<HistoryItem>>>, k: nat)
    requires |upstream| == |collIds| && 0 < k <= |collIds|
    requires HistoryRun(memory, collIds[..k], upstream[..k]).0.None?
    ensures HistoryRun(memory, collIds, upstream) == HistoryRun(memory, collIds[..k], upstream[..k])
    decreases |collIds|
  {
    if k < |collIds| {
      var n := |collIds| - 1;
      assert collIds[..n][..k] == collIds[..k] && upstream[..n][..k] == upstream[..k];
      HistoryRunStuck(memory, collIds[..n], upstream[..n], k);
      HistoryRunFailedStays(memory, collIds, upstream);
    } else {
      assert collIds[..k] == collIds && upstream[..k] == upstream;
    }
  }

  // ---------------------------------------------------------------------------
  // Per-user counter deltas

  /** The module-level `DEFAULT_USER` object that `activityToUserUpdate`
      mutates in place. It lives as long as the process, so its counters carry
      over from one import to the next. */
  class MutableUser {
    var address: string
    var cards: int
    var level: int
    var totalListed: int
    var totalSold: int
    var totalSoldValue: int
    var totalBought: int
    var totalBoughtValue: int

    /** The object as a `User` value. */
    function Value(): User
      reads this
    {
      User(address, cards, level, totalListed, totalSold, totalSoldValue, totalBought, totalBoughtValue)
    }

    constructor ()
      ensures Value() == DefaultUser
    {
      address, cards, level, totalListed := "", 0, 0, 0;
      totalSold, totalSoldValue, totalBought, totalBoughtValue := 0, 0, 0, 0;
    }
  }

  const DefaultUser := User("", 0, 0, 0, 0, 0, 0, 0)

  /** A user value read as counter changes: every counter of `u` added to `d`,
      the address of `u` kept. */
  function AddCounters(u: User, d: User): (r: User) {
    User(u.address, u.cards + d.cards, u.level + d.level, u.totalListed + d.totalListed,
         u.totalSold + d.totalSold, u.totalSoldValue + d.totalSoldValue,
         u.totalBought + d.totalBought, u.totalBoughtValue + d.totalBoughtValue)
  }

  const NoChange := User("", 0, 0, 0, 0, 0, 0, 0)

  /** `BigInt(item.amount || 0)`. */
  function AmountOf(item: Activity): int {
    item.amount.GetOr(0)
  }

  /** The counter changes one activity makes to its user: a sale or an
      accepted bid sells a card, a buy buys one, a listing and a delisting move
      the listed count, the rest change nothing. */
  function ActivityDelta(item: Activity): User {
    match item.kind
    case AcceptBid => User("", -1, 0, 0, 1, AmountOf(item), 0, 0)
    case Sell => User("", -1, 0, 0, 1, AmountOf(item), 0, 0)
    case Buy => User("", 1, 0, 0, 0, 0, 1, AmountOf(item))
    case Delist => User("", 0, 0, -1, 0, 0, 0, 0)
    case List => User("", 0, 0, 1, 0, 0, 0, 0)
    case _ => NoChange
  }

  /** The sum of the deltas of a batch of activities. */
  function BatchDelta(items: seq<Activity>): User
    decreases |items|
  {
    if items == [] then NoChange
    else AddCounters(BatchDelta(items[..|items| - 1]), ActivityDelta(items[|items| - 1]))
  }

  /** The body of the loop of `activityToUserUpdate`: the in-place updates of
      one activity on the user object it picked. */
  method ApplyActivity(user: MutableUser, item: Activity)
    modifies user
    ensures user.Value() == AddCounters(old(user.Value()), ActivityDelta(item))
    ensures user.address == old(user.address)
  {
    if item.kind == AcceptBid {
      user.totalSold := user.totalSold + 1;
      user.cards := user.cards - 1;
      user.totalSoldValue := user.totalSoldValue + AmountOf(item);
    } else if item.kind == Buy {
      user.totalBought := user.totalBought + 1;
      user.cards := user.cards + 1;
      user.totalBoughtValue := user.totalBoughtValue + AmountOf(item);
    } else if item.kind == CancelBid {
    } else if item.kind == Delist {
      user.totalListed := user.totalListed - 1;
    } else if item.kind == List {
      user.totalListed := user.totalListed + 1;
    } else if item.kind == PlaceBid {
    } else if item.kind == Sell {
      user.totalSold := user.totalSold + 1;
      user.cards := user.cards - 1;
      user.totalSoldValue := user.totalSoldValue + AmountOf(item);
    }
  }

  /** `activityToUserUpdate`. Every lookup is keyed by `item.from` while every
      store is keyed by the user's own address, which is that of
      `DEFAULT_USER`: all activities land on the one shared object, under its
      address, whatever their `from`. */
  method ActivityToUserUpdate(shared: MutableUser, activity: seq<Activity>)
    returns (users: map<string, MutableUser>)
    modifies shared
    ensures shared.Value() == Accumulated(old(shared.Value()), activity)
    ensures shared.address == old(shared.address)
    ensures users.Keys <= {shared.address}
    ensures activity != [] ==> shared.address in users
    ensures activity == [] ==> users == map[]
    ensures forall k :: k in users ==> users[k] == shared
  {
    users := map[];
    ghost var start := shared.Value();
    var i := 0;
    while i < |activity|
      invariant 0 <= i <= |activity|
      invariant shared.Value() == Accumulated(start, activity[..i])
      invariant users.Keys <= {shared.address}
      invariant i > 0 ==> shared.address in users
      invariant i == 0 ==> users == map[]
      invariant forall k :: k in users ==> users[k] == shared
    {
      var item := activity[i];
      var user := if item.from in users then users[item.from] else shared;
      ApplyActivity(user, item);
      users := users[user.address := user];
      AccumulatedSnoc(start, activity, i);
      i := i + 1;
    }
    assert activity[..i] == activity;
  }

  /** The counters of `u` after the activities `items`. */
  function Accumulated(u: User, items: seq<Activity>): User {
    AddCounters(u, BatchDelta(items))
  }

  lemma AccumulatedSnoc(u: User, items: seq<Activity>, i: nat)
    requires i < |items|
    ensures Accumulated(u, items[..i + 1]) == AddCounters(Accumulated(u, items[..i]), ActivityDelta(items[i]))
  {
    BatchDeltaSnoc(items, i);
    AddCountersAssociative(u, BatchDelta(items[..i]), ActivityDelta(items[i]));
  }

  lemma BatchDeltaSnoc(items: seq<Activity>, i: nat)
    requires i < |items|
    ensures BatchDelta(items[..i + 1]) == AddCounters(BatchDelta(items[..i]), ActivityDelta(items[i]))
  {
    assert items[..i + 1][..i] == items[..i];
  }

  lemma AddCountersAssociative(u: User, d: User, e: User)
    ensures AddCounters(AddCounters(u, d), e) == AddCounters(u, AddCounters(d, e))
  {
  }

  /** The deltas of two batches add up to the delta of the two together. */
  lemma {:induction false} BatchDeltaAdditive(a: seq<Activity>, b: seq<Activity>)
    ensures BatchDelta(a + b) == AddCounters(BatchDelta(a), BatchDelta(b))
    decreases |b|
  {
    if b == [] {
      assert a + b == a;
    } else {
      var init, x := b[..|b| - 1], b[|b| - 1];
      var ab := a + b;
      assert ab[..|ab| - 1] == a + init && ab[|ab| - 1] == x;
      calc {
        BatchDelta(ab);
        AddCounters(BatchDelta(a + init), ActivityDelta(x));
        { BatchDeltaAdditive(a, init); }
        AddCounters(AddCounters(BatchDelta(a), BatchDelta(init)), ActivityDelta(x));
        { AddCountersAssociative(BatchDelta(a), BatchDelta(init), ActivityDelta(x)); }
        AddCounters(BatchDelta(a), AddCounters(BatchDelta(init), ActivityDelta(x)));
      }
    }
  }

  /** A second import continues from the counters the first one left on the
      shared object. */
  lemma ImportsAccumulate(u: User, a: seq<Activity>, b: seq<Activity>)
    ensures Accumulated(Accumulated(u, a), b) == Accumulated(u, a + b)
  {
    BatchDeltaAdditive(a, b);
    AddCountersAssociative(u, BatchDelta(a), BatchDelta(b));
  }

  lemma BatchDeltaSingle(x: Activity)
    ensures BatchDelta([x]) == ActivityDelta(x)
  {
    assert [x][..0] == [];
  }

  /** An example. Two buys of 10 and 15 in one batch: two cards bought for 25, the same
      as the two batches of one buy each add up to (`BatchDeltaAdditive`). */
  lemma TwoBuysExample(x: Activity, y: Activity)
    requires x.kind == Buy && x.amount == Some(10) && y.kind == Buy && y.amount == Some(15)
    ensures BatchDelta([x, y]).totalBought == 2 && BatchDelta([x, y]).cards == 2
    ensures BatchDelta([x, y]).totalBoughtValue == 25
  {
    assert ActivityDelta(x).totalBought == 1 && ActivityDelta(x).totalBoughtValue == 10;
    assert ActivityDelta(x).cards == 1;
    assert ActivityDelta(y).totalBought == 1 && ActivityDelta(y).totalBoughtValue == 15;
    assert ActivityDelta(y).cards == 1;
    assert [x] + [y] == [x, y];
    BatchDeltaAdditive([x], [y]);
    BatchDeltaSingle(x);
    BatchDeltaSingle(y);
    assert BatchDelta([x, y]) == AddCounters(ActivityDelta(x), ActivityDelta(y));
  }

  // ---------------------------------------------------------------------------
  // Bids for the crawled mints

  /** One answer of the bids endpoint: a non-200 status, or the entries. */
  datatype OffersReply = RateLimited | Bids(entries: seq<MintBids>)

  const OffersBatchSize := 100

  function Min(a: int, b: int): int {
    if a < b then a else b
  }

  /** The mints of the request made at position `i`. */
  function OffersRequest(mints: seq<string>, i: nat): seq<string>
    requires i < |mints|
  {
    mints[i..Min(i + OffersBatchSize, |mints|)]
  }

  /** The batches of up to 100 mints, from position `i` on. */
  function OfferBatches(mints: seq<string>, i: nat): seq<seq<string>>
    decreases |mints| - i
  {
    if i >= |mints| then [] else [OffersRequest(mints, i)] + OfferBatches(mints, i + OffersBatchSize)
  }

  /** The batches cover the mints from `i` on, in order, each mint once, and
      each batch holds between 1 and 100 mints. */
  lemma OfferBatchesCover(mints: seq<string>, i: nat)
    requires i <= |mints|
    ensures Flatten(OfferBatches(mints, i)) == mints[i..]
    ensures forall b :: b in OfferBatches(mints, i) ==> 0 < |b| <= OffersBatchSize
  {
    OfferBatchesFlatten(mints, i);
    OfferBatchesSizes(mints, i);
  }

  lemma {:induction false} OfferBatchesFlatten(mints: seq<string>, i: nat)
    requires i <= |mints|
    ensures Flatten(OfferBatches(mints, i)) == mints[i..]
    decreases |mints| - i
  {
    if i < |mints| {
      var j := Min(i + OffersBatchSize, |mints|);
      OfferBatchesFlatten(mints, j);
      if j < i + OffersBatchSize {
        assert OfferBatches(mints, i + OffersBatchSize) == [] == OfferBatches(mints, j);
      }
      FlattenCons(OffersRequest(mints, i), OfferBatches(mints, i + OffersBatchSize));
      assert mints[i..j] + mints[j..] == mints[i..];
    }
  }

  lemma {:induction false} OfferBatchesSizes(mints: seq<string>, i: nat)
    ensures forall b :: b in OfferBatches(mints, i) ==> 0 < |b| <= OffersBatchSize
    decreases |mints| - i
  {
    if i < |mints| {
      OfferBatchesSizes(mints, i + OffersBatchSize);
      assert OfferBatches(mints, i) == [OffersRequest(mints, i)] + OfferBatches(mints, i + OffersBatchSize);
    }
  }

  /** Batch `s` from position `i` starts at `i + 100 * s`. */
  lemma {:induction false} OfferBatchAt(mints: seq<string>, i: nat, s: nat)
    requires i + OffersBatchSize * s < |mints|
    ensures s < |OfferBatches(mints, i)|
    ensures OfferBatches(mints, i)[s] == OffersRequest(mints, i + OffersBatchSize * s)
    decreases s
  {
    if s > 0 {
      OfferBatchAt(mints, i + OffersBatchSize, s - 1);
    }
  }

  /** There are exactly as many batches as steps of 100 needed to pass the end. */
  lemma {:induction false} OfferBatchesCount(mints: seq<string>, i: nat, s: nat)
    ensures s < |OfferBatches(mints, i)| <==> i + OffersBatchSize * s < |mints|
    decreases s
  {
    if s > 0 && i < |mints| {
      OfferBatchesCount(mints, i + OffersBatchSize, s - 1);
    }
  }

  function Successes(replies: seq<OffersReply>): nat
    decreases |replies|
  {
    if replies == [] then 0
    else Successes(replies[..|replies| - 1]) + (if replies[|replies| - 1].Bids? then 1 else 0)
  }

  function AnsweredEntries(replies: seq<OffersReply>): seq<MintBids>
    decreases |replies|
  {
    if replies == [] then []
    else
      var r := replies[|replies| - 1];
      AnsweredEntries(replies[..|replies| - 1]) + (if r.Bids? then r.entries else [])
  }

  /** The position the loop of `fetchOffersForMints` has reached and the
      entries it has collected after the replies `rs`; once the position
      passes the last mint no further request is made, so later replies
      change nothing. */
  function OffersProgress(mints: seq<string>, rs: seq<OffersReply>): (nat, seq<MintBids>)
    decreases |rs|
  {
    if rs == [] then (0, [])
    else
      var p := OffersProgress(mints, rs[..|rs| - 1]);
      var r := rs[|rs| - 1];
      if p.0 >= |mints| || r.RateLimited? then p else (p.0 + OffersBatchSize, p.1 + r.entries)
  }

  /** One more reply, as the three summaries of the replies see it. */
  lemma OffersFetchStep(mints: seq<string>, replies: seq<OffersReply>, k: nat)
    requires k < |replies|
    ensures Successes(replies[..k + 1]) == Successes(replies[..k]) + (if replies[k].Bids? then 1 else 0)
    ensures AnsweredEntries(replies[..k + 1]) ==
      AnsweredEntries(replies[..k]) + (if replies[k].Bids? then replies[k].entries else [])
    ensures var p := OffersProgress(mints, replies[..k]);
      OffersProgress(mints, replies[..k + 1]) ==
        if p.0 >= |mints| || replies[k].RateLimited? then p else (p.0 + OffersBatchSize, p.1 + replies[k].entries)
  {
    assert replies[..k + 1][..k] == replies[..k];
  }

  /** Once every batch is answered, the remaining replies are never used. */
  lemma {:induction false} OffersProgressStable(mints: seq<string>, rs: seq<OffersReply>, k: nat)
    requires k <= |rs| && OffersProgress(mints, rs[..k]).0 >= |mints|
    ensures OffersProgress(mints, rs) == OffersProgress(mints, rs[..k])
    decreases |rs|
  {
    if k < |rs| {
      var n := |rs| - 1;
      assert rs[..n][..k] == rs[..k];
      OffersProgressStable(mints, rs[..n], k);
    } else {
      assert rs[..k] == rs;
    }
  }

  /** The bids fetched, the mints of each request made, and whether every
      batch was answered before the replies ran out. */
  datatype OffersFetch = OffersFetch(offers: seq<MintBids>, requests: seq<seq<string>>, complete: bool)

  /** The loop of `fetchOffersForMints`: it stops when the position passes
      the last mint or the replies run out. */
  method OffersLoop(mints: seq<string>, replies: seq<OffersReply>)
    returns (offers: seq<MintBids>, requests: seq<seq<string>>, i: nat, k: nat)
    ensures k <= |replies| && |requests| == k
    ensures i == OffersBatchSize * Successes(replies[..k])
    ensures Successes(replies[..k]) <= |OfferBatches(mints, 0)|
    ensures forall j :: 0 <= j < k ==>
      Successes(replies[..j]) < |OfferBatches(mints, 0)| &&
      requests[j] == OfferBatches(mints, 0)[Successes(replies[..j])]
    ensures offers == AnsweredEntries(replies[..k])
    ensures OffersProgress(mints, replies[..k]) == (i, offers)
    ensures i >= |mints| || k == |replies|
  {
    offers := [];
    requests := [];
    i := 0;
    k := 0;
    OfferBatchesCount(mints, 0, 0);
    while i < |mints| && k < |replies|
      invariant k <= |replies| && |requests| == k
      invariant i == OffersBatchSize * Successes(replies[..k])
      invariant Successes(replies[..k]) <= |OfferBatches(mints, 0)|
      invariant forall j :: 0 <= j < k ==>
        Successes(replies[..j]) < |OfferBatches(mints, 0)| &&
        requests[j] == OfferBatches(mints, 0)[Successes(replies[..j])]
      invariant offers == AnsweredEntries(replies[..k])
      invariant OffersProgress(mints, replies[..k]) == (i, offers)
      decreases |replies| - k
    {
      OffersFetchStep(mints, replies, k);
      var batch := mints[i..Min(i + OffersBatchSize, |mints|)];
      OfferBatchAt(mints, 0, Successes(replies[..k]));
      requests := requests + [batch];
      if replies[k].Bids? {
        offers := offers + replies[k].entries;
        i := i + OffersBatchSize;
      }
      k := k + 1;
    }
  }

  /** `fetchOffersForMints`: a rate-limited batch is asked again, an answered
      one moves on by 100. Request `j` asks for the batch numbered by the
      answers before it; the fetch completes when the last batch is answered. */
  method FetchOffersForMints(mints: seq<string>, replies: seq<OffersReply>) returns (f: OffersFetch)
    ensures |f.requests| <= |replies|
    ensures forall j :: 0 <= j < |f.requests| ==>
      Successes(replies[..j]) < |OfferBatches(mints, 0)| &&
      f.requests[j] == OfferBatches(mints, 0)[Successes(replies[..j])]
    ensures f.complete <==> Successes(replies[..|f.requests|]) == |OfferBatches(mints, 0)|
    ensures !f.complete ==> |f.requests| == |replies|
    ensures f.offers == AnsweredEntries(replies[..|f.requests|])
    ensures f.complete == (OffersProgress(mints, replies).0 >= |mints|)
    ensures f.offers == OffersProgress(mints, replies).1
  {
    var offers, requests, i, k := OffersLoop(mints, replies);
    OfferBatchesCount(mints, 0, Successes(replies[..k]));
    if k < |replies| {
      OffersProgressStable(mints, replies, k);
    } else {
      assert replies[..k] == replies;
    }
    f := OffersFetch(offers, requests, i >= |mints|);
  }

  // ---------------------------------------------------------------------------
  // Off-chain metadata documents

  /** One fetch of a metadata URI: it threw (network error, the 30-second
      abort, a non-2xx status, a body that is not JSON), or it answered with
      the content-type check's verdict and the parsed body. */
  datatype Attempt = Threw | Answered(isJson: bool, body: Json)

  const MetadataRetries := 3

  /** Attempt `t`; an attempt beyond the given ones throws. */
  function AttemptAt(attempts: seq<Attempt>, t: nat): Attempt {
    if t < |attempts| then attempts[t] else Threw
  }

  /** The first attempt from `t` on that answered, or 3 if all of them threw. */
  function FirstAnswered(attempts: seq<Attempt>, t: nat): (n: nat)
    requires t <= MetadataRetries
    ensures t <= n <= MetadataRetries
    ensures n < MetadataRetries ==> AttemptAt(attempts, n).Answered?
    ensures forall u :: t <= u < n ==> AttemptAt(attempts, u).Threw?
    decreases MetadataRetries - t
  {
    if t == MetadataRetries then MetadataRetries
    else if AttemptAt(attempts, t).Answered? then t
    else FirstAnswered(attempts, t + 1)
  }

  /** The document stored for a mint: the body of the first answer within
      three attempts, if the content type said JSON. */
  function MintOutcome(attempts: seq<Attempt>): Option<Json> {
    var n := FirstAnswered(attempts, 0);
    if n < MetadataRetries && AttemptAt(attempts, n).isJson then Some(AttemptAt(attempts, n).body) else None
  }

  /** The per-mint task of `fetchAllMintMetadata`: up to three attempts,
      stopping at the first answer, JSON or not. */
  method FetchMintMetadata(attempts: seq<Attempt>) returns (meta: Option<Json>, tries: nat)
    ensures meta == MintOutcome(attempts)
    ensures 1 <= tries <= MetadataRetries
    ensures forall t :: 0 <= t < tries - 1 ==> AttemptAt(attempts, t).Threw?
    ensures tries < MetadataRetries ==> AttemptAt(attempts, tries - 1).Answered?
  {
    var retries := MetadataRetries;
    meta := None;
    while retries > 0
      invariant 0 < retries <= MetadataRetries
      invariant FirstAnswered(attempts, 0) == FirstAnswered(attempts, MetadataRetries - retries)
      invariant meta.None?
      decreases retries
    {
      var t := MetadataRetries - retries;
      var attempt := AttemptAt(attempts, t);
      if attempt.Answered? {
        if attempt.isJson {
          meta := Some(attempt.body);
        }
        return meta, t + 1;
      }
      retries := retries - 1;
      if retries == 0 {
        return None, MetadataRetries;
      }
    }
  }

  /** The map the batches build: each mint in turn, a later duplicate
      overwriting an earlier one. */
  function MetadataMap(mints: seq<string>, attempts: seq<seq<Attempt>>): map<string, Json>
    requires |attempts| == |mints|
    decreases |mints|
  {
    if mints == [] then map[]
    else
      var n := |mints| - 1;
      var m := MetadataMap(mints[..n], attempts[..n]);
      var o := MintOutcome(attempts[n]);
      if o.Some? then m[mints[n] := o.value] else m
  }

  /** A mint has a document exactly when one of its tasks stored one, and the
      document stored is the outcome of one of its tasks. */
  lemma {:induction false} MetadataMapContents(mints: seq<string>, attempts: seq<seq<Attempt>>)
    requires |attempts| == |mints|
    ensures forall k :: k in MetadataMap(mints, attempts) <==>
      exists i :: 0 <= i < |mints| && mints[i] == k && MintOutcome(attempts[i]).Some?
    ensures forall k :: k in MetadataMap(mints, attempts) ==>
      exists i :: 0 <= i < |mints| && mints[i] == k && MintOutcome(attempts[i]) == Some(MetadataMap(mints, attempts)[k])
    decreases |mints|
  {
    if mints != [] {
      var n := |mints| - 1;
      MetadataMapContents(mints[..n], attempts[..n]);
      assert forall i :: 0 <= i < n ==> mints[..n][i] == mints[i] && attempts[..n][i] == attempts[i];
    }
  }

  /** No mint is asked for twice. */
  predicate DistinctMints(mints: seq<string>) {
    forall i, j :: 0 <= i < j < |mints| ==> mints[i] != mints[j]
  }

  /** The (mint, attempts) pairs of a run, whatever the order they come in. */
  function MintFetches(mints: seq<string>, attempts: seq<seq<Attempt>>): set<(string, seq<Attempt>)>
    requires |attempts| == |mints|
  {
    set i | 0 <= i < |mints| :: (mints[i], attempts[i])
  }

  /** With distinct mints, each mint's entry is its own fetch's outcome. */
  lemma MetadataMapAt(mints: seq<string>, attempts: seq<seq<Attempt>>, i: nat)
    requires |attempts| == |mints| && DistinctMints(mints) && i < |mints|
    ensures mints[i] in MetadataMap(mints, attempts) <==> MintOutcome(attempts[i]).Some?
    ensures mints[i] in MetadataMap(mints, attempts) ==>
      MetadataMap(mints, attempts)[mints[i]] == MintOutcome(attempts[i]).value
  {
    MetadataMapContents(mints, attempts);
    var m := MetadataMap(mints, attempts);
    if mints[i] in m {
      var i' :| 0 <= i' < |mints| && mints[i'] == mints[i] && MintOutcome(attempts[i']) == Some(m[mints[i]]);
      assert i' == i;
    }
  }

  /** The fetches of a batch run concurrently and store their documents as they
      finish; with distinct mints the order they finish in does not matter:
      any two runs over the same fetches build the same map. */
  lemma MetadataMapOrderFree(mints: seq<string>, attempts: seq<seq<Attempt>>,
                             mints': seq<string>, attempts': seq<seq<Attempt>>)
    requires |attempts| == |mints| && |attempts'| == |mints'|
    requires DistinctMints(mints) && DistinctMints(mints')
    requires MintFetches(mints, attempts) == MintFetches(mints', attempts')
    ensures MetadataMap(mints, attempts) == MetadataMap(mints', attempts')
  {
    var m, m' := MetadataMap(mints, attempts), MetadataMap(mints', attempts');
    MetadataMapContents(mints, attempts);
    MetadataMapContents(mints', attempts');
    forall k | k in m ensures k in m' && m'[k] == m[k] {
      var i :| 0 <= i < |mints| && mints[i] == k && MintOutcome(attempts[i]).Some?;
      assert (mints[i], attempts[i]) in MintFetches(mints', attempts');
      var i' :| 0 <= i' < |mints'| && (mints'[i'], attempts'[i']) == (mints[i], attempts[i]);
      MetadataMapAt(mints, attempts, i);
      MetadataMapAt(mints', attempts', i');
    }
    forall k | k in m' ensures k in m {
      var i' :| 0 <= i' < |mints'| && mints'[i'] == k && MintOutcome(attempts'[i']).Some?;
      assert (mints'[i'], attempts'[i']) in MintFetches(mints, attempts);
      var i :| 0 <= i < |mints| && (mints[i], attempts[i]) == (mints'[i'], attempts'[i']);
      MetadataMapAt(mints, attempts, i);
    }
  }

  /** `BATCH_SIZE` of `fetchAllMintMetadata`: mints are fetched 100 at a time. */
  const MetadataBatchSize := 100

  lemma MetadataMapNext(mints: seq<string>, attempts: seq<seq<Attempt>>, j: nat)
    requires |attempts| == |mints| && j < |mints|
    ensures var o := MintOutcome(attempts[j]);
      var m := MetadataMap(mints[..j], attempts[..j]);
      MetadataMap(mints[..j + 1], attempts[..j + 1]) == if o.Some? then m[mints[j] := o.value] else m
  {
    assert mints[..j + 1][..j] == mints[..j] && attempts[..j + 1][..j] == attempts[..j];
  }

  /** `fetchAllMintMetadata`: batches of 100 mints, one after the other. */
  method FetchAllMintMetadata(mints: seq<string>, attempts: seq<seq<Attempt>>) returns (m: map<string, Json>)
    requires |attempts| == |mints|
    ensures m == MetadataMap(mints, attempts)
  {
    m := map[];
    var i := 0;
    while i < |mints|
      invariant 0 <= i <= |mints|
      invariant m == MetadataMap(mints[..i], attempts[..i])
    {
      var end := Min(i + MetadataBatchSize, |mints|);
      m := ProcessBatch(mints, attempts, i, end, m);
      i := end;
    }
    assert mints[..i] == mints && attempts[..i] == attempts;
  }

  /** `processBatch`: fetch the metadata of `mints[i..end]` into `m0`. */
  method ProcessBatch(mints: seq<string>, attempts: seq<seq<Attempt>>, i: nat, end: nat, m0: map<string, Json>)
    returns (m: map<string, Json>)
    requires |attempts| == |mints| && i <= end <= |mints|
    requires m0 == MetadataMap(mints[..i], attempts[..i])
    ensures m == MetadataMap(mints[..end], attempts[..end])
  {
    m := m0;
    var j := i;
    while j < end
      invariant i <= j <= end
      invariant m == MetadataMap(mints[..j], attempts[..j])
    {
      var meta, _ := FetchMintMetadata(attempts[j]);
      MetadataMapNext(mints, attempts, j);
      if meta.Some? {
        m := m[mints[j] := meta.value];
      }
      j := j + 1;
    }
  }
}
