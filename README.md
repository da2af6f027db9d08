# goons-backend synchronisation engine, modelled in Dafny

This is a model of the back end of the Goons NFT marketplace. The back end mirrors a
collection of Solana NFTs from the Tensor marketplace API into a local relational
store. It has four parts:

- **Periodic pass.** `fetchMarketplaceData` pulls every mint of the tracked collections
  together with their metadata and bids. It compares each snapshot row with the stored
  row. It then creates, deletes and rewrites NFT, offer and metadata rows, and marks
  every stored NFT that is missing from the snapshot as burned.
- **Live handlers.** Tensor websocket events (list, delist, buy, bid accepted) are
  applied to single rows.
- **Activity import.** Trade history is imported incrementally, stopping at a per-collection
  watermark. The imported activity is folded into user counters.
- **Connector.** It subscribes to the websocket, keeps it alive with pings, and runs the
  minute-by-minute main loop.

## How the model is built

The store is the class `Db.Store`. Each table is a `map` field: NFTs by address (with
their metadata and offer rows nested inside), activity by txid, users by address,
collections by address, and `memory` (the watermarks).

Every operation that writes the store is a `method` with `modifies store`. Its `ensures`
ties the new tables to a pure function of the old ones, and says which tables stay
unchanged. The properties the code promises are lemmas about those functions:

- The periodic pass converges to the snapshot and is idempotent.
- The history walk never re-imports the watermark.
- Listing overrides listing.
- Cancelling undoes an offer.
- Offer keys stay unique.
- Counters add up.

Upstream answers are parameters of the operations. They include HTTP status
codes, pages, retries, the metadata documents and the on-chain asset lookups.
This makes each loop a fold over a finite sequence of answers. When the answers run out
before the loop finishes, the result records that the loop is still polling.

The connector's module-level globals (`socket`, `lastPongReceived`, the two timer ids,
`subscriptionId`) are fields of the class `Connector.Connection`. Each event callback is
a method. Timers are represented by the time their next firing is due.

The model reproduces these behaviours of the code as written:

- **Shared default user.** `activityToUserUpdate` adds every counter into one shared
  `DEFAULT_USER` object, whose address is `""`. It returns a map holding that one object
  under `""` whenever there is any activity (`Tensor.ActivityToUserUpdate`). So
  `fetchActivityPeriodic` upserts a single user, `""`, with the totals of the whole batch.
  Because the object is never reset, repeated runs keep adding to the earlier totals
  (`Tensor.ImportsAccumulate`).
- **Upsert omits cards.** The raw user upsert never writes `cards`
  (`Workers.UpsertAdds`). The update branch keeps the stored value, and the create
  branch takes the column default.
- **No lastSale on accepted bids.** `onAcceptOffer` does not set `lastSale`, unlike
  `onBuy` (`Handlers.Sale` with `lastSale = None`).
- **Pong watchdog fires at 50 s.** The check uses a strict `> 40000` ms and runs every
  10 s from the moment the socket opens. A pong received on a check tick is therefore
  first found stale 50 s later, not 40 s later (`Connector.PongOnTickReconnectsAtFifty`),
  although the log message at `src/index.ts:74` speaks of 40 seconds. The model follows
  the comparison.
- **SALE_ACCEPT_BID always fails.** The message handler sends `SALE_ACCEPT_BID` to
  `onAcceptOffer` with the Tensor `tx` object. That object has none of the fields the
  handler reads (`nft`, `to`, `sender`, `amountSOL`), so the lookup of an undefined
  address throws and nothing is written (`Connector.Dispatch`).
- **Offer handlers are never dispatched.** `onMakeOffer` and `onCancelOffer` are
  modelled, but their dispatch cases are commented out, so the dispatcher never reaches
  them.
- **Undefined properties break the UPDATE.** The rows queued for update carry the raw
  `properties` of the metadata document, not the formatted value. When that value is
  undefined (no document, or none of its own), the raw UPDATE renders it as the string
  `'undefined'` and throws. The burn never runs, and `main` sleeps 20 s instead of a
  minute (`Workers.UndefinedPropertiesFailUpdate`).
- **Repeated trait keys are rewritten on every pass.** The traits are copied from the
  `attributes` array one to one, so a repeated `trait_type` stays repeated. The
  comparison matches each trait with the first one of its key, so such a record differs
  from its own stored traits, and every pass deletes and re-creates them
  (`Workers.DuplicateTraitsRequeued`). Idempotence (`Workers.PassIdempotent`) is
  proved for snapshots with unique trait keys.
- **Falsy properties are rewritten on every pass.** A raw `properties` of `false`, `0`
  or `""` is stored as it is, but the snapshot compares with the formatted value, which
  is null. The next pass finds the row different and queues it again
  (`Workers.FalsyPropertiesRequeued`).
- **A new main loop per reconnect.** Each reconnect (stale pong or socket error) calls
  `main()` again while the earlier loop keeps running. `Connection.mainRuns` counts the
  loops.

## Model

| member | source | states |
|---|---|---|
| Utils.Lookup | src/utils.ts:21 | a field lookup succeeds exactly when the key is present, and with unique keys it yields that key's value |
| Utils.DeepEqualReflexive | src/utils.ts:17-22 | every well-formed JSON value is deep-equal to itself |
| Utils.DeepEqualIgnoresFieldOrder | src/utils.ts:17-22 | two well-formed objects holding the same fields are deep-equal whatever the order of their fields |
| Utils.NotDifferentFromItself | src/utils.ts:23-31 | a record with well-formed properties is never `different` from itself |
| Utils.FindFirst | src/utils.ts:35 | `find` returns an element whose key matches, the head when the head matches, and None exactly when no element matches |
| Utils.FindFirstIsFirst | src/utils.ts:35 | the element `find` returns sits at a position whose key matches with no earlier element matching: it is the first match |
| Utils.KeyedDifferentIff | src/utils.ts:33-51 | the keyed comparison is false exactly when the lengths agree and every entry of the first side has a first match on the other side with the same value |
| Utils.KeyedDifferentIsSetInequality | src/utils.ts:33-51 | with unique keys on both sides, the comparison is true exactly when the two sets of key/value pairs differ, so it is symmetric |
| Utils.KeyedDifferentOrderInsensitive | src/utils.ts:33-51 | reordering either side does not change the comparison's result when keys are unique |
| Utils.DifferentMetadataIff | src/utils.ts:33-41 | `differentMetadata` is false iff the lengths agree and each trait's first same-key entry has the same value |
| Utils.DifferentOffersIff | src/utils.ts:43-51 | `differentOffers` is false iff the lengths agree and each offer's first same-address entry has the same bid amount |
| Utils.DifferentMetadataIsSetInequality | src/utils.ts:33-41 | with unique trait keys, metadata differs exactly when the key/value sets differ, and the test is symmetric |
| Utils.DifferentOffersIsSetInequality | src/utils.ts:43-51 | with unique offer addresses, offers differ exactly when the address/amount sets differ, and the test is symmetric |
| Utils.SameCollectionsNotDifferent | src/utils.ts:33-51 | a record with unique keys compares equal to itself on both metadata and offers |
| Utils.DifferentMetadataOrderInsensitive | src/utils.ts:33-41 | the metadata comparison does not depend on row order |
| Utils.DifferentOffersOrderInsensitive | src/utils.ts:43-51 | the offer comparison does not depend on row order |
| Utils.FetchNft | src/utils.ts:54-92 | a stored NFT is returned unchanged and nothing is written; an unknown NFT whose asset cannot be fetched fails; an asset verified in a foreign collection is reported out of collection and nothing is written; otherwise a new row is inserted with the asset's name, image, properties and traits, the given owner and listed flag, lastSale 0, no offers |
| Utils.FetchNftIdempotent | src/utils.ts:54-92 | a second lookup of the same address writes nothing and returns the row the first lookup stored |
| Tensor.GetActivityType | src/tensor.ts:196-227 | the Tensor transaction types map to activity types as in the table, and any other type maps to UPDATE |
| Tensor.BlobProperties | src/tensor.ts:120-139 | the `properties` blob is the metadata document's `properties` value when truthy, otherwise JSON null, and stays well formed |
| Tensor.RawProperties | src/workers.ts:76 | the raw `?.properties` of a mint's metadata is defined exactly when the mint has a document that is an object holding a `properties` field |
| Tensor.BlobIsTruthyRaw | src/tensor.ts:138 | the formatted blob is the raw value when it is defined and truthy, and JSON null otherwise |
| Tensor.FormatMint | src/tensor.ts:100-142 | a formatted row carries the mint's address, name and image; it is listed iff it has a listing; the price is the listing price; the owner is the seller when one is set; lastSale defaults to 0; it is not burned; its traits are the attributes; its offers are the bids of a bid entry for its mint (the head entry when it matches, none when no entry matches), all pointing at that mint |
| Tensor.FormatMintFirstOffers | src/tensor.ts:106 | when some bid entry names the mint, the row's offers are the bids of the first such entry |
| Tensor.FormatOffersAndMints | src/tensor.ts:100-142 | one formatted row per mint, in order, never burned, priced only when listed |
| Tensor.CollectPages | src/tensor.ts:6-29 | the crawl of one collection completes exactly when some answer is a last page; it stops at the first last page; a failure repeats the request |
| Tensor.FetchCollectionMints | src/tensor.ts:11-27 | the paging loop returns the crawl `CollectPages` describes |
| Tensor.AllCollectionMints | src/tensor.ts:6-29 | the mints of all collections are available exactly when every collection's crawl completes |
| Tensor.FetchAllCollectionMints | src/tensor.ts:6-29 | the loop over collections returns those mints |
| Tensor.WalkHistory | src/tensor.ts:152-186 | the history loop returns the walk `HistoryWalk` describes, whose rows take the gross amount as it is, a `"0"` amount included, and null only for an empty one |
| Tensor.HistoryWalkShape | src/tensor.ts:152-186 | the walk ends exactly when some page holds the watermark or is the last page; it sends at most one request per answer; no emitted row is the watermark transaction |
| Tensor.HistoryWalkIgnoresLaterAnswers | src/tensor.ts:152-186 | once the walk has ended, extra upstream answers do not change its result |
| Tensor.FirstSeenIsNewest | src/tensor.ts:159-161 | the recorded first transaction is the newest transaction of the first non-empty page |
| Tensor.NewWatermarkIsNewestTransaction | src/tensor.ts:159-191 | the watermark a finished walk stores is the first transaction among the pages it read |
| Tensor.WatermarkSafety | src/tensor.ts:162-166 | when the newest transaction is the watermark, the walk stops after one request, imports nothing, and keeps the watermark |
| Tensor.HistoryCompletenessExample | src/tensor.ts:152-186 | over two pages with the watermark at the head of the second, every transaction of the first page is imported, the new watermark is the newest one, and the second request carries the first page's cursor |
| Tensor.UpsertWatermark | src/tensor.ts:187-191 | the watermark row of the collection is set to the first transaction seen; with none seen, the stored value (or "" on create) is kept; other rows are unchanged |
| Tensor.RerunImportsNothing | src/tensor.ts:144-194 | importing again when the newest transaction is the stored watermark yields no rows and leaves the watermark table unchanged |
| Tensor.ImportStoresFirst | src/tensor.ts:144-194 | after a finished import the watermark row exists and holds the first transaction seen |
| Tensor.FetchTransactionHistoryRecent | src/tensor.ts:144-194 | run over the ids of the collection table (one per row), the per-collection import returns the rows and watermarks `HistoryRun` describes, and touches no other table |
| Tensor.HistoryRunStuck | src/tensor.ts:147-192 | once one collection's walk is still polling, later collections are never reached |
| Tensor.ApplyActivity | src/tensor.ts:240-266 | one activity adds its type's counter and amount into the user object, keeping the address |
| Tensor.ActivityToUserUpdate | src/tensor.ts:228-269 | the shared default user accumulates the counters of every activity; the returned map holds that same object under its own address when there is any activity, and is empty otherwise |
| Tensor.BatchDeltaAdditive | src/tensor.ts:238-269 | the counter contribution of two batches together is the sum of their contributions |
| Tensor.ImportsAccumulate | src/tensor.ts:228-269 | because the default user is shared, two imports in a row leave it with the totals of both batches |
| Tensor.TwoBuysExample | src/tensor.ts:247-250 | two buys of 10 and 15 add 2 to the bought count, 2 to cards, and 25 to the bought value |
| Tensor.OfferBatchesCover | src/tensor.ts:83-96 | the bid requests go out in batches of 1 to 100 mints that together cover every mint once, in order |
| Tensor.FetchOffersForMints | src/tensor.ts:80-99 | each request asks for the next batch after the ones answered so far; a rate-limited answer repeats the request; the fetch is complete iff every batch was answered; the bids are the answered entries, in order |
| Tensor.FirstAnswered | src/tensor.ts:39-67 | at most three attempts are made, and the first that does not throw ends the retries |
| Tensor.FetchMintMetadata | src/tensor.ts:39-67 | one metadata fetch makes 1 to 3 attempts, continuing only past attempts that threw, and yields the JSON of the first answer when it is JSON |
| Tensor.MetadataMapContents | src/tensor.ts:31-78 | a mint has metadata in the map exactly when its fetch yielded JSON, and then the map holds that JSON |
| Tensor.ProcessBatch | src/tensor.ts:36-70 | one batch of up to 100 mints adds each mint's fetched metadata to the map, as `MetadataMap` describes |
| Tensor.MetadataMapAt | src/tensor.ts:31-78 | with distinct mints, a mint has an entry exactly when its own fetch yielded JSON, and the entry is that JSON |
| Tensor.MetadataMapOrderFree | src/tensor.ts:36-37 | the fetches of a batch run concurrently and store their documents as they finish; with distinct mints any two orders of the same (mint, attempts) pairs build the same map |
| Tensor.FetchAllMintMetadata | src/tensor.ts:31-78 | fetching metadata for all mints builds that map |
| Workers.ClassifySnapshot | src/workers.ts:67-108 | the classification loop builds the queues `PlanOf` describes |
| Workers.ClassifyInto | src/workers.ts:68-107 | one snapshot record adds its own share of work to each of the six queues, after the work already queued |
| Workers.PlanQueues | src/workers.ts:67-108 | a record is queued for creation iff it is in the snapshot but not stored; for update iff stored and `different` or burned; its stored traits are queued for deletion iff the metadata differs; its stored offers are queued for deletion iff the offers differ |
| Workers.MatchedRecordQueuesNothing | src/workers.ts:67-108 | a stored, unburned record that matches its snapshot row queues nothing |
| Workers.PlanOfNothing | src/workers.ts:67-108 | a snapshot whose every row matches queues nothing at all |
| Workers.RecordAt | src/workers.ts:141-166 | looking a row up by address in the snapshot or in the update queue finds a row with that address, or reports that none has it |
| Workers.RecordAtIsFirst | src/workers.ts:141-166 | the row found is the earliest with that address, the one the first matching `WHEN` of a `CASE` chain picks |
| Workers.CreateRecords | src/workers.ts:110-113 | `createMany` adds a bare row, with no metadata, no offers and not burned, for each new record, and keeps every stored row |
| Workers.KeepOffers | src/workers.ts:114-121 | deleting offers by address keeps exactly the offers whose address is not in the list |
| Workers.DeleteOffers | src/workers.ts:114-121 | offer deletion keeps every NFT and removes exactly the listed offer addresses |
| Workers.OffersFor | src/workers.ts:122-125 | the offers created for an NFT are exactly the queued offers pointing at it |
| Workers.RegisterAllContents | src/workers.ts:13-35 | after all addresses have been registered, the new table rows are exactly the addresses that resolved, and each holds its resolved id |
| Workers.PassConverges | src/workers.ts:37-182 | on a consistent snapshot where every stored row queued for update has defined raw properties, the seven statements all succeed; afterwards the store holds every stored and every snapshot address; each snapshot address holds its reconciled row, and each stored address missing from the snapshot is marked burned |
| Workers.ReconciledSettles | src/workers.ts:67-108 | for a snapshot row with unique trait keys, unique offer addresses, well-formed properties and properties equal to the value written, the reconciled row no longer differs from it in core fields, metadata or offers |
| Workers.PassIdempotent | src/workers.ts:37-182 | on a consistent snapshot whose queued updates render, whose rows have unique trait keys and well-formed properties, and whose formatted properties are the values the statements write, running the pass again on the same snapshot queues nothing and leaves the store as the first pass left it |
| Workers.DuplicateTraitsRequeued | src/workers.ts:84-86 | a record whose traits repeat a key with two values, and whose traits the pass writes, still differs from its stored traits afterwards, so the next pass deletes and re-creates them |
| Workers.UndefinedPropertiesFailUpdate | src/workers.ts:76-159 | a stored row queued for update whose raw properties are undefined makes the UPDATE fail: the store gains the snapshot's new addresses, every stored row takes its new offers and traits but keeps its other fields, so nothing is rewritten or marked burned |
| Workers.FormattedPropertiesAgree | src/workers.ts:76-98 | the formatted properties of every row equal the value the statements write exactly when each raw value is undefined, null or truthy |
| Workers.FalsyPropertiesRequeued | src/workers.ts:67-108 | a new record whose raw properties are `false` is stored with `false` but formatted as null, so the next pass queues it for update again |
| Workers.EmptyPassKeeps | src/workers.ts:109-178 | a pass with empty queues, where every record missing from the snapshot is already burned, changes nothing |
| Workers.MarkBurnedKeeps | src/workers.ts:169-178 | marking already-burned records as burned changes nothing |
| Workers.Reconcile | src/workers.ts:109-178 | the seven statements update the NFT table as `Pass` describes, writing the raw properties and stopping before the burn when the UPDATE cannot render them, and leave the other tables unchanged |
| Workers.FetchMarketplaceData | src/workers.ts:37-182 | run with one crawl per row of the collection table, the whole periodic pass is `MarketplaceSync`: crawl, metadata, bids, format, reconcile; other tables are unchanged |
| Workers.NoCollectionsBurnsAll | src/workers.ts:37-182 | with no collections the crawl yields nothing, the pass completes, and every stored NFT is marked burned |
| Workers.EmptySnapshotBurnsAll | src/workers.ts:109-178 | the statements over an empty snapshot mark every stored record burned and change nothing else |
| Workers.FormattedCoherent | src/tensor.ts:100-142 | formatted rows keep the mint order and addresses, and every offer points at its own row; the rows are unique exactly when the mints are |
| Workers.FirstSyncStoresSnapshot | src/workers.ts:37-182 | run on an empty store, a pass whose fetches all finish stores exactly the formatted snapshot, each row holding its raw properties (null when undefined) |
| Workers.EmptyStoreTakesSnapshot | src/workers.ts:109-178 | on an empty store, the statements store a consistent, unburned snapshot as it is, apart from properties, which take the raw value |
| Workers.UpsertUsers | src/workers.ts:233-259 | the upsert adds a row for each new address, leaves untouched users alone, and keeps the table's other keys |
| Workers.UpsertAdds | src/workers.ts:233-259 | an upserted user's counters are the stored (or zero) counters plus the update's; `cards` is never written |
| Workers.UpsertsCommute | src/workers.ts:233-259 | two increment upserts give the same table in either order |
| Workers.InsertActivity | src/workers.ts:262-267 | `createMany` with `skipDuplicates` adds a row for every new txid and never overwrites a stored row |
| Workers.InsertFirstWins | src/workers.ts:263-266 | among rows sharing a new txid, the first in the batch is the one stored |
| Workers.InsertPresentKeeps | src/workers.ts:263-266 | inserting rows whose txids are all stored changes nothing |
| Workers.InsertActivityIdempotent | src/workers.ts:263-266 | inserting the same batch twice gives the same table as inserting it once |
| Workers.FetchActivityPeriodic | src/workers.ts:218-268 | run over the ids of the collection table; while the import still polls, only the watermark table changes, holding the watermarks of the collections finished before; a finished import folds the rows into the shared user, upserts it, inserts the rows, and stores the watermarks |
| Workers.StoreImported | src/workers.ts:220-267 | the imported rows are folded into the shared user, that user is upserted, and the rows are inserted; the NFT, collection and watermark tables are unchanged |
| Workers.Resolve | src/workers.ts:15-26 | a resolved collection id is never empty |
| Workers.ResolveFirstAnswer | src/workers.ts:15-26 | the lookup retries while upstream is busy or answers an empty id; the first 404 or non-empty id decides |
| Workers.ResolveCollection | src/workers.ts:15-26 | the retry loop returns what `Resolve` describes |
| Workers.NewAddresses | src/workers.ts:11 | the addresses to register are exactly those not yet in the table |
| Workers.RegisterAll | src/workers.ts:13-35 | registration keeps every stored collection and adds only addresses it was asked to register |
| Workers.DuplicateAddressFails | src/workers.ts:11-35 | an address listed twice is created once and then its second create fails |
| Workers.RerunSkipsResolved | src/workers.ts:11 | after a successful run, a rerun only looks up addresses that were new before and are still unknown |
| Workers.FetchCollections | src/workers.ts:9-36 | the collections loop changes the collections table as `CollectionsRun` describes, and no other table |
| Workers.RegisterNew | src/workers.ts:13-35 | the loop over new addresses resolves each in turn and creates its row, stopping at a lookup that never settles or a create that fails, as `RegisterAll` describes |
| Workers.SelectNew | src/workers.ts:11 | the filter loop returns the addresses not yet in the table |
| Workers.TallyCounts | src/workers.ts:199-205 | each non-empty owner is counted exactly as many times as it owns an asset |
| Workers.CountHolders | src/workers.ts:189-206 | the counting loop tallies owners over every collection's first page |
| Workers.CountPage | src/workers.ts:199-205 | counting one page extends the tally by that page |
| Workers.OwnerPastFirstPageUncounted | src/workers.ts:189-206 | an owner whose assets all lie past the first page of 1000 is not counted |
| Workers.SetCards | src/workers.ts:208-215 | with no holders the raw update is empty and fails; otherwise every user with a count gets that count as its cards, and the others are unchanged |
| Workers.CardsAreHoldings | src/workers.ts:184-216 | a user's cards equal the number of counted assets they own |
| Workers.FetchUserCardsPeriodic | src/workers.ts:184-216 | run with one asset page per row of the collection table, the job reports success iff some holder was counted, and then writes the counted cards |
| Handlers.WithoutMembers | src/handlers.ts:151-155 | deleting an offer by address keeps exactly the other offers |
| Handlers.SetListing | src/handlers.ts:6-60 | listing and delisting fail on lookup when the asset is unknown, fail on update for a foreign NFT, and otherwise set price, listed flag and owner on the looked-up row, leaving every other row alone |
| Handlers.SetListingOverrides | src/handlers.ts:6-60 | a second listing event on the same NFT overrides the first: the result is as if only the second had happened |
| Handlers.OnList | src/handlers.ts:6-32 | LIST sets the price to the gross amount (0 when empty), lists the NFT, and records the seller as owner |
| Handlers.OnDelist | src/handlers.ts:33-60 | DELIST clears the price, unlists the NFT, and records the seller as owner |
| Handlers.Sale | src/handlers.ts:62-119 | a sale fails on lookup for an unknown asset; it fails on update for a foreign NFT or a missing buyer; otherwise it unlists the NFT, clears price and offers, and sets the new owner and (when given) lastSale; its activity row is added only when the txid is new, and otherwise the update stays in place |
| Handlers.SaleReplayRefused | src/handlers.ts:106-116 | replaying an applied sale is refused at the activity insert and changes nothing |
| Handlers.SaleNotAtomic | src/handlers.ts:96-116 | when the txid is already stored the NFT row is still rewritten before the insert fails |
| Handlers.OnBuy | src/handlers.ts:62-119 | SALE_BUY_NOW performs the sale to the buyer with lastSale set to the gross amount, recording a BUY row |
| Handlers.OnAcceptOffer | src/handlers.ts:159-213 | an accepted bid performs the sale to the event's recipient without touching lastSale, recording an ACCEPT_BID row |
| Handlers.MakeOffer | src/handlers.ts:120-144 | a new bid is appended as the placeholder offer; the create fails when the placeholder address is already in use or the NFT is foreign |
| Handlers.SecondOfferRefused | src/handlers.ts:120-144 | because every bid gets the same placeholder address, a second bid on any tracked NFT fails |
| Handlers.OnMakeOffer | src/handlers.ts:120-144 | the bid handler applies `MakeOffer` to the store |
| Handlers.RemoveOffer | src/handlers.ts:145-158 | removing an offer succeeds iff the stored NFT holds an offer with that address, and then removes exactly that offer |
| Handlers.RemoveOfferRemovesOne | src/handlers.ts:145-158 | with unique offer keys, removal deletes exactly one position of the offer list |
| Handlers.SecondRemoveRefused | src/handlers.ts:145-158 | removing the same offer twice fails the second time and changes nothing |
| Handlers.CancelUndoesMakeOffer | src/handlers.ts:120-158 | cancelling the placeholder offer right after making it restores the store the lookup left |
| Handlers.OnCancelOffer | src/handlers.ts:145-158 | a cancelled bid removes its offer, looking up with an empty owner |
| Handlers.OnRejectOffer | src/handlers.ts:214-227 | a rejected bid removes its offer, looking up with the user as owner |
| Handlers.ListingKeepsOfferKeys | src/handlers.ts:6-60 | listing and delisting keep offer addresses unique across the store |
| Handlers.SaleKeepsOfferKeys | src/handlers.ts:62-119 | sales keep offer addresses unique across the store |
| Handlers.MakeOfferKeepsOfferKeys | src/handlers.ts:120-144 | making a bid keeps offer addresses unique across the store |
| Handlers.RemoveOfferKeepsOfferKeys | src/handlers.ts:145-158 | removing a bid keeps offer addresses unique across the store |
| Connector.Dispatch | src/index.ts:105-138 | a newTransaction frame is dispatched by tx type: LIST and DELIST apply a listing change; SALE_BUY_NOW applies the buy; SALE_ACCEPT_BID fails at lookup and writes nothing; any other type is ignored |
| Connector.RoutedTypes | src/index.ts:109-137 | exactly LIST, DELIST, SALE_ACCEPT_BID and SALE_BUY_NOW are dispatched |
| Connector.Connection.SetUp | src/index.ts:33-50 | setting up opens a socket and listens on the first tracked collection's id; it throws (listens on nothing) when the collection is missing or its id is empty |
| Connector.Connection.SendPing | src/index.ts:66-71 | a ping is sent and the next one is scheduled 30 s later |
| Connector.Connection.CheckPongs | src/index.ts:72-82 | the watchdog reconnects exactly when a pong was seen and more than 40 s have passed since it; it then cleans up and starts another main loop, and otherwise checks again in 10 s |
| Connector.Connection.OnOpen | src/index.ts:51-83 | on open the client subscribes to the collection, pings, and runs the pong check; it reconnects exactly when a pong is on record and more than 40 s old, so never before the first pong |
| Connector.Connection.OnError | src/index.ts:84-89 | a socket error cleans up and starts another main loop |
| Connector.Connection.CleanUp | src/index.ts:171-184 | clean-up cancels both timers, drops the socket and forgets the last pong |
| Connector.Connection.OnMessage | src/index.ts:91-144 | a message's first id becomes the subscription id and a later id never replaces it; a pong records the time; a newTransaction is dispatched; a frame that fails to parse changes nothing |
| Connector.ReconnectWindow | src/index.ts:72-82 | a socket that stops answering is reconnected more than 40 s and at most 50 s after its last pong |
| Connector.PongOnTickReconnectsAtFifty | src/index.ts:72-82 | a pong received on a check tick is first found stale at the fifth tick, 50 s later, not 40 s later |
| Connector.MainRoundsLength | src/index.ts:155-165 | the loop sleeps once per finished round and stops early only when a round's fetch never finishes |
| Connector.MainRoundsSleepAt | src/index.ts:155-165 | after a completed pass the loop sleeps one minute, and after a failed pass it sleeps twenty seconds |
| Connector.MainRoundsStuck | src/index.ts:155-165 | once a round hangs, later rounds never run |
| Connector.MainLoop | src/index.ts:155-165 | the main loop runs the periodic pass round after round, as `MainRounds` describes, touching only the NFT table |

## Left out

- HTTP, websocket transport, Prisma and raw SQL text are not modelled. Every upstream answer is a parameter: pages, status codes, thrown fetches, asset lookups and metadata documents. Every statement is its effect on the maps of `Db.Store`.
- Time stamps (`time`, `updatedAt`, expiry computed from `Date.now()`) are not modelled. Expiry is a parameter and the other time fields are dropped.
- Integer widths: BigInt, Int and JavaScript numbers are all unbounded integers. The `BigInt("")` of an empty gross amount is modelled as 0.
- Concurrency: the callbacks and the loops of several running `main()` calls interleave in the source. The model gives each callback as one atomic method and does not model interleavings.
- The preamble of `main` (index.ts:146-154) is not composed into one method. Its steps are modelled separately: `FetchCollections`, `SetUp`, `FetchActivityPeriodic`, `FetchUserCardsPeriodic`. The unawaited `setUpWebsocket` and the unhandled rejection when it throws are not modelled.
- Offer `image`, `name` and `updatedAt`, and metadata row ids, are not modelled. The model has no field for them.
- Row order in tables is not modelled. Tables are maps, and list fields keep insertion order only.
- Uniqueness of collection ids beyond the address key is not modelled.
- The column default of `cards` comes from the database schema, which is not part of this model; it is the constant `Workers.CardsDefault` (0).
- Tensor.FormatMint: `lastSale` is taken as the number the API returns. The JavaScript coercion of a string `lastSalePrice` is not modelled.
- Utils.DeepEqualReflexive: JSON values only. `deepEqual` on other JavaScript objects (dates, BigInt, functions) is not modelled.
- Logging, the Express app, middleware, controllers and routes are outside the modelled core.
- Connector.Connection.OnError: the 1 s sleep before clean-up is not modelled.
- Tensor.ProcessBatch: the fetches of a batch are applied in mint order. When a batch lists the same mint twice, the source keeps whichever fetch finishes last; the model keeps the later position. With distinct mints the order does not matter (`Tensor.MetadataMapOrderFree`).
- JSON values (`Types.Json`) are null, booleans, integers, strings and objects. Arrays are objects keyed by their decimal indices, as `Object.keys` in `deepEqual` sees them. Fractional numbers in metadata documents are not modelled.
- Prisma's handling of a JSON `null` in `createMany`, and SQL quoting of `properties` that contain a single quote, are not modelled. A created row stores the raw properties, or null when undefined.
- The collection lists of the periodic jobs are parameters tied to the collection table by count (and, for the history import, by id). Which crawl belongs to which collection row is not modelled.
