/** The periodic workers (src/workers.ts): the reconciliation pass that
    brings the NFT table in line with a marketplace snapshot, the activity
    import's user upsert and duplicate-skipping insert, the resolution of
    collection ids, and the holder counts behind the users' `cards`. */
module Workers {
  import opened Types
  import opened Utils
  import opened Db
  import opened Tensor

  // ---------------------------------------------------------------------------
  // The plan: the six queues the classification loop fills

  /** A stored metadata row: the NFT it belongs to and its pair. */
  datatype MetadataRow = MetadataRow(nftAddress: string, entry: MetadataEntry)

  /** The six arrays `fetchMarketplaceData` pushes into. Metadata rows are
      deleted by id, and the ids pushed are all ids of one NFT's rows, so the
      deletion queue is kept as the addresses of those NFTs. */
  datatype Plan = Plan(
    toUpdate: seq<NftRecord>,
    toCreate: seq<NftRecord>,
    toCreateMetadata: seq<MetadataRow>,
    toCreateOffers: seq<Offer>,
    toDeleteMetadata: seq<string>,
    toDeleteOffers: seq<string>)

  const EmptyPlan := Plan([], [], [], [], [], [])

  function Then(p: Plan, q: Plan): Plan {
    Plan(p.toUpdate + q.toUpdate, p.toCreate + q.toCreate,
         p.toCreateMetadata + q.toCreateMetadata, p.toCreateOffers + q.toCreateOffers,
         p.toDeleteMetadata + q.toDeleteMetadata, p.toDeleteOffers + q.toDeleteOffers)
  }

  function MetadataRows(nft: NftRecord): seq<MetadataRow> {
    seq(|nft.metadata|, i requires 0 <= i < |nft.metadata| => MetadataRow(nft.address, nft.metadata[i]))
  }

  function OfferAddresses(offers: seq<Offer>): seq<string> {
    seq(|offers|, i requires 0 <= i < |offers| => offers[i].address)
  }

  /** A stored record is rewritten when its core fields differ or it is
      currently marked burned. */
  predicate NeedsUpdate(stored: NftRecord, nft: NftRecord) {
    Different(stored, nft) || stored.burned
  }

  /** What one turn of the classification loop queues for the remote record
      `nft`, against the stored table `db`. */
  function Classify(db: map<string, NftRecord>, nft: NftRecord): Plan {
    if nft.address in db then
      var stored := db[nft.address];
      Plan(
        toUpdate := if NeedsUpdate(stored, nft) then [nft] else [],
        toCreate := [],
        toCreateMetadata := if DifferentMetadata(stored, nft) then MetadataRows(nft) else [],
        toCreateOffers := if DifferentOffers(stored, nft) then nft.offers else [],
        toDeleteMetadata := if DifferentMetadata(stored, nft) then [nft.address] else [],
        toDeleteOffers := if DifferentOffers(stored, nft) then OfferAddresses(stored.offers) else [])
    else
      Plan([], [nft], MetadataRows(nft), nft.offers, [], [])
  }

  /** The queues after the whole snapshot. */
  function PlanOf(db: map<string, NftRecord>, snapshot: seq<NftRecord>): Plan
    decreases |snapshot|
  {
    if snapshot == [] then EmptyPlan
    else
      var n := |snapshot| - 1;
      Then(PlanOf(db, snapshot[..n]), Classify(db, snapshot[n]))
  }

  /** The classification loop of `fetchMarketplaceData`. */
  method ClassifySnapshot(db: map<string, NftRecord>, snapshot: seq<NftRecord>) returns (plan: Plan)
    ensures plan == PlanOf(db, snapshot)
  {
    plan := EmptyPlan;
    for i := 0 to |snapshot|
      invariant plan == PlanOf(db, snapshot[..i])
    {
      PlanOfSnoc(db, snapshot, i);
      plan := ClassifyInto(db, snapshot[i], plan);
    }
    assert snapshot[..|snapshot|] == snapshot;
  }

  /** The body of the classification loop: push one snapshot record's work
      onto the six queues. */
  method ClassifyInto(db: map<string, NftRecord>, nft: NftRecord, acc: Plan) returns (plan: Plan)
    ensures plan == Then(acc, Classify(db, nft))
  {
    var toUpdate, toCreate, toCreateMetadata := acc.toUpdate, acc.toCreate, acc.toCreateMetadata;
    var toCreateOffers, toDeleteMetadata, toDeleteOffers := acc.toCreateOffers, acc.toDeleteMetadata, acc.toDeleteOffers;
    ghost var c := Classify(db, nft);
    if nft.address in db {
      var stored := db[nft.address];
      if Different(stored, nft) || stored.burned {
        toUpdate := toUpdate + [nft];
      }
      assert toUpdate == acc.toUpdate + c.toUpdate;
      if DifferentMetadata(stored, nft) {
        toDeleteMetadata := toDeleteMetadata + [nft.address];
        toCreateMetadata := toCreateMetadata + MetadataRows(nft);
      }
      assert toDeleteMetadata == acc.toDeleteMetadata + c.toDeleteMetadata;
      assert toCreateMetadata == acc.toCreateMetadata + c.toCreateMetadata;
      if DifferentOffers(stored, nft) {
        toDeleteOffers := toDeleteOffers + OfferAddresses(stored.offers);
        toCreateOffers := toCreateOffers + nft.offers;
      }
      assert toDeleteOffers == acc.toDeleteOffers + c.toDeleteOffers;
      assert toCreateOffers == acc.toCreateOffers + c.toCreateOffers;
    } else {
      toCreateMetadata := toCreateMetadata + MetadataRows(nft);
      toCreateOffers := toCreateOffers + nft.offers;
      toCreate := toCreate + [nft];
    }
    plan := Plan(toUpdate, toCreate, toCreateMetadata, toCreateOffers, toDeleteMetadata, toDeleteOffers);
  }

  lemma PlanOfSnoc(db: map<string, NftRecord>, snapshot: seq<NftRecord>, i: nat)
    requires i < |snapshot|
    ensures PlanOf(db, snapshot[..i + 1]) == Then(PlanOf(db, snapshot[..i]), Classify(db, snapshot[i]))
  {
    assert snapshot[..i + 1][..i] == snapshot[..i];
  }

  /** Who gets queued: a remote record is created exactly when its address is
      not stored, and rewritten exactly when it is stored and `different` or
      burned; a stored NFT's metadata and offers are queued for replacement
      exactly when `differentMetadata` and `differentOffers` say so. */
  lemma {:induction false} PlanQueues(db: map<string, NftRecord>, snapshot: seq<NftRecord>)
    ensures forall x :: x in PlanOf(db, snapshot).toCreate <==> x in snapshot && x.address !in db
    ensures forall x :: x in PlanOf(db, snapshot).toUpdate <==>
      x in snapshot && x.address in db && NeedsUpdate(db[x.address], x)
    ensures forall a :: a in PlanOf(db, snapshot).toDeleteMetadata <==>
      exists x :: x in snapshot && x.address == a && a in db && DifferentMetadata(db[a], x)
    ensures forall s :: s in PlanOf(db, snapshot).toDeleteOffers <==>
      exists x :: x in snapshot && x.address in db && DifferentOffers(db[x.address], x) &&
                  s in OfferAddresses(db[x.address].offers)
    decreases |snapshot|
  {
    if snapshot != [] {
      var n := |snapshot| - 1;
      var init := snapshot[..n];
      PlanQueues(db, init);
      assert snapshot == init + [snapshot[n]];
      assert forall x :: x in snapshot <==> x in init || x == snapshot[n];
    }
  }

  /** A stored record that already matches its remote record, has the same
      metadata and offers and is not burned, queues nothing. */
  lemma MatchedRecordQueuesNothing(db: map<string, NftRecord>, nft: NftRecord)
    requires nft.address in db
    requires !Different(db[nft.address], nft) && !db[nft.address].burned
    requires !DifferentMetadata(db[nft.address], nft) && !DifferentOffers(db[nft.address], nft)
    ensures Classify(db, nft) == EmptyPlan
  {
  }

  /** A snapshot all of whose records classify to nothing queues nothing. */
  lemma {:induction false} PlanOfNothing(db: map<string, NftRecord>, snapshot: seq<NftRecord>)
    requires forall i :: 0 <= i < |snapshot| ==> Classify(db, snapshot[i]) == EmptyPlan
    ensures PlanOf(db, snapshot) == EmptyPlan
    decreases |snapshot|
  {
    if snapshot != [] {
      var n := |snapshot| - 1;
      assert forall i :: 0 <= i < n ==> snapshot[..n][i] == snapshot[i];
      PlanOfNothing(db, snapshot[..n]);
    }
  }

  // ---------------------------------------------------------------------------
  // The batch statements, in the order the pass issues them

  function Addresses(rs: seq<NftRecord>): seq<string> {
    seq(|rs|, i requires 0 <= i < |rs| => rs[i].address)
  }

  /** Every address in the queue is distinct. */
  predicate UniqueAddresses(rs: seq<NftRecord>) {
    forall i, j :: 0 <= i < j < |rs| ==> rs[i].address != rs[j].address
  }

  /** The first queued record with address `a` (`CASE "address" WHEN …` picks
      the first matching branch). */
  function RecordAt(rs: seq<NftRecord>, a: string): (r: Option<NftRecord>)
    ensures r.Some? ==> r.value in rs && r.value.address == a
    ensures r.None? ==> forall i :: 0 <= i < |rs| ==> rs[i].address != a
    decreases |rs|
  {
    if rs == [] then None
    else
      var p := RecordAt(rs[..|rs| - 1], a);
      if p.Some? then p
      else if rs[|rs| - 1].address == a then Some(rs[|rs| - 1])
      else None
  }

  /** The record found at `a` is the earliest one in the queue with that address. */
  lemma {:induction false} RecordAtIsFirst(rs: seq<NftRecord>, a: string)
    ensures RecordAt(rs, a).Some? ==>
      exists i :: 0 <= i < |rs| && rs[i] == RecordAt(rs, a).value && forall j :: 0 <= j < i ==> rs[j].address != a
    decreases |rs|
  {
    if rs != [] {
      var init := rs[..|rs| - 1];
      var p := RecordAt(init, a);
      if p.Some? {
        RecordAtIsFirst(init, a);
        var i :| 0 <= i < |init| && init[i] == p.value && forall j :: 0 <= j < i ==> init[j].address != a;
        assert rs[i] == init[i] && RecordAt(rs, a) == p;
        assert forall j :: 0 <= j < i ==> rs[j].address != a by {
          forall j | 0 <= j < i ensures rs[j].address != a { assert rs[j] == init[j]; }
        }
      } else if rs[|rs| - 1].address == a {
        assert forall j :: 0 <= j < |rs| - 1 ==> rs[j].address != a by {
          forall j | 0 <= j < |rs| - 1 ensures rs[j].address != a { assert rs[j] == init[j]; }
        }
        assert RecordAt(rs, a).value == rs[|rs| - 1];
      }
    }
  }

  /** A queue holds a record at `a` exactly when `a` is one of its addresses. */
  lemma RecordAtAddresses(rs: seq<NftRecord>, a: string)
    ensures RecordAt(rs, a).Some? <==> a in Addresses(rs)
  {
    if RecordAt(rs, a).Some? {
      var i :| 0 <= i < |rs| && rs[i] == RecordAt(rs, a).value;
      assert Addresses(rs)[i] == a;
    }
  }

  /** With distinct addresses, the record at an address is the one there. */
  lemma RecordAtUnique(rs: seq<NftRecord>, x: NftRecord)
    requires UniqueAddresses(rs) && x in rs
    ensures RecordAt(rs, x.address) == Some(x)
  {
    var r := RecordAt(rs, x.address);
    var i :| 0 <= i < |rs| && rs[i] == x;
    assert r.Some?;
    var j :| 0 <= j < |rs| && rs[j] == r.value;
  }

  /** `createMany` of the new records succeeds when no address is stored yet
      and none is queued twice. */
  predicate Creatable(nfts: map<string, NftRecord>, batch: seq<NftRecord>) {
    && (forall i :: 0 <= i < |batch| ==> batch[i].address !in nfts)
    && UniqueAddresses(batch)
  }

  /** The `properties` value the statements write for the NFT `a`: the raw
      `?.properties` of its document, queued as is; `null` and `undefined`
      both end as SQL NULL (`createMany` leaves an `undefined` column out). */
  function WrittenProperties(meta: map<string, Json>, a: string): Json {
    RawProperties(meta, a).GetOr(JNull)
  }

  /** The row `createMany` writes: the queued record with its raw
      properties, without its metadata and offer rows, which are created by
      their own statements. */
  function BaseRow(r: NftRecord, meta: map<string, Json>): NftRecord {
    r.(burned := false, metadata := [], offers := [], properties := WrittenProperties(meta, r.address))
  }

  /** `universalNFTData.createMany`. */
  function CreateRecords(nfts: map<string, NftRecord>, batch: seq<NftRecord>, meta: map<string, Json>): (m: map<string, NftRecord>)
    requires Creatable(nfts, batch)
    ensures m.Keys == nfts.Keys + set r | r in batch :: r.address
    ensures forall a :: a in nfts ==> m[a] == nfts[a]
    ensures forall r :: r in batch ==> m[r.address] == BaseRow(r, meta)
    decreases |batch|
  {
    if batch == [] then nfts
    else
      var n := |batch| - 1;
      CreatablePrefix(nfts, batch);
      var prev := CreateRecords(nfts, batch[..n], meta);
      CreateRecordsSnoc(nfts, batch, prev, meta);
      prev[batch[n].address := BaseRow(batch[n], meta)]
  }

  lemma CreatablePrefix(nfts: map<string, NftRecord>, batch: seq<NftRecord>)
    requires Creatable(nfts, batch) && batch != []
    ensures Creatable(nfts, batch[..|batch| - 1])
  {
    var init := batch[..|batch| - 1];
    assert forall i :: 0 <= i < |init| ==> init[i] == batch[i];
  }

  /** The step of `CreateRecords`: one more row, at an address not yet used. */
  lemma CreateRecordsSnoc(nfts: map<string, NftRecord>, batch: seq<NftRecord>, prev: map<string, NftRecord>, meta: map<string, Json>)
    requires Creatable(nfts, batch) && batch != []
    requires prev.Keys == nfts.Keys + set r | r in batch[..|batch| - 1] :: r.address
    requires forall a :: a in nfts ==> prev[a] == nfts[a]
    requires forall r :: r in batch[..|batch| - 1] ==> prev[r.address] == BaseRow(r, meta)
    ensures var m := prev[batch[|batch| - 1].address := BaseRow(batch[|batch| - 1], meta)];
      && m.Keys == nfts.Keys + (set r | r in batch :: r.address)
      && (forall a :: a in nfts ==> m[a] == nfts[a])
      && (forall r :: r in batch ==> m[r.address] == BaseRow(r, meta))
  {
    AddressSetSnoc(batch);
    CreateRecordsSnocRows(nfts, batch, prev, meta);
  }

  lemma AddressSetSnoc(batch: seq<NftRecord>)
    requires batch != []
    ensures (set r | r in batch :: r.address) ==
            (set r | r in batch[..|batch| - 1] :: r.address) + {batch[|batch| - 1].address}
  {
    assert batch == batch[..|batch| - 1] + [batch[|batch| - 1]];
  }

  lemma CreateRecordsSnocRows(nfts: map<string, NftRecord>, batch: seq<NftRecord>, prev: map<string, NftRecord>, meta: map<string, Json>)
    requires Creatable(nfts, batch) && batch != []
    requires forall r :: r in batch[..|batch| - 1] ==> r.address in prev && prev[r.address] == BaseRow(r, meta)
    ensures forall r :: r in batch ==> prev[batch[|batch| - 1].address := BaseRow(batch[|batch| - 1], meta)][r.address] == BaseRow(r, meta)
  {
    var n := |batch| - 1;
    var last := batch[n];
    forall r | r in batch
      ensures prev[last.address := BaseRow(last, meta)][r.address] == BaseRow(r, meta)
    {
      var i :| 0 <= i < |batch| && batch[i] == r;
      if i < n {
        assert batch[..n][i] == r;
        assert r.address != last.address;
      }
    }
  }

  /** The offers whose address is not in `dels`, in their order. */
  function KeepOffers(offers: seq<Offer>, dels: set<string>): (r: seq<Offer>)
    ensures forall o :: o in r <==> o in offers && o.address !in dels
    ensures (forall o :: o in offers ==> o.address !in dels) ==> r == offers
    ensures (forall o :: o in offers ==> o.address in dels) ==> r == []
    decreases |offers|
  {
    if offers == [] then []
    else
      var n := |offers| - 1;
      assert forall o :: o in offers <==> o in offers[..n] || o == offers[n];
      assert offers[..n] + [offers[n]] == offers;
      KeepOffers(offers[..n], dels) + (if offers[n].address in dels then [] else [offers[n]])
  }

  /** `offer.deleteMany` by address, whichever NFT the offer belongs to. */
  function DeleteOffers(nfts: map<string, NftRecord>, dels: seq<string>): (m: map<string, NftRecord>)
    ensures m.Keys == nfts.Keys
    ensures forall a, o :: a in m ==> (o in m[a].offers <==> o in nfts[a].offers && o.address !in dels)
  {
    var ds := set s | s in dels;
    map a | a in nfts :: nfts[a].(offers := KeepOffers(nfts[a].offers, ds))
  }

  /** The queued offers that belong to the NFT `a`, in queue order. */
  function OffersFor(batch: seq<Offer>, a: string): (r: seq<Offer>)
    ensures forall o :: o in r <==> o in batch && o.nftMint == a
    decreases |batch|
  {
    if batch == [] then []
    else
      var n := |batch| - 1;
      assert forall o :: o in batch <==> o in batch[..n] || o == batch[n];
      OffersFor(batch[..n], a) + (if batch[n].nftMint == a then [batch[n]] else [])
  }

  /** No two queued offers share an address. */
  predicate DistinctOffers(batch: seq<Offer>) {
    forall p, q :: 0 <= p < q < |batch| ==> batch[p].address != batch[q].address
  }

  /** `offer.createMany` succeeds when every offer's NFT exists, no offer
      address is in use, and none is queued twice. */
  predicate OffersCreatable(nfts: map<string, NftRecord>, batch: seq<Offer>) {
    && (forall o :: o in batch ==> o.nftMint in nfts && !OfferAddressInUse(nfts, o.address))
    && DistinctOffers(batch)
  }

  /** `offer.createMany`: each offer joins the NFT it names. */
  function CreateOffers(nfts: map<string, NftRecord>, batch: seq<Offer>): (m: map<string, NftRecord>)
    ensures m.Keys == nfts.Keys
  {
    map a | a in nfts :: nfts[a].(offers := nfts[a].offers + OffersFor(batch, a))
  }

  /** `metadata.deleteMany` of all rows of the NFTs `targets`. */
  function DeleteMetadata(nfts: map<string, NftRecord>, targets: seq<string>): (m: map<string, NftRecord>)
    ensures m.Keys == nfts.Keys
  {
    map a | a in nfts :: if a in targets then nfts[a].(metadata := []) else nfts[a]
  }

  /** The queued metadata pairs of the NFT `a`, in queue order. */
  function EntriesFor(rows: seq<MetadataRow>, a: string): seq<MetadataEntry>
    decreases |rows|
  {
    if rows == [] then []
    else
      var n := |rows| - 1;
      EntriesFor(rows[..n], a) + (if rows[n].nftAddress == a then [rows[n].entry] else [])
  }

  /** `metadata.createMany` succeeds when every row's NFT exists. */
  predicate MetadataCreatable(nfts: map<string, NftRecord>, rows: seq<MetadataRow>) {
    forall r :: r in rows ==> r.nftAddress in nfts
  }

  /** `metadata.createMany`. */
  function CreateMetadata(nfts: map<string, NftRecord>, rows: seq<MetadataRow>): (m: map<string, NftRecord>)
    ensures m.Keys == nfts.Keys
  {
    map a | a in nfts :: nfts[a].(metadata := nfts[a].metadata + EntriesFor(rows, a))
  }

  /** The columns the raw `UPDATE` rewrites: price, listed, last sale, owner,
      properties (the queued raw value `p`) and burned (name and image are
      queued but not written). */
  function Rewrite(stored: NftRecord, nft: NftRecord, p: Json): NftRecord {
    stored.(price := nft.price, listed := nft.listed, lastSale := nft.lastSale, owner := nft.owner,
            properties := p, burned := false)
  }

  /** The raw `UPDATE … CASE "address" WHEN …`: each stored NFT with a queued
      record takes the first one's columns. */
  function UpdateCore(nfts: map<string, NftRecord>, toUpdate: seq<NftRecord>, meta: map<string, Json>): (m: map<string, NftRecord>)
    ensures m.Keys == nfts.Keys
  {
    map a | a in nfts :: var u := RecordAt(toUpdate, a);
      if u.Some? then Rewrite(nfts[a], u.value, WrittenProperties(meta, a)) else nfts[a]
  }

  /** The raw `UPDATE` is valid SQL only when every queued record has a
      defined `properties` value: `JSON.stringify(undefined)` is spliced in
      as `'undefined'`, which the JSON column rejects. */
  predicate UpdateRenders(toUpdate: seq<NftRecord>, meta: map<string, Json>) {
    forall u :: u in toUpdate ==> RawProperties(meta, u.address).Some?
  }

  /** `updateMany` with `notIn` the snapshot's addresses: `burned = true`. */
  function MarkBurned(nfts: map<string, NftRecord>, snapshot: seq<string>): (m: map<string, NftRecord>)
    ensures m.Keys == nfts.Keys
  {
    map a | a in nfts :: if a in snapshot then nfts[a] else nfts[a].(burned := true)
  }

  // ---------------------------------------------------------------------------
  // The pass

  /** The statement that threw, if one did. Statements before it have taken
      effect: the pass runs outside a transaction. */
  datatype PassOutcome = Completed | CreateRecordsFailed | CreateOffersFailed | CreateMetadataFailed | UpdateFailed

  /** `fetchMarketplaceData` after the snapshot is formatted: the queues, then
      the seven statements in turn, stopping at the first that throws. `meta`
      is the map of metadata documents, from which the queued rows take their
      raw `properties`. */
  function Pass(db: map<string, NftRecord>, snapshot: seq<NftRecord>, meta: map<string, Json>): (r: (PassOutcome, map<string, NftRecord>))
  {
    var plan := PlanOf(db, snapshot);
    if !Creatable(db, plan.toCreate) then (CreateRecordsFailed, db)
    else AfterRecords(CreateRecords(db, plan.toCreate, meta), plan, snapshot, meta)
  }

  /** The offer statements, once the new records exist. */
  function AfterRecords(s1: map<string, NftRecord>, plan: Plan, snapshot: seq<NftRecord>, meta: map<string, Json>)
    : (PassOutcome, map<string, NftRecord>)
  {
    var s2 := DeleteOffers(s1, plan.toDeleteOffers);
    if !OffersCreatable(s2, plan.toCreateOffers) then (CreateOffersFailed, s2)
    else AfterOffers(CreateOffers(s2, plan.toCreateOffers), plan, snapshot, meta)
  }

  /** The metadata statements, the rewrite and the burn. */
  function AfterOffers(s3: map<string, NftRecord>, plan: Plan, snapshot: seq<NftRecord>, meta: map<string, Json>)
    : (PassOutcome, map<string, NftRecord>)
  {
    var s4 := DeleteMetadata(s3, plan.toDeleteMetadata);
    if !MetadataCreatable(s4, plan.toCreateMetadata) then (CreateMetadataFailed, s4)
    else
      var s5 := CreateMetadata(s4, plan.toCreateMetadata);
      if !UpdateRenders(plan.toUpdate, meta) then (UpdateFailed, s5)
      else (Completed, MarkBurned(UpdateCore(s5, plan.toUpdate, meta), Addresses(snapshot)))
  }

  // ---------------------------------------------------------------------------
  // What a pass over a consistent snapshot leaves behind

  /** Every offer of a remote record names that record's mint, as
      `formatOffersAndMints` builds them. */
  predicate Coherent(snapshot: seq<NftRecord>) {
    forall i, o :: 0 <= i < |snapshot| && o in snapshot[i].offers ==> o.nftMint == snapshot[i].address
  }

  /** No offer address appears twice in the snapshot. */
  predicate SnapshotOffersDistinct(snapshot: seq<NftRecord>) {
    forall i, j, k, l ::
      (0 <= i < |snapshot| && 0 <= j < |snapshot| && 0 <= k < |snapshot[i].offers| &&
       0 <= l < |snapshot[j].offers| && snapshot[i].offers[k].address == snapshot[j].offers[l].address)
      ==> i == j && k == l
  }

  /** A remote offer's address is stored, if at all, on the same NFT. */
  predicate OffersFresh(db: map<string, NftRecord>, snapshot: seq<NftRecord>) {
    forall i, o, a, p ::
      (0 <= i < |snapshot| && o in snapshot[i].offers && a in db && p in db[a].offers && p.address == o.address)
      ==> a == snapshot[i].address
  }

  /** The snapshot and table assumptions under which no statement throws. */
  ghost predicate Consistent(db: map<string, NftRecord>, snapshot: seq<NftRecord>) {
    && UniqueAddresses(snapshot)
    && Coherent(snapshot)
    && SnapshotOffersDistinct(snapshot)
    && OffersFresh(db, snapshot)
    && OfferKeysUnique(db)
  }

  /** The snapshot and table assumption under which the raw `UPDATE` is
      valid: every stored record that will be rewritten has a defined raw
      `properties` value. */
  predicate UpdatesRender(db: map<string, NftRecord>, snapshot: seq<NftRecord>, meta: map<string, Json>) {
    forall x :: x in snapshot && x.address in db && NeedsUpdate(db[x.address], x) ==>
      RawProperties(meta, x.address).Some?
  }

  /** The record a pass should leave for the remote record `nft`: a new one
      as formatted but with the raw properties; a stored one with its core
      columns (and the raw properties) rewritten when it needed it, and its
      metadata and offers replaced when they differed. */
  function Reconciled(db: map<string, NftRecord>, nft: NftRecord, meta: map<string, Json>): NftRecord {
    if nft.address !in db then nft.(burned := false, properties := WrittenProperties(meta, nft.address))
    else
      var stored := db[nft.address];
      var core := if NeedsUpdate(stored, nft) then Rewrite(stored, nft, WrittenProperties(meta, nft.address)) else stored;
      core.(metadata := if DifferentMetadata(stored, nft) then nft.metadata else stored.metadata,
            offers := if DifferentOffers(stored, nft) then nft.offers else stored.offers)
  }

  function QueuedOffers(db: map<string, NftRecord>, nft: NftRecord): seq<Offer> {
    if nft.address !in db || DifferentOffers(db[nft.address], nft) then nft.offers else []
  }

  function QueuedMetadata(db: map<string, NftRecord>, nft: NftRecord): seq<MetadataEntry> {
    if nft.address !in db || DifferentMetadata(db[nft.address], nft) then nft.metadata else []
  }

  lemma OffersForAppend(x: seq<Offer>, y: seq<Offer>, a: string)
    ensures OffersFor(x + y, a) == OffersFor(x, a) + OffersFor(y, a)
    decreases |y|
  {
    if y != [] {
      var n := |y| - 1;
      assert (x + y)[..|x + y| - 1] == x + y[..n];
      OffersForAppend(x, y[..n], a);
    } else {
      assert x + y == x;
    }
  }

  /** Offers that all name `b` are exactly the offers of `b`. */
  lemma {:induction false} OffersForUniform(offers: seq<Offer>, b: string, a: string)
    requires forall o :: o in offers ==> o.nftMint == b
    ensures OffersFor(offers, a) == if a == b then offers else []
    decreases |offers|
  {
    if offers != [] {
      var n := |offers| - 1;
      OffersForUniform(offers[..n], b, a);
      assert offers[..n] + [offers[n]] == offers;
    }
  }

  lemma EntriesForAppend(x: seq<MetadataRow>, y: seq<MetadataRow>, a: string)
    ensures EntriesFor(x + y, a) == EntriesFor(x, a) + EntriesFor(y, a)
    decreases |y|
  {
    if y != [] {
      var n := |y| - 1;
      assert (x + y)[..|x + y| - 1] == x + y[..n];
      EntriesForAppend(x, y[..n], a);
    } else {
      assert x + y == x;
    }
  }

  lemma {:induction false} EntriesForRows(nft: NftRecord, a: string)
    ensures EntriesFor(MetadataRows(nft), a) == if a == nft.address then nft.metadata else []
    decreases |nft.metadata|
  {
    if nft.metadata != [] {
      var n := |nft.metadata| - 1;
      var shorter := nft.(metadata := nft.metadata[..n]);
      EntriesForRows(shorter, a);
      assert MetadataRows(nft)[..n] == MetadataRows(shorter);
      assert nft.metadata[..n] + [nft.metadata[n]] == nft.metadata;
    }
  }

  /** The queued offers of the NFT `a` are those of its remote record, when
      that record's offers were queued. */
  lemma {:induction false} OffersForPlan(db: map<string, NftRecord>, snapshot: seq<NftRecord>, a: string)
    requires UniqueAddresses(snapshot) && Coherent(snapshot)
    ensures OffersFor(PlanOf(db, snapshot).toCreateOffers, a) ==
      (var r := RecordAt(snapshot, a); if r.Some? then QueuedOffers(db, r.value) else [])
    decreases |snapshot|
  {
    if snapshot != [] {
      var n := |snapshot| - 1;
      var init := snapshot[..n];
      PrefixCoherent(snapshot);
      OffersForPlan(db, init, a);
      PlanOffersSnoc(db, snapshot);
      var last := QueuedOffers(db, snapshot[n]);
      OffersForAppend(PlanOf(db, init).toCreateOffers, last, a);
      QueuedOffersFor(db, snapshot[n], a);
      RecordAtSnoc(snapshot, a);
      var prevO, lastO := OffersFor(PlanOf(db, init).toCreateOffers, a), OffersFor(last, a);
      assert OffersFor(PlanOf(db, snapshot).toCreateOffers, a) == prevO + lastO;
      if snapshot[n].address == a {
        assert prevO == [] && RecordAt(snapshot, a) == Some(snapshot[n]);
      } else {
        assert lastO == [] && RecordAt(snapshot, a) == RecordAt(init, a);
      }
    }
  }

  /** Distinct addresses stay distinct in the prefix without the last record. */
  lemma PrefixUnique(snapshot: seq<NftRecord>)
    requires snapshot != [] && UniqueAddresses(snapshot)
    ensures UniqueAddresses(snapshot[..|snapshot| - 1])
  {
    var n := |snapshot| - 1;
    assert forall i :: 0 <= i < n ==> snapshot[..n][i] == snapshot[i];
  }

  /** The properties of a snapshot hold of its prefix without its last record. */
  lemma PrefixCoherent(snapshot: seq<NftRecord>)
    requires snapshot != [] && UniqueAddresses(snapshot) && Coherent(snapshot)
    ensures var n := |snapshot| - 1;
      && UniqueAddresses(snapshot[..n]) && Coherent(snapshot[..n])
      && forall o :: o in snapshot[n].offers ==> o.nftMint == snapshot[n].address
  {
    var n := |snapshot| - 1;
    assert forall i :: 0 <= i < n ==> snapshot[..n][i] == snapshot[i];
  }

  /** In a snapshot of distinct addresses, the last record is found only at
      its own address, and every other address is found in the prefix. */
  lemma RecordAtSnoc(snapshot: seq<NftRecord>, a: string)
    requires snapshot != [] && UniqueAddresses(snapshot)
    ensures var n := |snapshot| - 1;
      RecordAt(snapshot, a) == if snapshot[n].address == a then Some(snapshot[n]) else RecordAt(snapshot[..n], a)
    ensures var n := |snapshot| - 1;
      snapshot[n].address == a ==> RecordAt(snapshot[..n], a).None?
  {
    var n := |snapshot| - 1;
    assert forall j :: 0 <= j < n ==> snapshot[..n][j].address != snapshot[n].address;
  }

  /** The offer queue grows by the queued offers of the last remote record. */
  lemma PlanOffersSnoc(db: map<string, NftRecord>, snapshot: seq<NftRecord>)
    requires snapshot != []
    ensures var n := |snapshot| - 1;
      PlanOf(db, snapshot).toCreateOffers == PlanOf(db, snapshot[..n]).toCreateOffers + QueuedOffers(db, snapshot[n])
  {
  }

  /** The queued offers of a coherent record all belong to its address. */
  lemma QueuedOffersFor(db: map<string, NftRecord>, x: NftRecord, a: string)
    requires forall o :: o in x.offers ==> o.nftMint == x.address
    ensures OffersFor(QueuedOffers(db, x), a) == if x.address == a then QueuedOffers(db, x) else []
  {
    OffersForUniform(QueuedOffers(db, x), x.address, a);
  }

  /** The queued metadata of the NFT `a` is that of its remote record, when
      that record's metadata was queued. */
  lemma {:induction false} EntriesForPlan(db: map<string, NftRecord>, snapshot: seq<NftRecord>, a: string)
    requires UniqueAddresses(snapshot)
    ensures EntriesFor(PlanOf(db, snapshot).toCreateMetadata, a) ==
      (var r := RecordAt(snapshot, a); if r.Some? then QueuedMetadata(db, r.value) else [])
    decreases |snapshot|
  {
    if snapshot != [] {
      var n := |snapshot| - 1;
      var init := snapshot[..n];
      PrefixUnique(snapshot);
      EntriesForPlan(db, init, a);
      var last := Classify(db, snapshot[n]).toCreateMetadata;
      PlanMetadataSnoc(db, snapshot);
      EntriesForAppend(PlanOf(db, init).toCreateMetadata, last, a);
      QueuedMetadataFor(db, snapshot[n], a);
      RecordAtSnoc(snapshot, a);
      var prevE, lastE := EntriesFor(PlanOf(db, init).toCreateMetadata, a), EntriesFor(last, a);
      assert EntriesFor(PlanOf(db, snapshot).toCreateMetadata, a) == prevE + lastE;
      if snapshot[n].address == a {
        assert prevE == [] && RecordAt(snapshot, a) == Some(snapshot[n]);
      } else {
        assert lastE == [] && RecordAt(snapshot, a) == RecordAt(init, a);
      }
    }
  }

  /** The metadata queue grows by the rows of the last remote record. */
  lemma PlanMetadataSnoc(db: map<string, NftRecord>, snapshot: seq<NftRecord>)
    requires snapshot != []
    ensures var n := |snapshot| - 1;
      PlanOf(db, snapshot).toCreateMetadata ==
        PlanOf(db, snapshot[..n]).toCreateMetadata + Classify(db, snapshot[n]).toCreateMetadata
  {
  }

  /** The queued metadata rows of one record all belong to its address. */
  lemma QueuedMetadataFor(db: map<string, NftRecord>, x: NftRecord, a: string)
    ensures EntriesFor(Classify(db, x).toCreateMetadata, a) == if x.address == a then QueuedMetadata(db, x) else []
  {
    EntriesForRows(x, a);
  }

  /** The records queued for creation are distinct and not stored. */
  lemma {:induction false} PlanCreatable(db: map<string, NftRecord>, snapshot: seq<NftRecord>)
    requires UniqueAddresses(snapshot)
    ensures Creatable(db, PlanOf(db, snapshot).toCreate)
    decreases |snapshot|
  {
    if snapshot != [] {
      var n := |snapshot| - 1;
      var init := snapshot[..n];
      assert forall i :: 0 <= i < n ==> init[i] == snapshot[i];
      PlanCreatable(db, init);
      PlanQueues(db, init);
      PlanQueues(db, snapshot);
      var before := PlanOf(db, init).toCreate;
      var add := Classify(db, snapshot[n]).toCreate;
      assert PlanOf(db, snapshot).toCreate == before + add;
      forall i | 0 <= i < |before|
        ensures before[i].address != snapshot[n].address
      {
        assert before[i] in init;
        var k :| 0 <= k < n && init[k] == before[i];
      }
    }
  }

  /** `o` is one of the offers of the remote records. */
  predicate OfferOfSnapshot(snapshot: seq<NftRecord>, o: Offer) {
    exists j, l :: 0 <= j < |snapshot| && 0 <= l < |snapshot[j].offers| && snapshot[j].offers[l] == o
  }

  /** The queued offers are distinct, and each is an offer of some remote
      record. */
  lemma {:induction false} PlanOffersDistinct(db: map<string, NftRecord>, snapshot: seq<NftRecord>)
    requires SnapshotOffersDistinct(snapshot)
    ensures DistinctOffers(PlanOf(db, snapshot).toCreateOffers)
    ensures forall o :: o in PlanOf(db, snapshot).toCreateOffers ==> OfferOfSnapshot(snapshot, o)
    decreases |snapshot|
  {
    if snapshot != [] {
      var n := |snapshot| - 1;
      var init := snapshot[..n];
      assert forall i :: 0 <= i < n ==> init[i] == snapshot[i];
      PlanOffersDistinct(db, init);
      var before := PlanOf(db, init).toCreateOffers;
      var add := Classify(db, snapshot[n]).toCreateOffers;
      assert add == [] || add == snapshot[n].offers;
      var all := PlanOf(db, snapshot).toCreateOffers;
      assert all == before + add;
      forall o | o in all
        ensures OfferOfSnapshot(snapshot, o)
      {
        if o in before {
          assert OfferOfSnapshot(init, o);
          var j, l :| 0 <= j < |init| && 0 <= l < |init[j].offers| && init[j].offers[l] == o;
          assert snapshot[j].offers[l] == o;
        } else {
          var l :| 0 <= l < |add| && add[l] == o;
          assert snapshot[n].offers[l] == o;
        }
      }
      forall p, q | 0 <= p < q < |all|
        ensures all[p].address != all[q].address
      {
        if q >= |before| {
          var l := q - |before|;
          assert all[q] == snapshot[n].offers[l];
          if p < |before| {
            assert before[p] in before;
            assert OfferOfSnapshot(init, before[p]);
            var j, k :| 0 <= j < |init| && 0 <= k < |init[j].offers| && init[j].offers[k] == before[p];
            assert snapshot[j].offers[k] == all[p];
          } else {
            assert all[p] == snapshot[n].offers[p - |before|];
          }
        }
      }
    }
  }

  /** A stored NFT that is not in the snapshot, or whose offers were not
      queued for replacement, keeps every offer through the deletion. */
  lemma OffersKeptAt(db: map<string, NftRecord>, snapshot: seq<NftRecord>, a: string, o: Offer)
    requires UniqueAddresses(snapshot) && OfferKeysUnique(db)
    requires a in db && o in db[a].offers
    requires RecordAt(snapshot, a).None? || !DifferentOffers(db[a], RecordAt(snapshot, a).value)
    ensures o.address !in PlanOf(db, snapshot).toDeleteOffers
  {
    PlanQueues(db, snapshot);
    if o.address in PlanOf(db, snapshot).toDeleteOffers {
      var x :| x in snapshot && x.address in db && DifferentOffers(db[x.address], x) &&
               o.address in OfferAddresses(db[x.address].offers);
      assert false;
    }
  }

  /** The record a complete pass leaves at a stored or created address. */
  function Expected(db: map<string, NftRecord>, snapshot: seq<NftRecord>, a: string, meta: map<string, Json>): NftRecord
    requires a in db || RecordAt(snapshot, a).Some?
  {
    var r := RecordAt(snapshot, a);
    if r.Some? then Reconciled(db, r.value, meta) else db[a].(burned := true)
  }

  /** The offers of `a` after the two offer statements. */
  lemma OffersAt(db: map<string, NftRecord>, snapshot: seq<NftRecord>, plan: Plan,
                 s1: map<string, NftRecord>, s2: map<string, NftRecord>, a: string, meta: map<string, Json>)
    requires UniqueAddresses(snapshot) && Coherent(snapshot) && OfferKeysUnique(db)
    requires plan == PlanOf(db, snapshot) && Creatable(db, plan.toCreate)
    requires s1 == CreateRecords(db, plan.toCreate, meta) && s2 == DeleteOffers(s1, plan.toDeleteOffers)
    requires a in s1
    ensures a in db || RecordAt(snapshot, a).Some?
    ensures CreateOffers(s2, plan.toCreateOffers)[a].offers == Expected(db, snapshot, a, meta).offers
  {
    OffersForPlan(db, snapshot, a);
    KeptAt(db, snapshot, plan, s1, a, meta);
    ExpectedOffers(db, snapshot, a, meta);
    var dels := set d | d in plan.toDeleteOffers;
    assert CreateOffers(s2, plan.toCreateOffers)[a].offers == s2[a].offers + OffersFor(plan.toCreateOffers, a);
    assert s2[a].offers == KeepOffers(s1[a].offers, dels);
  }

  /** The offers `Expected` gives: the stored ones that stay, then the queued ones. */
  lemma ExpectedOffers(db: map<string, NftRecord>, snapshot: seq<NftRecord>, a: string, meta: map<string, Json>)
    requires a in db || RecordAt(snapshot, a).Some?
    ensures var r := RecordAt(snapshot, a);
      Expected(db, snapshot, a, meta).offers ==
        (if a in db && !(r.Some? && DifferentOffers(db[a], r.value)) then db[a].offers else []) +
        (if r.Some? then QueuedOffers(db, r.value) else [])
  {
  }

  /** The offers of `a` that survive the deletion: the stored ones, unless
      the address is new or its offers are replaced. */
  lemma KeptAt(db: map<string, NftRecord>, snapshot: seq<NftRecord>, plan: Plan,
               s1: map<string, NftRecord>, a: string, meta: map<string, Json>)
    requires UniqueAddresses(snapshot) && OfferKeysUnique(db)
    requires plan == PlanOf(db, snapshot) && Creatable(db, plan.toCreate)
    requires s1 == CreateRecords(db, plan.toCreate, meta)
    requires a in s1
    ensures a in db || RecordAt(snapshot, a).Some?
    ensures var r := RecordAt(snapshot, a);
      KeepOffers(s1[a].offers, set d | d in plan.toDeleteOffers) ==
        if a in db && !(r.Some? && DifferentOffers(db[a], r.value)) then db[a].offers else []
  {
    var dels := set d | d in plan.toDeleteOffers;
    var r := RecordAt(snapshot, a);
    if a !in db {
      NewRecordAt(db, snapshot, plan, s1, a, meta);
    } else if r.Some? && DifferentOffers(db[a], r.value) {
      OffersReplacedAt(db, snapshot, a);
    } else {
      forall o | o in db[a].offers
        ensures o.address !in dels
      {
        OffersKeptAt(db, snapshot, a, o);
      }
    }
  }

  /** A created address holds the base row of its remote record. */
  lemma NewRecordAt(db: map<string, NftRecord>, snapshot: seq<NftRecord>, plan: Plan,
                    s1: map<string, NftRecord>, a: string, meta: map<string, Json>)
    requires UniqueAddresses(snapshot)
    requires plan == PlanOf(db, snapshot) && Creatable(db, plan.toCreate)
    requires s1 == CreateRecords(db, plan.toCreate, meta)
    requires a in s1 && a !in db
    ensures RecordAt(snapshot, a).Some? && s1[a] == BaseRow(RecordAt(snapshot, a).value, meta)
  {
    PlanQueues(db, snapshot);
    var x :| x in plan.toCreate && x.address == a;
    RecordAtUnique(snapshot, x);
  }

  /** A stored NFT whose offers differ loses every one of them. */
  lemma OffersReplacedAt(db: map<string, NftRecord>, snapshot: seq<NftRecord>, a: string)
    requires a in db && RecordAt(snapshot, a).Some? && DifferentOffers(db[a], RecordAt(snapshot, a).value)
    ensures forall o :: o in db[a].offers ==> o.address in PlanOf(db, snapshot).toDeleteOffers
  {
    PlanQueues(db, snapshot);
    var x := RecordAt(snapshot, a).value;
    forall o | o in db[a].offers
      ensures o.address in PlanOf(db, snapshot).toDeleteOffers
    {
      var k :| 0 <= k < |db[a].offers| && db[a].offers[k] == o;
      assert OfferAddresses(db[a].offers)[k] == o.address;
    }
  }

  /** The metadata of `a` after the two metadata statements. */
  lemma MetadataAt(db: map<string, NftRecord>, snapshot: seq<NftRecord>, plan: Plan,
                   s1: map<string, NftRecord>, s3: map<string, NftRecord>, a: string, meta: map<string, Json>)
    requires UniqueAddresses(snapshot) && plan == PlanOf(db, snapshot) && Creatable(db, plan.toCreate)
    requires s1 == CreateRecords(db, plan.toCreate, meta) && s3.Keys == s1.Keys
    requires forall b :: b in s3 ==> s3[b].metadata == s1[b].metadata
    requires a in s1
    ensures a in db || RecordAt(snapshot, a).Some?
    ensures CreateMetadata(DeleteMetadata(s3, plan.toDeleteMetadata), plan.toCreateMetadata)[a].metadata
            == Expected(db, snapshot, a, meta).metadata
  {
    EntriesForPlan(db, snapshot, a);
    MetadataLeftAt(db, snapshot, plan, s1, s3, a, meta);
    ExpectedMetadata(db, snapshot, a, meta);
    var s4 := DeleteMetadata(s3, plan.toDeleteMetadata);
    assert CreateMetadata(s4, plan.toCreateMetadata)[a].metadata == s4[a].metadata + EntriesFor(plan.toCreateMetadata, a);
  }

  /** The metadata of `a` after the deletion: the stored entries, unless the
      address is new or its metadata is replaced. */
  lemma MetadataLeftAt(db: map<string, NftRecord>, snapshot: seq<NftRecord>, plan: Plan,
                       s1: map<string, NftRecord>, s3: map<string, NftRecord>, a: string, meta: map<string, Json>)
    requires UniqueAddresses(snapshot) && plan == PlanOf(db, snapshot) && Creatable(db, plan.toCreate)
    requires s1 == CreateRecords(db, plan.toCreate, meta) && s3.Keys == s1.Keys
    requires forall b :: b in s3 ==> s3[b].metadata == s1[b].metadata
    requires a in s1
    ensures a in db || RecordAt(snapshot, a).Some?
    ensures var r := RecordAt(snapshot, a);
      DeleteMetadata(s3, plan.toDeleteMetadata)[a].metadata ==
        if a in db && !(r.Some? && DifferentMetadata(db[a], r.value)) then db[a].metadata else []
  {
    var s4 := DeleteMetadata(s3, plan.toDeleteMetadata);
    var r := RecordAt(snapshot, a);
    if a !in db {
      NewRecordAt(db, snapshot, plan, s1, a, meta);
      MetadataKeptAt(db, snapshot, a);
      assert s4[a].metadata == [];
    } else {
      assert s1[a] == db[a];
      MetadataReplacedAt(db, snapshot, a);
    }
  }

  /** The metadata `Expected` gives: the stored entries that stay, then the queued ones. */
  lemma ExpectedMetadata(db: map<string, NftRecord>, snapshot: seq<NftRecord>, a: string, meta: map<string, Json>)
    requires a in db || RecordAt(snapshot, a).Some?
    ensures var r := RecordAt(snapshot, a);
      Expected(db, snapshot, a, meta).metadata ==
        (if a in db && !(r.Some? && DifferentMetadata(db[a], r.value)) then db[a].metadata else []) +
        (if r.Some? then QueuedMetadata(db, r.value) else [])
  {
  }

  /** A created address is never queued for metadata deletion. */
  lemma MetadataKeptAt(db: map<string, NftRecord>, snapshot: seq<NftRecord>, a: string)
    requires a !in db
    ensures a !in PlanOf(db, snapshot).toDeleteMetadata
  {
    PlanQueues(db, snapshot);
  }

  /** A stored address has its metadata deleted exactly when its remote
      record's metadata differs. */
  lemma MetadataReplacedAt(db: map<string, NftRecord>, snapshot: seq<NftRecord>, a: string)
    requires UniqueAddresses(snapshot) && a in db
    ensures a in PlanOf(db, snapshot).toDeleteMetadata <==>
      RecordAt(snapshot, a).Some? && DifferentMetadata(db[a], RecordAt(snapshot, a).value)
  {
    PlanQueues(db, snapshot);
    if a in PlanOf(db, snapshot).toDeleteMetadata {
      var x :| x in snapshot && x.address == a && a in db && DifferentMetadata(db[a], x);
      RecordAtUnique(snapshot, x);
    }
  }

  /** The queued rewrite of `a`, if any, is its remote record's. */
  lemma UpdateAt(db: map<string, NftRecord>, snapshot: seq<NftRecord>, a: string)
    requires UniqueAddresses(snapshot)
    ensures var r := RecordAt(snapshot, a);
      RecordAt(PlanOf(db, snapshot).toUpdate, a) ==
        (if r.Some? && a in db && NeedsUpdate(db[a], r.value) then r else None)
  {
    PlanQueues(db, snapshot);
    var r := RecordAt(snapshot, a);
    var u := RecordAt(PlanOf(db, snapshot).toUpdate, a);
    if u.Some? {
      RecordAtUnique(snapshot, u.value);
    }
  }

  /** After the deletion, every queued offer can be created. */
  lemma OffersCreatableAfterDelete(db: map<string, NftRecord>, snapshot: seq<NftRecord>, plan: Plan,
                                   s1: map<string, NftRecord>, s2: map<string, NftRecord>, meta: map<string, Json>)
    requires Consistent(db, snapshot)
    requires plan == PlanOf(db, snapshot) && Creatable(db, plan.toCreate)
    requires s1 == CreateRecords(db, plan.toCreate, meta) && s2 == DeleteOffers(s1, plan.toDeleteOffers)
    ensures OffersCreatable(s2, plan.toCreateOffers)
  {
    PlanOffersDistinct(db, snapshot);
    forall o | o in plan.toCreateOffers
      ensures o.nftMint in s2 && !OfferAddressInUse(s2, o.address)
    {
      QueuedOfferFree(db, snapshot, plan, s1, s2, o, meta);
    }
  }

  /** One queued offer: its record exists and its address is free. */
  lemma QueuedOfferFree(db: map<string, NftRecord>, snapshot: seq<NftRecord>, plan: Plan,
                        s1: map<string, NftRecord>, s2: map<string, NftRecord>, o: Offer, meta: map<string, Json>)
    requires Consistent(db, snapshot)
    requires plan == PlanOf(db, snapshot) && Creatable(db, plan.toCreate)
    requires s1 == CreateRecords(db, plan.toCreate, meta) && s2 == DeleteOffers(s1, plan.toDeleteOffers)
    requires o in plan.toCreateOffers
    ensures o.nftMint in s2 && !OfferAddressInUse(s2, o.address)
  {
    PlanOffersDistinct(db, snapshot);
    PlanQueues(db, snapshot);
    assert OfferOfSnapshot(snapshot, o);
    var j, l :| 0 <= j < |snapshot| && 0 <= l < |snapshot[j].offers| && snapshot[j].offers[l] == o;
    var x := snapshot[j];
    assert o in x.offers && o.nftMint == x.address;
    if x.address !in db {
      assert x in plan.toCreate;
    }
    forall b | b in s2
      ensures forall p :: p in s2[b].offers ==> p.address != o.address
    {
      SurvivorsDiffer(db, snapshot, plan, s1, s2, o, x, b, meta);
    }
  }

  /** No offer surviving the deletion shares its address with a queued one. */
  lemma SurvivorsDiffer(db: map<string, NftRecord>, snapshot: seq<NftRecord>, plan: Plan,
                        s1: map<string, NftRecord>, s2: map<string, NftRecord>, o: Offer, x: NftRecord, b: string, meta: map<string, Json>)
    requires Consistent(db, snapshot)
    requires plan == PlanOf(db, snapshot) && Creatable(db, plan.toCreate)
    requires s1 == CreateRecords(db, plan.toCreate, meta) && s2 == DeleteOffers(s1, plan.toDeleteOffers)
    requires o in plan.toCreateOffers && x in snapshot && o in x.offers && o.nftMint == x.address
    requires b in s2
    ensures forall p :: p in s2[b].offers ==> p.address != o.address
  {
    PlanOffersDistinct(db, snapshot);
    PlanQueues(db, snapshot);
    forall p | p in s2[b].offers
      ensures p.address != o.address
    {
      if p.address == o.address {
        assert p in s1[b].offers && p.address !in plan.toDeleteOffers;
        if b !in db {
          NewRecordAt(db, snapshot, plan, s1, b, meta);
          assert false;
        }
        assert s1[b] == db[b];
        assert b == x.address;
        RecordAtUnique(snapshot, x);
        OffersForPlan(db, snapshot, b);
        assert o in OffersFor(plan.toCreateOffers, b);
        OffersReplacedAt(db, snapshot, b);
        assert false;
      }
    }
  }

  /** A pass over a consistent snapshot, whose rewritten records all have a
      defined raw `properties`, completes. Each remote record's
      address then holds the record `Reconciled` describes, every stored NFT
      missing from the snapshot is kept and marked burned, and no other
      address appears. */
  lemma PassConverges(db: map<string, NftRecord>, snapshot: seq<NftRecord>, meta: map<string, Json>)
    requires Consistent(db, snapshot) && UpdatesRender(db, snapshot, meta)
    ensures Pass(db, snapshot, meta).0 == Completed
    ensures Pass(db, snapshot, meta).1.Keys == db.Keys + set x | x in snapshot :: x.address
    ensures forall x :: x in snapshot ==> Pass(db, snapshot, meta).1[x.address] == Reconciled(db, x, meta)
    ensures forall a :: a in db && a !in Addresses(snapshot) ==> Pass(db, snapshot, meta).1[a] == db[a].(burned := true)
  {
    PassStages(db, snapshot, meta);
    var s7 := Pass(db, snapshot, meta).1;
    forall x | x in snapshot
      ensures s7[x.address] == Reconciled(db, x, meta)
    {
      RecordAtUnique(snapshot, x);
    }
    forall a | a in db && a !in Addresses(snapshot)
      ensures s7[a] == db[a].(burned := true)
    {
      RecordAtAddresses(snapshot, a);
    }
  }

  /** The pass runs every stage and leaves each record as `Expected` says. */
  lemma PassStages(db: map<string, NftRecord>, snapshot: seq<NftRecord>, meta: map<string, Json>)
    requires Consistent(db, snapshot) && UpdatesRender(db, snapshot, meta)
    ensures Pass(db, snapshot, meta).0 == Completed
    ensures Pass(db, snapshot, meta).1.Keys == db.Keys + set x | x in snapshot :: x.address
    ensures forall a :: a in Pass(db, snapshot, meta).1 ==>
      (a in db || RecordAt(snapshot, a).Some?) && Pass(db, snapshot, meta).1[a] == Expected(db, snapshot, a, meta)
  {
    var plan := PlanOf(db, snapshot);
    PlanCreatable(db, snapshot);
    var s1 := CreateRecords(db, plan.toCreate, meta);
    PassTail(db, snapshot, plan, s1, meta);
    assert Pass(db, snapshot, meta) == AfterRecords(s1, plan, snapshot, meta);
  }

  /** The stages after the records are created. */
  lemma PassTail(db: map<string, NftRecord>, snapshot: seq<NftRecord>, plan: Plan, s1: map<string, NftRecord>, meta: map<string, Json>)
    requires Consistent(db, snapshot) && UpdatesRender(db, snapshot, meta)
    requires plan == PlanOf(db, snapshot) && Creatable(db, plan.toCreate)
    requires s1 == CreateRecords(db, plan.toCreate, meta)
    ensures AfterRecords(s1, plan, snapshot, meta).0 == Completed
    ensures AfterRecords(s1, plan, snapshot, meta).1.Keys == db.Keys + set x | x in snapshot :: x.address
    ensures forall a :: a in AfterRecords(s1, plan, snapshot, meta).1 ==>
      (a in db || RecordAt(snapshot, a).Some?) && AfterRecords(s1, plan, snapshot, meta).1[a] == Expected(db, snapshot, a, meta)
  {
    PlanQueues(db, snapshot);
    QueuedRowsCreatable(db, snapshot, plan, s1, meta);
    PlanRenders(db, snapshot, meta);
    var s2 := DeleteOffers(s1, plan.toDeleteOffers);
    var s3 := CreateOffers(s2, plan.toCreateOffers);
    var s4 := DeleteMetadata(s3, plan.toDeleteMetadata);
    var s5 := CreateMetadata(s4, plan.toCreateMetadata);
    var s6 := UpdateCore(s5, plan.toUpdate, meta);
    var s7 := MarkBurned(s6, Addresses(snapshot));
    assert AfterRecords(s1, plan, snapshot, meta) == (Completed, s7);
    PassEverywhere(db, snapshot, plan, s1, s2, s3, s4, s5, s6, meta);
    assert s7.Keys == s1.Keys;
    CreatedKeys(db, snapshot, plan.toCreate);
  }

  /** Over a consistent snapshot the offer and metadata statements succeed. */
  lemma QueuedRowsCreatable(db: map<string, NftRecord>, snapshot: seq<NftRecord>, plan: Plan,
                            s1: map<string, NftRecord>, meta: map<string, Json>)
    requires Consistent(db, snapshot)
    requires plan == PlanOf(db, snapshot) && Creatable(db, plan.toCreate)
    requires s1 == CreateRecords(db, plan.toCreate, meta)
    ensures OffersCreatable(DeleteOffers(s1, plan.toDeleteOffers), plan.toCreateOffers)
    ensures MetadataCreatable(DeleteMetadata(CreateOffers(DeleteOffers(s1, plan.toDeleteOffers), plan.toCreateOffers),
                                             plan.toDeleteMetadata), plan.toCreateMetadata)
  {
    PlanQueues(db, snapshot);
    var s2 := DeleteOffers(s1, plan.toDeleteOffers);
    OffersCreatableAfterDelete(db, snapshot, plan, s1, s2, meta);
    var s4 := DeleteMetadata(CreateOffers(s2, plan.toCreateOffers), plan.toDeleteMetadata);
    forall r | r in plan.toCreateMetadata
      ensures r.nftAddress in s4
    {
      MetadataRowOwner(db, snapshot, r);
    }
  }

  /** Every record queued for the rewrite has a defined raw `properties`. */
  lemma PlanRenders(db: map<string, NftRecord>, snapshot: seq<NftRecord>, meta: map<string, Json>)
    requires UpdatesRender(db, snapshot, meta)
    ensures UpdateRenders(PlanOf(db, snapshot).toUpdate, meta)
  {
    PlanQueues(db, snapshot);
  }

  /** A pass over a consistent snapshot in which a stored record that needs
      rewriting has no defined raw `properties` throws at the raw `UPDATE`.
      The offer and metadata statements have taken effect by then, but no
      core column is rewritten and no absent NFT is marked burned. */
  lemma UndefinedPropertiesFailUpdate(db: map<string, NftRecord>, snapshot: seq<NftRecord>,
                                      meta: map<string, Json>, x: NftRecord)
    requires Consistent(db, snapshot)
    requires x in snapshot && x.address in db && NeedsUpdate(db[x.address], x)
    requires RawProperties(meta, x.address).None?
    ensures Pass(db, snapshot, meta).0 == UpdateFailed
    ensures Pass(db, snapshot, meta).1.Keys == db.Keys + set y | y in snapshot :: y.address
    ensures forall a :: a in db ==>
      Pass(db, snapshot, meta).1[a] ==
        db[a].(offers := Expected(db, snapshot, a, meta).offers, metadata := Expected(db, snapshot, a, meta).metadata)
  {
    var plan := PlanOf(db, snapshot);
    PlanCreatable(db, snapshot);
    PlanQueues(db, snapshot);
    var s1 := CreateRecords(db, plan.toCreate, meta);
    QueuedRowsCreatable(db, snapshot, plan, s1, meta);
    var s2 := DeleteOffers(s1, plan.toDeleteOffers);
    var s3 := CreateOffers(s2, plan.toCreateOffers);
    var s4 := DeleteMetadata(s3, plan.toDeleteMetadata);
    var s5 := CreateMetadata(s4, plan.toCreateMetadata);
    assert x in plan.toUpdate;
    assert Pass(db, snapshot, meta) == (UpdateFailed, s5);
    forall a | a in db
      ensures s5[a] == db[a].(offers := Expected(db, snapshot, a, meta).offers,
                              metadata := Expected(db, snapshot, a, meta).metadata)
    {
      FrameAt(plan, s1, s2, s3, s4, s5, a);
      OffersAt(db, snapshot, plan, s1, s2, a, meta);
      MetadataAt(db, snapshot, plan, s1, s3, a, meta);
    }
    CreatedKeys(db, snapshot, plan.toCreate);
  }

  /** Creating the records missing from the store covers the whole snapshot. */
  lemma CreatedKeys(db: map<string, NftRecord>, snapshot: seq<NftRecord>, toCreate: seq<NftRecord>)
    requires forall x :: x in toCreate <==> x in snapshot && x.address !in db
    ensures db.Keys + (set r | r in toCreate :: r.address) == db.Keys + set x | x in snapshot :: x.address
  {
  }

  /** `PassAt` at every address of the store. */
  lemma PassEverywhere(db: map<string, NftRecord>, snapshot: seq<NftRecord>, plan: Plan,
                       s1: map<string, NftRecord>, s2: map<string, NftRecord>, s3: map<string, NftRecord>,
                       s4: map<string, NftRecord>, s5: map<string, NftRecord>, s6: map<string, NftRecord>, meta: map<string, Json>)
    requires UniqueAddresses(snapshot) && Coherent(snapshot) && OfferKeysUnique(db)
    requires plan == PlanOf(db, snapshot) && Creatable(db, plan.toCreate)
    requires s1 == CreateRecords(db, plan.toCreate, meta) && s2 == DeleteOffers(s1, plan.toDeleteOffers)
    requires s3 == CreateOffers(s2, plan.toCreateOffers) && s4 == DeleteMetadata(s3, plan.toDeleteMetadata)
    requires s5 == CreateMetadata(s4, plan.toCreateMetadata) && s6 == UpdateCore(s5, plan.toUpdate, meta)
    ensures forall a :: a in s1 ==>
      (a in db || RecordAt(snapshot, a).Some?) && MarkBurned(s6, Addresses(snapshot))[a] == Expected(db, snapshot, a, meta)
  {
    forall a | a in s1
      ensures (a in db || RecordAt(snapshot, a).Some?) && MarkBurned(s6, Addresses(snapshot))[a] == Expected(db, snapshot, a, meta)
    {
      PassAt(db, snapshot, plan, s1, s2, s3, s4, s5, s6, a, meta);
    }
  }

  /** Every queued metadata row names a remote record. */
  lemma {:induction false} MetadataRowOwner(db: map<string, NftRecord>, snapshot: seq<NftRecord>, r: MetadataRow)
    requires r in PlanOf(db, snapshot).toCreateMetadata
    ensures exists x :: x in snapshot && x.address == r.nftAddress
    decreases |snapshot|
  {
    var n := |snapshot| - 1;
    var init := snapshot[..n];
    assert PlanOf(db, snapshot).toCreateMetadata == PlanOf(db, init).toCreateMetadata + Classify(db, snapshot[n]).toCreateMetadata;
    if r in PlanOf(db, init).toCreateMetadata {
      MetadataRowOwner(db, init, r);
      var x :| x in init && x.address == r.nftAddress;
      assert x in snapshot;
    } else {
      assert r in MetadataRows(snapshot[n]);
    }
  }

  /** The statements after the record creation touch only the offers and
      the metadata, until the rewrite. */
  lemma FrameAt(plan: Plan, s1: map<string, NftRecord>, s2: map<string, NftRecord>, s3: map<string, NftRecord>,
                s4: map<string, NftRecord>, s5: map<string, NftRecord>, a: string)
    requires s2 == DeleteOffers(s1, plan.toDeleteOffers)
    requires s3 == CreateOffers(s2, plan.toCreateOffers) && s4 == DeleteMetadata(s3, plan.toDeleteMetadata)
    requires s5 == CreateMetadata(s4, plan.toCreateMetadata)
    requires a in s1
    ensures a in s5 && s5[a] == s1[a].(offers := s3[a].offers, metadata := s5[a].metadata)
    ensures forall b :: b in s3 ==> s3[b].metadata == s1[b].metadata
  {
  }

  /** One address through the seven statements. */
  lemma PassAt(db: map<string, NftRecord>, snapshot: seq<NftRecord>, plan: Plan,
               s1: map<string, NftRecord>, s2: map<string, NftRecord>, s3: map<string, NftRecord>,
               s4: map<string, NftRecord>, s5: map<string, NftRecord>, s6: map<string, NftRecord>, a: string, meta: map<string, Json>)
    requires UniqueAddresses(snapshot) && Coherent(snapshot) && OfferKeysUnique(db)
    requires plan == PlanOf(db, snapshot) && Creatable(db, plan.toCreate)
    requires s1 == CreateRecords(db, plan.toCreate, meta) && s2 == DeleteOffers(s1, plan.toDeleteOffers)
    requires s3 == CreateOffers(s2, plan.toCreateOffers) && s4 == DeleteMetadata(s3, plan.toDeleteMetadata)
    requires s5 == CreateMetadata(s4, plan.toCreateMetadata) && s6 == UpdateCore(s5, plan.toUpdate, meta)
    requires a in s1
    ensures a in db || RecordAt(snapshot, a).Some?
    ensures MarkBurned(s6, Addresses(snapshot))[a] == Expected(db, snapshot, a, meta)
  {
    FrameAt(plan, s1, s2, s3, s4, s5, a);
    OffersAt(db, snapshot, plan, s1, s2, a, meta);
    MetadataAt(db, snapshot, plan, s1, s3, a, meta);
    UpdateAt(db, snapshot, a);
    var r := RecordAt(snapshot, a);
    var base := if r.Some? && a !in db then BaseRow(r.value, meta) else db[a];
    if r.Some? && a !in db {
      NewRecordAt(db, snapshot, plan, s1, a, meta);
    }
    FinishAt(db, snapshot, a, base, s5[a], s6[a], RecordAt(plan.toUpdate, a), meta);
  }

  /** The last two statements at one address. */
  lemma FinishAt(db: map<string, NftRecord>, snapshot: seq<NftRecord>, a: string, base: NftRecord,
                 at5: NftRecord, at6: NftRecord, u: Option<NftRecord>, meta: map<string, Json>)
    requires a in db || RecordAt(snapshot, a).Some?
    requires base == if RecordAt(snapshot, a).Some? && a !in db then BaseRow(RecordAt(snapshot, a).value, meta) else db[a]
    requires at5 == base.(offers := Expected(db, snapshot, a, meta).offers, metadata := Expected(db, snapshot, a, meta).metadata)
    requires var r := RecordAt(snapshot, a);
      u == (if r.Some? && a in db && NeedsUpdate(db[a], r.value) then r else None)
    requires at6 == if u.Some? then Rewrite(at5, u.value, WrittenProperties(meta, a)) else at5
    ensures (if a in Addresses(snapshot) then at6 else at6.(burned := true)) == Expected(db, snapshot, a, meta)
  {
    var r := RecordAt(snapshot, a);
    if r.Some? {
      var i :| 0 <= i < |snapshot| && snapshot[i] == r.value;
      assert Addresses(snapshot)[i] == a;
    } else {
      assert a !in Addresses(snapshot);
    }
  }

  // ---------------------------------------------------------------------------
  // A second pass over the same snapshot changes nothing

  /** The remote records carry unique trait keys and well-formed properties.
      `formatOffersAndMints` copies the `attributes` one to one, so a
      document that repeats a `trait_type` breaks the first condition
      (`DuplicateTraitsRequeued`). */
  predicate Settleable(snapshot: seq<NftRecord>) {
    forall i :: 0 <= i < |snapshot| ==>
      UniqueKeys(snapshot[i].metadata, MetaKey) && WellFormed(snapshot[i].properties)
  }

  /** A reconciled record matches its remote record in every respect the
      classification looks at. */
  lemma ReconciledSettles(db: map<string, NftRecord>, x: NftRecord, meta: map<string, Json>)
    requires UniqueKeys(x.metadata, MetaKey) && UniqueKeys(x.offers, OfferAddress) && WellFormed(x.properties)
    requires WrittenProperties(meta, x.address) == x.properties
    ensures !NeedsUpdate(Reconciled(db, x, meta), x)
    ensures !DifferentMetadata(Reconciled(db, x, meta), x) && !DifferentOffers(Reconciled(db, x, meta), x)
  {
    NotDifferentFromItself(x);
    SameCollectionsNotDifferent(x);
  }

  /** Each remote record's formatted `properties` is the value the
      statements write for it. This fails only for a document whose raw
      `properties` is falsy but not null (`0`, `false`, `""`), which the
      formatting turns into null (`FormattedPropertiesAgree`). */
  predicate PropertiesAgree(snapshot: seq<NftRecord>, meta: map<string, Json>) {
    forall i :: 0 <= i < |snapshot| ==> snapshot[i].properties == WrittenProperties(meta, snapshot[i].address)
  }

  /** The formatted records agree with the written properties exactly when
      no document has a falsy `properties` other than null. */
  lemma FormattedPropertiesAgree(mints: seq<MintResp>, offers: seq<MintBids>, meta: map<string, Json>)
    ensures PropertiesAgree(FormatOffersAndMints(mints, offers, meta), meta) <==>
      forall i :: 0 <= i < |mints| ==>
        var raw := RawProperties(meta, mints[i].mint);
        raw.None? || raw.value == JNull || Truthy(raw.value)
  {
    var snapshot := FormatOffersAndMints(mints, offers, meta);
    forall i | 0 <= i < |mints|
      ensures var raw := RawProperties(meta, mints[i].mint);
        snapshot[i].properties == WrittenProperties(meta, snapshot[i].address) <==>
        raw.None? || raw.value == JNull || Truthy(raw.value)
    {
      BlobIsTruthyRaw(meta, mints[i].mint);
    }
  }

  /** A new NFT whose document's `properties` is `false` is stored with
      `false` but formatted as null, so the next pass over the same snapshot
      queues it for the rewrite again, as will every pass after it. */
  lemma FalsyPropertiesRequeued(db: map<string, NftRecord>, snapshot: seq<NftRecord>,
                                meta: map<string, Json>, x: NftRecord)
    requires Consistent(db, snapshot) && UpdatesRender(db, snapshot, meta)
    requires x in snapshot && x.address !in db && x.properties == JNull
    requires RawProperties(meta, x.address) == Some(JBool(false))
    ensures Classify(Pass(db, snapshot, meta).1, x).toUpdate == [x]
  {
    PassConverges(db, snapshot, meta);
    var m := Pass(db, snapshot, meta).1;
    assert Reconciled(db, x, meta) == x.(burned := false, properties := JBool(false));
    FalseBlobRequeued(m, x);
  }

  lemma FalseBlobRequeued(m: map<string, NftRecord>, x: NftRecord)
    requires x.address in m && m[x.address] == x.(burned := false, properties := JBool(false))
    requires x.properties == JNull
    ensures Classify(m, x).toUpdate == [x]
  {
    assert !DeepEqual(m[x.address].properties, x.properties);
  }

  /** A trait list with a repeated key carrying two values differs from
      itself: the later trait is compared with the first one of its key. */
  lemma RepeatedTraitSelfDifferent(t: seq<MetadataEntry>, i: nat, j: nat)
    requires i < j < |t| && t[i].key == t[j].key && t[i].value != t[j].value
    requires forall k :: 0 <= k < i ==> t[k].key != t[i].key
    ensures KeyedDifferent(t, t, MetaKey, MetaValue)
  {
    FindFirstIsFirst(t, t[j].key, MetaKey);
    var r := FindFirst(t, t[j].key, MetaKey);
    assert t[j] in t;
    var p :| 0 <= p < |t| && t[p] == r.value && forall k :: 0 <= k < p ==> MetaKey(t[k]) != t[j].key;
    assert MetaKey(t[p]) == t[i].key;
    assert p == i;
    assert Unmatched(t[j], t, MetaKey, MetaValue);
    KeyedDifferentIff(t, t, MetaKey, MetaValue);
  }

  /** A remote record whose traits repeat a key with two values, and whose
      traits are written by the pass (it is new, or its stored traits
      differ), still differs from the stored traits after the pass: the
      next pass over the same snapshot deletes and re-creates them again. */
  lemma DuplicateTraitsRequeued(db: map<string, NftRecord>, snapshot: seq<NftRecord>,
                                meta: map<string, Json>, x: NftRecord, i: nat, j: nat)
    requires Consistent(db, snapshot) && UpdatesRender(db, snapshot, meta)
    requires x in snapshot && (x.address !in db || DifferentMetadata(db[x.address], x))
    requires i < j < |x.metadata| && x.metadata[i].key == x.metadata[j].key
    requires x.metadata[i].value != x.metadata[j].value
    requires forall k :: 0 <= k < i ==> x.metadata[k].key != x.metadata[i].key
    ensures Classify(Pass(db, snapshot, meta).1, x).toDeleteMetadata == [x.address]
    ensures Classify(Pass(db, snapshot, meta).1, x).toCreateMetadata == MetadataRows(x)
  {
    PassConverges(db, snapshot, meta);
    var m := Pass(db, snapshot, meta).1;
    assert m[x.address].metadata == x.metadata;
    RepeatedTraitSelfDifferent(x.metadata, i, j);
  }

  /** The reconciliation is idempotent: once a pass over a consistent
      snapshot has completed, a second pass over the same snapshot queues
      nothing, completes, and leaves the table as it found it, provided the
      written properties agree with the formatted ones. */
  lemma PassIdempotent(db: map<string, NftRecord>, snapshot: seq<NftRecord>, meta: map<string, Json>)
    requires Consistent(db, snapshot) && Settleable(snapshot)
    requires UpdatesRender(db, snapshot, meta) && PropertiesAgree(snapshot, meta)
    ensures PlanOf(Pass(db, snapshot, meta).1, snapshot) == EmptyPlan
    ensures Pass(Pass(db, snapshot, meta).1, snapshot, meta) == Pass(db, snapshot, meta)
  {
    PassConverges(db, snapshot, meta);
    var m := Pass(db, snapshot, meta).1;
    ReconciledQueuesNothing(db, snapshot, meta, m);
    AbsentStayBurned(db, snapshot, m);
    EmptyPassKeeps(m, snapshot, meta);
  }

  /** After a pass every stored record missing from the snapshot is burned. */
  lemma AbsentStayBurned(db: map<string, NftRecord>, snapshot: seq<NftRecord>, m: map<string, NftRecord>)
    requires m.Keys == db.Keys + set x | x in snapshot :: x.address
    requires forall a :: a in db && a !in Addresses(snapshot) ==> m[a] == db[a].(burned := true)
    ensures forall a :: a in m && a !in Addresses(snapshot) ==> m[a].burned
  {
    forall x | x in snapshot ensures x.address in Addresses(snapshot) {
      var i :| 0 <= i < |snapshot| && snapshot[i] == x;
      assert Addresses(snapshot)[i] == x.address;
    }
  }

  /** A table holding the reconciled row of every snapshot record queues
      nothing for that snapshot. */
  lemma ReconciledQueuesNothing(db: map<string, NftRecord>, snapshot: seq<NftRecord>, meta: map<string, Json>,
                                m: map<string, NftRecord>)
    requires Consistent(db, snapshot) && Settleable(snapshot) && PropertiesAgree(snapshot, meta)
    requires forall x :: x in snapshot ==> x.address in m && m[x.address] == Reconciled(db, x, meta)
    ensures PlanOf(m, snapshot) == EmptyPlan
  {
    forall i | 0 <= i < |snapshot|
      ensures Classify(m, snapshot[i]) == EmptyPlan
    {
      var x := snapshot[i];
      assert UniqueKeys(x.offers, OfferAddress) by {
        forall k, l | 0 <= k < l < |x.offers|
          ensures x.offers[k].address != x.offers[l].address
        {
          assert snapshot[i].offers[k].address != snapshot[i].offers[l].address;
        }
      }
      ReconciledSettles(db, x, meta);
      MatchedRecordQueuesNothing(m, x);
    }
    PlanOfNothing(m, snapshot);
  }

  /** A pass with nothing queued only marks the absent records burned, which
      here they already are. */
  lemma EmptyPassKeeps(m: map<string, NftRecord>, snapshot: seq<NftRecord>, meta: map<string, Json>)
    requires PlanOf(m, snapshot) == EmptyPlan
    requires forall a :: a in m && a !in Addresses(snapshot) ==> m[a].burned
    ensures Pass(m, snapshot, meta) == (Completed, m)
  {
    assert Pass(m, snapshot, meta) == AfterRecords(m, EmptyPlan, snapshot, meta);
    EmptyOfferDeletionKeeps(m);
    EmptyOfferCreationKeeps(m);
    assert AfterRecords(m, EmptyPlan, snapshot, meta) == AfterOffers(m, EmptyPlan, snapshot, meta);
    EmptyTailKeeps(m, snapshot, meta);
  }

  /** The metadata statements, the rewrite and the burn, with empty queues. */
  lemma EmptyTailKeeps(m: map<string, NftRecord>, snapshot: seq<NftRecord>, meta: map<string, Json>)
    requires forall a :: a in m && a !in Addresses(snapshot) ==> m[a].burned
    ensures AfterOffers(m, EmptyPlan, snapshot, meta) == (Completed, m)
  {
    EmptyMetadataStatementsKeep(m);
    MarkBurnedKeeps(m, Addresses(snapshot));
    assert UpdateCore(m, [], meta) == m;
  }

  /** The offer deletion with an empty queue changes nothing. */
  lemma EmptyOfferDeletionKeeps(m: map<string, NftRecord>)
    ensures DeleteOffers(m, []) == m
  {
    var none: seq<string> := [];
    var s2 := DeleteOffers(m, none);
    assert (set s | s in none) == {};
    forall a | a in m ensures s2[a] == m[a] {
      assert s2[a] == m[a].(offers := KeepOffers(m[a].offers, {}));
      assert KeepOffers(m[a].offers, {}) == m[a].offers;
    }
    assert s2.Keys == m.Keys;
  }

  /** The offer creation with an empty queue changes nothing. */
  lemma EmptyOfferCreationKeeps(m: map<string, NftRecord>)
    ensures CreateOffers(m, []) == m
  {
    var s3 := CreateOffers(m, []);
    forall a | a in m ensures s3[a] == m[a] {
      assert OffersFor([], a) == [];
    }
  }

  /** The metadata statements with empty queues change nothing. */
  lemma EmptyMetadataStatementsKeep(m: map<string, NftRecord>)
    ensures DeleteMetadata(m, []) == m && CreateMetadata(m, []) == m
  {
    var s5 := CreateMetadata(m, []);
    forall a | a in m ensures s5[a] == m[a] {
      assert EntriesFor([], a) == [];
    }
  }

  /** Marking burned records burned again changes nothing. */
  lemma MarkBurnedKeeps(m: map<string, NftRecord>, keep: seq<string>)
    requires forall a :: a in m && a !in keep ==> m[a].burned
    ensures MarkBurned(m, keep) == m
  {
    var s7 := MarkBurned(m, keep);
    forall a | a in m ensures s7[a] == m[a] {
    }
  }

  // ---------------------------------------------------------------------------
  // fetchMarketplaceData against the store

  /** The seven statements of the pass, issued against the store in turn; a
      statement that throws leaves the earlier ones in effect. */
  method Reconcile(store: Store, snapshot: seq<NftRecord>, meta: map<string, Json>) returns (outcome: PassOutcome)
    modifies store
    ensures (outcome, store.nfts) == Pass(old(store.nfts), snapshot, meta)
    ensures store.activity == old(store.activity) && store.users == old(store.users)
    ensures store.collections == old(store.collections) && store.memory == old(store.memory)
  {
    var plan := ClassifySnapshot(store.nfts, snapshot);
    if !Creatable(store.nfts, plan.toCreate) {
      return CreateRecordsFailed;
    }
    store.nfts := CreateRecords(store.nfts, plan.toCreate, meta);
    outcome := ReconcileOffers(store, plan, snapshot, meta);
  }

  /** The offer statements of the pass. */
  method ReconcileOffers(store: Store, plan: Plan, snapshot: seq<NftRecord>, meta: map<string, Json>) returns (outcome: PassOutcome)
    modifies store
    ensures (outcome, store.nfts) == AfterRecords(old(store.nfts), plan, snapshot, meta)
    ensures store.activity == old(store.activity) && store.users == old(store.users)
    ensures store.collections == old(store.collections) && store.memory == old(store.memory)
  {
    store.nfts := DeleteOffers(store.nfts, plan.toDeleteOffers);
    if !OffersCreatable(store.nfts, plan.toCreateOffers) {
      return CreateOffersFailed;
    }
    store.nfts := CreateOffers(store.nfts, plan.toCreateOffers);
    outcome := ReconcileMetadata(store, plan, snapshot, meta);
  }

  /** The metadata statements, the rewrite and the burn. */
  method ReconcileMetadata(store: Store, plan: Plan, snapshot: seq<NftRecord>, meta: map<string, Json>) returns (outcome: PassOutcome)
    modifies store
    ensures (outcome, store.nfts) == AfterOffers(old(store.nfts), plan, snapshot, meta)
    ensures store.activity == old(store.activity) && store.users == old(store.users)
    ensures store.collections == old(store.collections) && store.memory == old(store.memory)
  {
    store.nfts := DeleteMetadata(store.nfts, plan.toDeleteMetadata);
    if !MetadataCreatable(store.nfts, plan.toCreateMetadata) {
      return CreateMetadataFailed;
    }
    store.nfts := CreateMetadata(store.nfts, plan.toCreateMetadata);
    if !UpdateRenders(plan.toUpdate, meta) {
      return UpdateFailed;
    }
    store.nfts := UpdateCore(store.nfts, plan.toUpdate, meta);
    store.nfts := MarkBurned(store.nfts, Addresses(snapshot));
    outcome := Completed;
  }

  /** How a run of `fetchMarketplaceData` ends: it is still waiting on the
      crawl or on a rate-limited bids batch when the given answers run out,
      or the pass ran to the outcome shown. */
  datatype SyncOutcome = CrawlPolling | OffersPending | PassRan(pass: PassOutcome)

  function MintIds(mints: seq<MintResp>): seq<string> {
    seq(|mints|, i requires 0 <= i < |mints| => mints[i].mint)
  }

  /** The fetch attempts of the `i`-th mint's metadata URI; a mint beyond
      the given ones throws on every attempt. */
  function MintAttempts(attempts: seq<seq<Attempt>>, n: nat): (r: seq<seq<Attempt>>)
    ensures |r| == n
  {
    seq(n, i requires 0 <= i < n => if i < |attempts| then attempts[i] else [])
  }

  /** `fetchMarketplaceData` from the crawl to the burn. */
  function MarketplaceSync(db: map<string, NftRecord>, streams: seq<seq<Response<MintResp>>>,
                           attempts: seq<seq<Attempt>>, replies: seq<OffersReply>)
    : (SyncOutcome, map<string, NftRecord>)
  {
    var crawl := AllCollectionMints(streams);
    if crawl.None? then (CrawlPolling, db)
    else
      var ids := MintIds(crawl.value);
      var meta := MetadataMap(ids, MintAttempts(attempts, |ids|));
      var progress := OffersProgress(ids, replies);
      if progress.0 < |ids| then (OffersPending, db)
      else
        var r := Pass(db, FormatOffersAndMints(crawl.value, progress.1, meta), meta);
        (PassRan(r.0), r.1)
  }

  /** `fetchMarketplaceData`: the crawl of every collection, the metadata
      documents, the bids, the formatting, then the pass. Only the NFT table
      changes. */
  method FetchMarketplaceData(store: Store, streams: seq<seq<Response<MintResp>>>,
                              attempts: seq<seq<Attempt>>, replies: seq<OffersReply>)
    returns (outcome: SyncOutcome)
    requires |streams| == |store.collections|
    modifies store
    ensures (outcome, store.nfts) == MarketplaceSync(old(store.nfts), streams, attempts, replies)
    ensures store.activity == old(store.activity) && store.users == old(store.users)
    ensures store.collections == old(store.collections) && store.memory == old(store.memory)
  {
    var crawl := FetchAllCollectionMints(streams);
    if crawl.None? {
      return CrawlPolling;
    }
    var mints := crawl.value;
    var ids := MintIds(mints);
    var meta := FetchAllMintMetadata(ids, MintAttempts(attempts, |ids|));
    var fetched := FetchOffersForMints(ids, replies);
    if !fetched.complete {
      return OffersPending;
    }
    var formatted := FormatOffersAndMints(mints, fetched.offers, meta);
    var pass := Reconcile(store, formatted, meta);
    outcome := PassRan(pass);
  }

  /** With no row in the collection table the crawl yields no mint, so the
      pass marks every stored NFT burned and changes nothing else. */
  lemma NoCollectionsBurnsAll(db: map<string, NftRecord>, attempts: seq<seq<Attempt>>, replies: seq<OffersReply>)
    ensures MarketplaceSync(db, [], attempts, replies) == (PassRan(Completed), map a | a in db :: db[a].(burned := true))
  {
    assert AllCollectionMints<MintResp>([]) == Some([]);
    var meta := MetadataMap([], MintAttempts(attempts, 0));
    assert FormatOffersAndMints([], OffersProgress([], replies).1, meta) == [];
    EmptySnapshotBurnsAll(db, meta);
  }

  /** A pass over an empty snapshot only marks every stored NFT burned. */
  lemma EmptySnapshotBurnsAll(db: map<string, NftRecord>, meta: map<string, Json>)
    ensures Pass(db, [], meta) == (Completed, map a | a in db :: db[a].(burned := true))
  {
    EmptySnapshotCreatesNothing(db, meta);
    EmptyOfferDeletionKeeps(db);
    EmptyOfferCreationKeeps(db);
    assert AfterRecords(db, EmptyPlan, [], meta) == AfterOffers(db, EmptyPlan, [], meta);
    EmptyTailBurns(db, meta);
  }

  lemma EmptySnapshotCreatesNothing(db: map<string, NftRecord>, meta: map<string, Json>)
    ensures Pass(db, [], meta) == AfterRecords(db, EmptyPlan, [], meta)
  {
    assert PlanOf(db, []) == EmptyPlan;
    assert Creatable(db, []);
    assert CreateRecords(db, [], meta) == db;
  }

  lemma EmptyTailBurns(db: map<string, NftRecord>, meta: map<string, Json>)
    ensures AfterOffers(db, EmptyPlan, [], meta) == (Completed, map a | a in db :: db[a].(burned := true))
  {
    EmptyMetadataStatementsKeep(db);
    assert UpdateCore(db, [], meta) == db;
    assert Addresses([]) == [];
    assert MarkBurned(db, []) == map a | a in db :: db[a].(burned := true);
  }

  /** The formatted snapshot holds one record per crawled mint, at the mint's
      address, and every offer in it names its own record's mint. */
  lemma FormattedCoherent(mints: seq<MintResp>, offers: seq<MintBids>, meta: map<string, Json>)
    ensures Addresses(FormatOffersAndMints(mints, offers, meta)) == MintIds(mints)
    ensures Coherent(FormatOffersAndMints(mints, offers, meta))
    ensures UniqueAddresses(FormatOffersAndMints(mints, offers, meta)) <==>
      forall i, j :: 0 <= i < j < |mints| ==> mints[i].mint != mints[j].mint
  {
  }

  /** A run whose crawl and bids complete over a fresh table, with distinct
      mints and distinct bid addresses, completes its pass and leaves exactly
      the formatted records, each with the raw `properties` of its document. */
  lemma FirstSyncStoresSnapshot(streams: seq<seq<Response<MintResp>>>, attempts: seq<seq<Attempt>>,
                                replies: seq<OffersReply>)
    requires AllCollectionMints(streams).Some?
    requires OffersProgress(MintIds(AllCollectionMints(streams).value), replies).0 >=
             |AllCollectionMints(streams).value|
    requires var mints := AllCollectionMints(streams).value;
      var ids := MintIds(mints);
      var snapshot := FormatOffersAndMints(mints, OffersProgress(ids, replies).1,
                                           MetadataMap(ids, MintAttempts(attempts, |ids|)));
      UniqueAddresses(snapshot) && SnapshotOffersDistinct(snapshot)
    ensures var mints := AllCollectionMints(streams).value;
      var ids := MintIds(mints);
      var meta := MetadataMap(ids, MintAttempts(attempts, |ids|));
      var snapshot := FormatOffersAndMints(mints, OffersProgress(ids, replies).1, meta);
      var r := MarketplaceSync(map[], streams, attempts, replies);
      r.0 == PassRan(Completed) &&
      r.1.Keys == (set x | x in snapshot :: x.address) &&
      forall x :: x in snapshot ==> r.1[x.address] == x.(properties := WrittenProperties(meta, x.address))
  {
    var mints := AllCollectionMints(streams).value;
    var ids := MintIds(mints);
    var meta := MetadataMap(ids, MintAttempts(attempts, |ids|));
    var snapshot := FormatOffersAndMints(mints, OffersProgress(ids, replies).1, meta);
    FormattedCoherent(mints, OffersProgress(ids, replies).1, meta);
    EmptyStoreTakesSnapshot(snapshot, meta);
  }

  /** A pass over an empty store stores a consistent, unburned snapshot as it
      is, but for the raw properties: nothing is rewritten, so the `UPDATE`
      cannot fail. */
  lemma EmptyStoreTakesSnapshot(snapshot: seq<NftRecord>, meta: map<string, Json>)
    requires UniqueAddresses(snapshot) && Coherent(snapshot) && SnapshotOffersDistinct(snapshot)
    requires forall i :: 0 <= i < |snapshot| ==> !snapshot[i].burned
    ensures Pass(map[], snapshot, meta).0 == Completed
    ensures Pass(map[], snapshot, meta).1.Keys == (set x | x in snapshot :: x.address)
    ensures forall x :: x in snapshot ==>
      Pass(map[], snapshot, meta).1[x.address] == x.(properties := WrittenProperties(meta, x.address))
  {
    assert Consistent(map[], snapshot);
    PassConverges(map[], snapshot, meta);
  }

  // ---------------------------------------------------------------------------
  // fetchActivityPeriodic: the additive user upsert and the activity insert

  /** The `cards` value a user row the upsert inserts starts with: the
      column is not in the insert list and takes its default. */
  const CardsDefault := 0

  /** The row a user has before the upsert: the stored one, or an all-zero
      row at that address. */
  function BaseUser(users: map<string, User>, a: string): User {
    if a in users then users[a] else User(a, CardsDefault, 0, 0, 0, 0, 0, 0)
  }

  /** The `INSERT … ON CONFLICT ("address") DO UPDATE` of one update row:
      insert with `cards` left at its default, or add the six counters to the
      stored ones; `cards` is written by neither branch. */
  function UpsertRow(users: map<string, User>, a: string, u: User): User {
    if a in users then
      var s := users[a];
      s.(level := s.level + u.level, totalListed := s.totalListed + u.totalListed,
         totalSold := s.totalSold + u.totalSold, totalSoldValue := s.totalSoldValue + u.totalSoldValue,
         totalBought := s.totalBought + u.totalBought, totalBoughtValue := s.totalBoughtValue + u.totalBoughtValue)
    else User(a, CardsDefault, u.level, u.totalListed, u.totalSold, u.totalSoldValue, u.totalBought, u.totalBoughtValue)
  }

  /** The upsert of all update rows in one statement (their addresses are
      the keys of a map, so no row conflicts with another). */
  function UpsertUsers(users: map<string, User>, updates: map<string, User>): (r: map<string, User>)
    ensures r.Keys == users.Keys + updates.Keys
    ensures forall a :: a in users && a !in updates ==> r[a] == users[a]
  {
    map a | a in users.Keys + updates.Keys :: if a in updates then UpsertRow(users, a, updates[a]) else users[a]
  }

  /** Each updated user's counters grow by the update's, from the stored row
      or from zero, and its `cards` is what it was (or the default). */
  lemma UpsertAdds(users: map<string, User>, updates: map<string, User>, a: string)
    requires a in updates
    ensures UpsertUsers(users, updates)[a] == AddCounters(BaseUser(users, a), updates[a].(cards := 0))
    ensures UpsertUsers(users, updates)[a].cards == BaseUser(users, a).cards
  {
  }

  /** Two upserts commute: whichever order the importer and the live event
      handlers apply their deltas in, the rows end the same. */
  lemma UpsertsCommute(users: map<string, User>, x: map<string, User>, y: map<string, User>)
    ensures UpsertUsers(UpsertUsers(users, x), y) == UpsertUsers(UpsertUsers(users, y), x)
  {
    var l := UpsertUsers(UpsertUsers(users, x), y);
    var r := UpsertUsers(UpsertUsers(users, y), x);
    assert l.Keys == r.Keys;
    forall a | a in l
      ensures l[a] == r[a]
    {
      UpsertsCommuteAt(users, x, y, a);
    }
  }

  lemma UpsertsCommuteAt(users: map<string, User>, x: map<string, User>, y: map<string, User>, a: string)
    requires a in users || a in x || a in y
    ensures UpsertUsers(UpsertUsers(users, x), y)[a] == UpsertUsers(UpsertUsers(users, y), x)[a]
  {
    if a in x && a in y {
      var b := BaseUser(users, a);
      var dx, dy := x[a].(cards := 0), y[a].(cards := 0);
      UpsertAdds(users, x, a);
      UpsertAdds(users, y, a);
      UpsertAdds(UpsertUsers(users, x), y, a);
      UpsertAdds(UpsertUsers(users, y), x, a);
      assert BaseUser(UpsertUsers(users, x), a) == AddCounters(b, dx);
      assert BaseUser(UpsertUsers(users, y), a) == AddCounters(b, dy);
      assert AddCounters(AddCounters(b, dx), dy) == AddCounters(AddCounters(b, dy), dx);
    } else if a in x {
      UpsertAdds(users, x, a);
      UpsertAdds(UpsertUsers(users, y), x, a);
      assert BaseUser(UpsertUsers(users, y), a) == BaseUser(users, a);
    } else if a in y {
      UpsertAdds(users, y, a);
      UpsertAdds(UpsertUsers(users, x), y, a);
      assert BaseUser(UpsertUsers(users, x), a) == BaseUser(users, a);
    }
  }

  /** The update rows `activityToUserUpdate` hands over: the shared object's
      counters under its own address, when there was any activity. */
  function UserUpdates(shared: User, activity: seq<Activity>): map<string, User> {
    if activity == [] then map[] else map[shared.address := shared]
  }

  /** `activity.createMany({ skipDuplicates: true })`: each row in turn, a
      row whose txid is already present, stored or earlier in the batch,
      being skipped. */
  function InsertActivity(table: map<string, Activity>, rows: seq<Activity>): (t: map<string, Activity>)
    ensures forall k :: k in t <==> k in table || exists i :: 0 <= i < |rows| && rows[i].txid == k
    ensures forall k :: k in table ==> t[k] == table[k]
    decreases |rows|
  {
    if rows == [] then table
    else
      var n := |rows| - 1;
      var t := InsertActivity(table, rows[..n]);
      assert forall i :: 0 <= i < n ==> rows[..n][i] == rows[i];
      if rows[n].txid in t then t else t[rows[n].txid := rows[n]]
  }

  /** A txid new to the table gets the first row of the batch carrying it. */
  lemma {:induction false} InsertFirstWins(table: map<string, Activity>, rows: seq<Activity>, i: nat)
    requires i < |rows| && rows[i].txid !in table
    requires forall j :: 0 <= j < i ==> rows[j].txid != rows[i].txid
    ensures InsertActivity(table, rows)[rows[i].txid] == rows[i]
    decreases |rows|
  {
    var n := |rows| - 1;
    var t := InsertActivity(table, rows[..n]);
    assert forall j :: 0 <= j < n ==> rows[..n][j] == rows[j];
    if i < n {
      InsertFirstWins(table, rows[..n], i);
    } else {
      assert rows[i].txid !in t;
    }
  }

  /** Rows whose txids are all present already are skipped entirely. */
  lemma {:induction false} InsertPresentKeeps(table: map<string, Activity>, rows: seq<Activity>)
    requires forall i :: 0 <= i < |rows| ==> rows[i].txid in table
    ensures InsertActivity(table, rows) == table
    decreases |rows|
  {
    if rows != [] {
      var n := |rows| - 1;
      assert forall i :: 0 <= i < n ==> rows[..n][i] == rows[i];
      InsertPresentKeeps(table, rows[..n]);
    }
  }

  /** Importing the same batch twice, as a restart can, adds nothing the
      second time. */
  lemma InsertActivityIdempotent(table: map<string, Activity>, rows: seq<Activity>)
    ensures InsertActivity(InsertActivity(table, rows), rows) == InsertActivity(table, rows)
  {
    InsertPresentKeeps(InsertActivity(table, rows), rows);
  }

  /** `fetchActivityPeriodic`: the import, the per-user fold on the shared
      object, the upsert of its counters and the insert of the rows. While
      the import is still polling nothing but the memory table changes. */
  method FetchActivityPeriodic(store: Store, shared: MutableUser, collIds: seq<string>,
                               upstream: seq<seq<Response<HistoryItem>>>)
    returns (imported: Option<seq<Activity>>)
    requires IsIdListing(collIds, store.collections)
    requires |upstream| == |collIds|
    modifies store, shared
    ensures (imported, store.memory) == HistoryRun(old(store.memory), collIds, upstream)
    ensures imported.None? ==>
      store.users == old(store.users) && store.activity == old(store.activity) && shared.Value() == old(shared.Value())
    ensures imported.Some? ==>
      && shared.Value() == Accumulated(old(shared.Value()), imported.value)
      && store.users == UpsertUsers(old(store.users), UserUpdates(shared.Value(), imported.value))
      && store.activity == InsertActivity(old(store.activity), imported.value)
    ensures store.nfts == old(store.nfts) && store.collections == old(store.collections)
  {
    imported := FetchTransactionHistoryRecent(store, collIds, upstream);
    if imported.None? {
      return;
    }
    StoreImported(store, shared, imported.value);
  }

  /** The rest of `fetchActivityPeriodic` once the import has returned its
      rows: the fold on the shared object, the upsert and the insert. */
  method StoreImported(store: Store, shared: MutableUser, activity: seq<Activity>)
    modifies store, shared
    ensures shared.Value() == Accumulated(old(shared.Value()), activity)
    ensures store.users == UpsertUsers(old(store.users), UserUpdates(shared.Value(), activity))
    ensures store.activity == InsertActivity(old(store.activity), activity)
    ensures store.nfts == old(store.nfts) && store.collections == old(store.collections)
    ensures store.memory == old(store.memory)
  {
    var users := ActivityToUserUpdate(shared, activity);
    var updates := map k | k in users :: users[k].Value();
    assert updates == UserUpdates(shared.Value(), activity);
    store.users := UpsertUsers(store.users, updates);
    store.activity := InsertActivity(store.activity, activity);
  }

  // ---------------------------------------------------------------------------
  // fetchCollections

  /** One answer of the collection lookup: a 200 with the body's `collId`
      (empty when the body has none), a 404, or another status, after which
      the same request is made again. */
  datatype CollReply = Found(collId: string) | NotFound | Busy

  /** How the lookup loop of one address ends: with an id, on a 404, or still
      asking when the given answers run out. */
  datatype Resolution = Resolved(id: string) | Missing | Unresolved

  /** The loop `while (!collId)`: an empty `collId` is falsy and asks again. */
  function Resolve(rs: seq<CollReply>): (r: Resolution)
    ensures r.Resolved? ==> r.id != ""
    decreases |rs|
  {
    if rs == [] then Unresolved
    else match rs[0]
      case Found(id) => if id != "" then Resolved(id) else Resolve(rs[1..])
      case NotFound => Missing
      case Busy => Resolve(rs[1..])
  }

  /** The lookup ends on the first 404 or non-empty id; every answer before it
      asked again. */
  lemma {:induction false} ResolveFirstAnswer(rs: seq<CollReply>, i: nat)
    requires i < |rs| && (rs[i].NotFound? || (rs[i].Found? && rs[i].collId != ""))
    requires forall j :: 0 <= j < i ==> rs[j].Busy? || rs[j] == Found("")
    ensures Resolve(rs) == if rs[i].NotFound? then Missing else Resolved(rs[i].collId)
    decreases i
  {
    if i > 0 {
      assert rs[0].Busy? || rs[0] == Found("");
      ResolveFirstAnswer(rs[1..], i - 1);
    }
  }

  /** The lookup loop of `fetchCollections` for one address. */
  method ResolveCollection(rs: seq<CollReply>) returns (r: Resolution)
    ensures r == Resolve(rs)
  {
    var k := 0;
    var collId := "";
    while collId == ""
      invariant 0 <= k <= |rs|
      invariant collId == "" ==> Resolve(rs[k..]) == Resolve(rs)
      invariant collId != "" ==> Resolve(rs) == Resolved(collId)
      decreases |rs| - k
    {
      if k == |rs| {
        return Unresolved;
      }
      assert rs[k..][1..] == rs[k + 1..];
      var reply := rs[k];
      k := k + 1;
      if reply.Found? {
        collId := reply.collId;
      } else if reply.NotFound? {
        return Missing;
      }
    }
    r := Resolved(collId);
  }

  /** The requested addresses the table does not hold, in request order. */
  function NewAddresses(addresses: seq<string>, table: map<string, string>): (r: seq<string>)
    ensures forall a :: a in r <==> a in addresses && a !in table
    decreases |addresses|
  {
    if addresses == [] then []
    else
      var n := |addresses| - 1;
      NewAddresses(addresses[..n], table) + (if addresses[n] in table then [] else [addresses[n]])
  }

  /** How `fetchCollections` ends: every new address handled, still asking
      about one, or a `collection.create` that threw on an address created
      earlier in the same run. */
  datatype CollOutcome = Registered | ResolvePending | CreateFailed

  /** The lookup answers of the `i`-th new address; one beyond the given
      ones gets none. */
  function RepliesAt(streams: seq<seq<CollReply>>, i: nat): seq<CollReply> {
    if i < |streams| then streams[i] else []
  }

  /** The new addresses in turn, each resolved and created when an id came
      back. */
  function RegisterAll(table: map<string, string>, unknown: seq<string>, streams: seq<seq<CollReply>>)
    : (r: (CollOutcome, map<string, string>))
    ensures forall a :: a in table ==> a in r.1 && r.1[a] == table[a]
    ensures forall a :: a in r.1 && a !in table ==> a in unknown
    decreases |unknown|
  {
    if unknown == [] then (Registered, table)
    else
      var n := |unknown| - 1;
      var (o, t) := RegisterAll(table, unknown[..n], streams);
      if o != Registered then (o, t)
      else match Resolve(RepliesAt(streams, n))
        case Unresolved => (ResolvePending, t)
        case Missing => (Registered, t)
        case Resolved(id) => if unknown[n] in t then (CreateFailed, t) else (Registered, t[unknown[n] := id])
  }

  /** `fetchCollections`, against the table as read at its start. */
  function CollectionsRun(table: map<string, string>, addresses: seq<string>, streams: seq<seq<CollReply>>)
    : (CollOutcome, map<string, string>)
  {
    RegisterAll(table, NewAddresses(addresses, table), streams)
  }

  /** A completed run creates a row for exactly the new addresses whose
      lookup returned an id, with that id. */
  lemma RegisterAllContents(table: map<string, string>, unknown: seq<string>,
                                               streams: seq<seq<CollReply>>)
    requires RegisterAll(table, unknown, streams).0 == Registered
    ensures var t := RegisterAll(table, unknown, streams).1;
      forall a :: a in t && a !in table <==>
        exists i :: 0 <= i < |unknown| && unknown[i] == a && Resolve(RepliesAt(streams, i)).Resolved?
    ensures var t := RegisterAll(table, unknown, streams).1;
      forall i :: 0 <= i < |unknown| && Resolve(RepliesAt(streams, i)).Resolved? ==>
        t[unknown[i]] == Resolve(RepliesAt(streams, i)).id
    ensures forall i :: 0 <= i < |unknown| ==> Resolve(RepliesAt(streams, i)) != Unresolved
  {
    RegisterAllKeys(table, unknown, streams);
    RegisterAllIds(table, unknown, streams);
    RegisterAllAnswered(table, unknown, streams);
  }

  lemma {:induction false} RegisterAllKeys(table: map<string, string>, unknown: seq<string>,
                                           streams: seq<seq<CollReply>>)
    requires RegisterAll(table, unknown, streams).0 == Registered
    ensures var t := RegisterAll(table, unknown, streams).1;
      forall a :: a in t && a !in table <==>
        exists i :: 0 <= i < |unknown| && unknown[i] == a && Resolve(RepliesAt(streams, i)).Resolved?
    decreases |unknown|
  {
    if unknown != [] {
      var n := |unknown| - 1;
      assert forall i :: 0 <= i < n ==> unknown[..n][i] == unknown[i];
      RegisterAllLast(table, unknown, streams);
      RegisterAllKeys(table, unknown[..n], streams);
    }
  }

  lemma {:induction false} RegisterAllIds(table: map<string, string>, unknown: seq<string>,
                                          streams: seq<seq<CollReply>>)
    requires RegisterAll(table, unknown, streams).0 == Registered
    ensures var t := RegisterAll(table, unknown, streams).1;
      forall i :: 0 <= i < |unknown| && Resolve(RepliesAt(streams, i)).Resolved? ==>
        unknown[i] in t && t[unknown[i]] == Resolve(RepliesAt(streams, i)).id
    decreases |unknown|
  {
    if unknown != [] {
      var n := |unknown| - 1;
      assert forall i :: 0 <= i < n ==> unknown[..n][i] == unknown[i];
      RegisterAllLast(table, unknown, streams);
      RegisterAllIds(table, unknown[..n], streams);
    }
  }

  lemma {:induction false} RegisterAllAnswered(table: map<string, string>, unknown: seq<string>,
                                               streams: seq<seq<CollReply>>)
    requires RegisterAll(table, unknown, streams).0 == Registered
    ensures forall i :: 0 <= i < |unknown| ==> Resolve(RepliesAt(streams, i)) != Unresolved
    decreases |unknown|
  {
    if unknown != [] {
      var n := |unknown| - 1;
      RegisterAllLast(table, unknown, streams);
      RegisterAllAnswered(table, unknown[..n], streams);
    }
  }

  /** The last step of a completed run: it resolved its address, and created
      it when an id came back and it was still absent. */
  lemma RegisterAllLast(table: map<string, string>, unknown: seq<string>, streams: seq<seq<CollReply>>)
    requires unknown != [] && RegisterAll(table, unknown, streams).0 == Registered
    ensures var n := |unknown| - 1;
      var prev := RegisterAll(table, unknown[..n], streams);
      var res := Resolve(RepliesAt(streams, n));
      && prev.0 == Registered && res != Unresolved
      && (res.Resolved? ==> unknown[n] !in prev.1 && RegisterAll(table, unknown, streams).1 == prev.1[unknown[n] := res.id])
      && (res.Missing? ==> RegisterAll(table, unknown, streams).1 == prev.1)
  {
  }

  /** An address requested twice while absent from the table, both of whose
      lookups return an id, makes the second create throw. */
  lemma DuplicateAddressFails(a: string, id1: string, id2: string)
    requires id1 != "" && id2 != ""
    ensures CollectionsRun(map[], [a, a], [[Found(id1)], [Found(id2)]]) == (CreateFailed, map[a := id1])
  {
    var both := [a, a];
    assert both[..1] == [a] && [a][..0] == [];
    assert NewAddresses([a], map[]) == [a];
    assert NewAddresses(both, map[]) == both;
    var streams := [[Found(id1)], [Found(id2)]];
    assert Resolve(RepliesAt(streams, 0)) == Resolved(id1);
    assert Resolve(RepliesAt(streams, 1)) == Resolved(id2);
    assert RegisterAll(map[], both[..1], streams) == (Registered, map[a := id1]);
  }

  /** A second run over the same addresses asks only about those still
      without a row: a run that completed leaves nothing to ask about the
      addresses it resolved. */
  lemma RerunSkipsResolved(table: map<string, string>, addresses: seq<string>, streams: seq<seq<CollReply>>)
    requires CollectionsRun(table, addresses, streams).0 == Registered
    ensures var t := CollectionsRun(table, addresses, streams).1;
      forall a :: a in NewAddresses(addresses, t) ==>
        a in NewAddresses(addresses, table) && a !in t
  {
  }

  /** `fetchCollections`: the table is read once, then each new address is
      looked up in turn and created when an id came back. Only the
      collection table changes. */
  method FetchCollections(store: Store, addresses: seq<string>, streams: seq<seq<CollReply>>)
    returns (outcome: CollOutcome)
    modifies store
    ensures (outcome, store.collections) == CollectionsRun(old(store.collections), addresses, streams)
    ensures store.nfts == old(store.nfts) && store.activity == old(store.activity)
    ensures store.users == old(store.users) && store.memory == old(store.memory)
  {
    var table := store.collections;
    var unknown := SelectNew(addresses, table);
    var t;
    outcome, t := RegisterNew(table, unknown, streams);
    store.collections := t;
  }

  /** The loop over the new addresses: resolve each one and create its row. */
  method RegisterNew(table: map<string, string>, unknown: seq<string>, streams: seq<seq<CollReply>>)
    returns (outcome: CollOutcome, t: map<string, string>)
    ensures (outcome, t) == RegisterAll(table, unknown, streams)
  {
    t := table;
    var i := 0;
    while i < |unknown|
      invariant 0 <= i <= |unknown|
      invariant RegisterAll(table, unknown[..i], streams) == (Registered, t)
    {
      RegisterAllNext(table, unknown, streams, i, t);
      var r := ResolveCollection(RepliesAt(streams, i));
      if r.Unresolved? {
        RegisterAllStuck(table, unknown, streams, i + 1);
        return ResolvePending, t;
      }
      if r.Resolved? {
        if unknown[i] in t {
          RegisterAllStuck(table, unknown, streams, i + 1);
          return CreateFailed, t;
        }
        t := t[unknown[i] := r.id];
      }
      i := i + 1;
    }
    assert unknown[..i] == unknown;
    outcome := Registered;
  }

  /** The filter over the collection table read at the start. */
  method SelectNew(addresses: seq<string>, table: map<string, string>) returns (unknown: seq<string>)
    ensures unknown == NewAddresses(addresses, table)
  {
    unknown := [];
    for k := 0 to |addresses|
      invariant unknown == NewAddresses(addresses[..k], table)
    {
      NewAddressesNext(addresses, table, k);
      if addresses[k] !in table {
        unknown := unknown + [addresses[k]];
      }
    }
    assert addresses[..|addresses|] == addresses;
  }

  lemma NewAddressesNext(addresses: seq<string>, table: map<string, string>, k: nat)
    requires k < |addresses|
    ensures NewAddresses(addresses[..k + 1], table) ==
      NewAddresses(addresses[..k], table) + (if addresses[k] in table then [] else [addresses[k]])
  {
    assert addresses[..k + 1][..k] == addresses[..k];
  }

  /** One more address of the run, after the ones before it completed. */
  lemma RegisterAllNext(table: map<string, string>, unknown: seq<string>, streams: seq<seq<CollReply>>,
                        i: nat, t: map<string, string>)
    requires i < |unknown| && RegisterAll(table, unknown[..i], streams) == (Registered, t)
    ensures RegisterAll(table, unknown[..i + 1], streams) ==
      match Resolve(RepliesAt(streams, i))
      case Unresolved => (ResolvePending, t)
      case Missing => (Registered, t)
      case Resolved(id) => if unknown[i] in t then (CreateFailed, t) else (Registered, t[unknown[i] := id])
  {
    assert unknown[..i + 1][..i] == unknown[..i];
  }

  /** Once the run stops, later addresses change nothing. */
  lemma {:induction false} RegisterAllStuck(table: map<string, string>, unknown: seq<string>,
                                            streams: seq<seq<CollReply>>, k: nat)
    requires 0 < k <= |unknown| && RegisterAll(table, unknown[..k], streams).0 != Registered
    ensures RegisterAll(table, unknown, streams) == RegisterAll(table, unknown[..k], streams)
    decreases |unknown|
  {
    if k < |unknown| {
      var n := |unknown| - 1;
      assert unknown[..n][..k] == unknown[..k];
      RegisterAllStuck(table, unknown[..n], streams, k);
    } else {
      assert unknown[..k] == unknown;
    }
  }

  // ---------------------------------------------------------------------------
  // fetchUserCardsPeriodic

  /** The `limit` of the `getAssetsByGroup` request. */
  const HolderPageLimit := 1000

  /** The owners on the first page of a collection's assets (oldest first).
      `page` is set to 1 and never advanced, so this is the only page read;
      an empty string stands for an asset without an owner. */
  function FirstPage(owners: seq<string>): seq<string> {
    owners[..Min(HolderPageLimit, |owners|)]
  }

  /** The owners the loop visits, collection by collection. */
  function CountedOwners(assets: seq<seq<string>>): seq<string>
    decreases |assets|
  {
    if assets == [] then [] else CountedOwners(assets[..|assets| - 1]) + FirstPage(assets[|assets| - 1])
  }

  /** `holderCounts` after visiting `owners`: an owner's count goes up by one
      for each asset it holds; an asset without an owner is skipped. */
  function Tally(owners: seq<string>): map<string, int>
    decreases |owners|
  {
    if owners == [] then map[]
    else
      var m := Tally(owners[..|owners| - 1]);
      var o := owners[|owners| - 1];
      if o == "" then m else m[o := (if o in m then m[o] else 0) + 1]
  }

  /** Every owner seen is counted, as often as it appears, and only owners
      seen are. */
  lemma {:induction false} TallyCounts(owners: seq<string>)
    ensures forall o :: o in Tally(owners) <==> o != "" && o in multiset(owners)
    ensures forall o :: o in Tally(owners) ==> Tally(owners)[o] == multiset(owners)[o]
    decreases |owners|
  {
    if owners != [] {
      var n := |owners| - 1;
      TallyCounts(owners[..n]);
      assert owners == owners[..n] + [owners[n]];
      TallySnoc(owners[..n], owners[n]);
      assert multiset(owners) == multiset(owners[..n]) + multiset{owners[n]};
    }
  }

  lemma TallySnoc(owners: seq<string>, o: string)
    ensures Tally(owners + [o]) ==
      (var m := Tally(owners); if o == "" then m else m[o := (if o in m then m[o] else 0) + 1])
  {
    assert (owners + [o])[..|owners|] == owners;
  }

  /** The counting loops of `fetchUserCardsPeriodic`, over the first page of
      each collection in turn. */
  method CountHolders(assets: seq<seq<string>>) returns (counts: map<string, int>)
    ensures counts == Tally(CountedOwners(assets))
  {
    counts := map[];
    for c := 0 to |assets|
      invariant counts == Tally(CountedOwners(assets[..c]))
    {
      assert assets[..c + 1][..c] == assets[..c];
      counts := CountPage(counts, FirstPage(assets[c]), CountedOwners(assets[..c]));
    }
    assert assets[..|assets|] == assets;
  }

  /** The inner loop: one page of owners added to the counts so far. */
  method CountPage(counts0: map<string, int>, page: seq<string>, ghost before: seq<string>)
    returns (counts: map<string, int>)
    requires counts0 == Tally(before)
    ensures counts == Tally(before + page)
  {
    counts := counts0;
    assert before + page[..0] == before;
    for j := 0 to |page|
      invariant counts == Tally(before + page[..j])
    {
      var owner := page[j];
      TallySnoc(before + page[..j], owner);
      assert before + page[..j + 1] == before + page[..j] + [owner];
      if owner != "" {
        var amount := if owner in counts then counts[owner] else 0;
        counts := counts[owner := amount + 1];
      }
    }
    assert page[..|page|] == page;
  }

  /** An owner whose only asset lies past the first 1000 of its collection is
      not counted. */
  lemma OwnerPastFirstPageUncounted(owners: seq<string>, o: string)
    requires |owners| > HolderPageLimit && o !in owners[..HolderPageLimit]
    ensures o !in Tally(CountedOwners([owners]))
  {
    assert [owners][..0] == [];
    assert CountedOwners([owners]) == FirstPage(owners);
    TallyCounts(FirstPage(owners));
  }

  /** The `UPDATE "User" … FROM (VALUES …)`: the statement is malformed when
      there is no holder at all and throws; otherwise each existing user that
      holds cards gets its count, and nobody else changes. */
  function SetCards(users: map<string, User>, counts: map<string, int>): (r: Option<map<string, User>>)
    ensures r.None? <==> counts == map[]
    ensures r.Some? ==> r.value.Keys == users.Keys
    ensures r.Some? ==> forall a :: a in users ==>
      r.value[a] == (if a in counts then users[a].(cards := counts[a]) else users[a])
  {
    if counts == map[] then None
    else Some(map a | a in users :: if a in counts then users[a].(cards := counts[a]) else users[a])
  }

  /** After a run, every stored user that holds an asset on a counted page
      has as many cards as it holds there. */
  lemma CardsAreHoldings(users: map<string, User>, assets: seq<seq<string>>, a: string)
    requires SetCards(users, Tally(CountedOwners(assets))).Some?
    requires a in users && a != "" && a in multiset(CountedOwners(assets))
    ensures SetCards(users, Tally(CountedOwners(assets))).value[a].cards == multiset(CountedOwners(assets))[a]
  {
    TallyCounts(CountedOwners(assets));
  }

  /** `fetchUserCardsPeriodic`: the counting, then the one `UPDATE`; only the
      user table changes, and only when the statement succeeds. */
  method FetchUserCardsPeriodic(store: Store, assets: seq<seq<string>>) returns (ok: bool)
    requires |assets| == |store.collections|
    modifies store
    ensures var r := SetCards(old(store.users), Tally(CountedOwners(assets)));
      ok == r.Some? && store.users == (if r.Some? then r.value else old(store.users))
    ensures store.nfts == old(store.nfts) && store.activity == old(store.activity)
    ensures store.collections == old(store.collections) && store.memory == old(store.memory)
  {
    var counts := CountHolders(assets);
    var r := SetCards(store.users, counts);
    ok := r.Some?;
    if ok {
      store.users := r.value;
    }
  }
}
