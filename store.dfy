/** The persistent relational store, as the engine sees it through the Prisma
    client exported by src/index.ts: one map per table, keyed by the table's
    unique column. Metadata and offer rows are kept inside their NFT record. */
module Db {
  import opened Types

  class Store {
    /** `UniversalNFTData` with its `Metadata` and `Offer` rows, by address. */
    var nfts: map<string, NftRecord>
    /** `Activity`, by txid. */
    var activity: map<string, Activity>
    /** `User`, by address. */
    var users: map<string, User>
    /** `Collection`: address to the marketplace's collection id. */
    var collections: map<string, string>
    /** `Memory`: named values such as `firstActivity:<collId>`. */
    var memory: map<string, string>

    constructor ()
      ensures nfts == map[] && activity == map[] && users == map[]
      ensures collections == map[] && memory == map[]
    {
      nfts, activity, users := map[], map[], map[];
      collections, memory := map[], map[];
    }
  }

  /** `collection.findMany()` mapped to the ids: one entry per row of the
      `Collection` table, in whatever order the query returns the rows. */
  predicate IsIdListing(collIds: seq<string>, collections: map<string, string>) {
    && |collIds| == |collections|
    && (forall c :: c in collIds ==> c in collections.Values)
    && (forall a :: a in collections ==> collections[a] in collIds)
  }

  /** Every offer address is used by at most one offer in the whole table, as
      the `Offer` table's primary key guarantees. */
  ghost predicate OfferKeysUnique(nfts: map<string, NftRecord>) {
    forall a, b, i, j ::
      (a in nfts && b in nfts && 0 <= i < |nfts[a].offers| && 0 <= j < |nfts[b].offers| &&
       nfts[a].offers[i].address == nfts[b].offers[j].address) ==> a == b && i == j
  }

  /** Some stored offer already uses this address. */
  predicate OfferAddressInUse(nfts: map<string, NftRecord>, address: string) {
    exists a :: a in nfts && exists o :: o in nfts[a].offers && o.address == address
  }
}
