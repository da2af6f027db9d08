/** Value types shared by the synchronisation engine: the records of the local
    store, the shapes of the marketplace's responses, and the JSON values that
    travel in the `properties` blob. */
module Types {

  datatype Option<T> = None | Some(value: T) {
    /** The value, or `d` when there is none (`x ?? d`). */
    function GetOr(d: T): T {
      if Some? then value else d
    }
  }

  /** A JSON value as `JSON.parse` produces it. Arrays appear as objects whose
      keys are the decimal indices, which is how `Object.keys` sees them;
      numbers are integers. */
  datatype Json =
    | JNull
    | JBool(b: bool)
    | JNum(n: int)
    | JStr(s: string)
    | JObject(fields: seq<Field>)

  datatype Field = Field(key: string, value: Json)

  /** JavaScript truthiness of a JSON value: `null`, `false`, `0` and `""` are falsy. */
  predicate Truthy(j: Json) {
    match j
    case JNull => false
    case JBool(b) => b
    case JNum(n) => n != 0
    case JStr(s) => s != ""
    case JObject(_) => true
  }

  /** Keys are unique in every object of the tree, as `JSON.parse` leaves them. */
  predicate WellFormed(j: Json) {
    match j
    case JObject(fs) =>
      && (forall i, k :: 0 <= i < k < |fs| ==> fs[i].key != fs[k].key)
      && (forall i :: 0 <= i < |fs| ==> WellFormed(fs[i].value))
    case _ => true
  }

  /** One trait of an NFT (a `Metadata` row without its generated id). */
  datatype MetadataEntry = MetadataEntry(key: string, value: string)

  /** A bid on an NFT (an `Offer` row). */
  datatype Offer = Offer(address: string, nftMint: string, bidAmount: int, bidder: string, expiry: string)

  /** A `UniversalNFTData` row together with its metadata and offer rows. */
  datatype NftRecord = NftRecord(
    address: string,
    name: string,
    image: string,
    owner: string,
    price: Option<int>,
    listed: bool,
    lastSale: int,
    burned: bool,
    properties: Json,
    metadata: seq<MetadataEntry>,
    offers: seq<Offer>)

  datatype ActivityType = List | Delist | Buy | Sell | AcceptBid | PlaceBid | CancelBid | Update

  /** An `Activity` row; `txid` is its unique key. */
  datatype Activity = Activity(
    txid: string,
    from: string,
    to: Option<string>,
    amount: Option<int>,
    kind: ActivityType,
    nftAddress: string)

  /** A `User` row: the address and its cumulative counters. */
  datatype User = User(
    address: string,
    cards: int,
    level: int,
    totalListed: int,
    totalSold: int,
    totalSoldValue: int,
    totalBought: int,
    totalBoughtValue: int)

  /** A marketplace transaction. `grossAmount` is `None` when the upstream
      string is empty; `buyerId` is `None` when it is null. */
  datatype Tx = Tx(
    txKey: string,
    txId: string,
    txType: string,
    grossAmount: Option<int>,
    sellerId: string,
    buyerId: Option<string>,
    mintOnchainId: string)

  /** One answer of a paginated endpoint: a non-200 status, or a page of items
      with the `hasMore` flag and the cursor of the next page. */
  datatype Response<T> = Failed | Page(items: seq<T>, hasMore: bool, cursor: string)

  /** The items of all successful pages, in order. */
  function PageItems<T>(rs: seq<Response<T>>): (items: seq<T>)
    decreases |rs|
  {
    if rs == [] then []
    else PageItems(rs[..|rs| - 1]) + (if rs[|rs| - 1].Page? then rs[|rs| - 1].items else [])
  }

  /** The cursor sent with the request that follows the answers `rs`: the
      first request has none, a page moves the cursor on, a failure repeats
      the same request. */
  function NextCursor<T>(rs: seq<Response<T>>): string
    decreases |rs|
  {
    if rs == [] then ""
    else if rs[|rs| - 1].Failed? then NextCursor(rs[..|rs| - 1])
    else rs[|rs| - 1].cursor
  }

  /** The cursor of each request, given the answers to the requests before it. */
  function Cursors<T>(rs: seq<Response<T>>): (cs: seq<string>)
    ensures |cs| == |rs|
    decreases |rs|
  {
    if rs == [] then [] else Cursors(rs[..|rs| - 1]) + [NextCursor(rs[..|rs| - 1])]
  }

  /** Request `j` carries the cursor of the last page answered before it; the
      first request carries none and a failure repeats the same request. */
  lemma {:induction false} CursorsSpec<T>(rs: seq<Response<T>>)
    ensures forall j :: 0 <= j < |rs| ==> Cursors(rs)[j] == NextCursor(rs[..j])
    ensures |rs| > 0 ==> Cursors(rs)[0] == ""
    ensures forall j :: 0 <= j < |rs| - 1 ==>
      Cursors(rs)[j + 1] == (if rs[j].Failed? then Cursors(rs)[j] else rs[j].cursor)
    decreases |rs|
  {
    if rs != [] {
      var init := rs[..|rs| - 1];
      CursorsSpec(init);
      assert forall j :: 0 <= j < |init| ==> init[..j] == rs[..j];
      assert forall j :: 0 <= j < |rs| - 1 ==> rs[..j + 1][..j] == rs[..j];
    }
  }

  /** Sum over a sequence of sequences. */
  function Flatten<T>(ss: seq<seq<T>>): seq<T>
    decreases |ss|
  {
    if ss == [] then [] else Flatten(ss[..|ss| - 1]) + ss[|ss| - 1]
  }

  lemma {:induction false} FlattenCons<T>(x: seq<T>, ss: seq<seq<T>>)
    ensures Flatten([x] + ss) == x + Flatten(ss)
    decreases |ss|
  {
    if ss != [] {
      var init := ss[..|ss| - 1];
      assert ([x] + ss)[..|ss|] == [x] + init;
      FlattenCons(x, init);
    } else {
      assert ([x] + ss)[..0] == [];
    }
  }
}
