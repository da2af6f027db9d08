/** The diff predicates that decide whether a stored NFT differs from the
    marketplace's copy, and the lookup-or-create of an NFT record used by the
    live-event handlers (src/utils.ts). */
module Utils {
  import opened Types

  // ---------------------------------------------------------------------------
  // deepEqual

  /** `obj[key]` on an object's fields: the value of the first field with that
      key, or `undefined` (`None`) when there is none. */
  function Lookup(fs: seq<Field>, key: string): (r: Option<Json>)
    ensures r.Some? <==> exists i :: 0 <= i < |fs| && fs[i].key == key
    ensures r.Some? ==> exists i :: 0 <= i < |fs| && fs[i].key == key && fs[i].value == r.value
    ensures (forall i, k :: 0 <= i < k < |fs| ==> fs[i].key != fs[k].key) ==>
      forall i :: 0 <= i < |fs| && fs[i].key == key ==> r == Some(fs[i].value)
  {
    if fs == [] then None
    else if fs[0].key == key then Some(fs[0].value)
    else Lookup(fs[1..], key)
  }

  /** `deepEqual(x, y)`: on two objects, the key counts agree and every key of
      `x` holds a deeply equal value in `y`; otherwise `x === y`. (Objects are
      always truthy and `typeof null` is "object", so the guard of the source
      picks exactly the object/object case.) */
  predicate DeepEqual(x: Json, y: Json)
    decreases x
  {
    if x.JObject? && y.JObject? then
      && |x.fields| == |y.fields|
      && forall i :: 0 <= i < |x.fields| ==>
           var v := Lookup(y.fields, x.fields[i].key);
           v.Some? && DeepEqual(x.fields[i].value, v.value)
    else x == y
  }

  /** `deepEqual` is reflexive on JSON values. */
  lemma {:induction false} DeepEqualReflexive(x: Json)
    requires WellFormed(x)
    ensures DeepEqual(x, x)
    decreases x
  {
    if x.JObject? {
      forall i | 0 <= i < |x.fields|
        ensures var v := Lookup(x.fields, x.fields[i].key); v.Some? && DeepEqual(x.fields[i].value, v.value)
      {
        DeepEqualReflexive(x.fields[i].value);
      }
    }
  }

  /** Two objects holding the same fields in any order are `deepEqual`. */
  lemma DeepEqualIgnoresFieldOrder(fs: seq<Field>, gs: seq<Field>)
    requires WellFormed(JObject(fs)) && WellFormed(JObject(gs))
    requires |fs| == |gs|
    requires forall f :: f in fs ==> f in gs
    ensures DeepEqual(JObject(fs), JObject(gs))
  {
    forall i | 0 <= i < |fs|
      ensures var v := Lookup(gs, fs[i].key); v.Some? && DeepEqual(fs[i].value, v.value)
    {
      assert fs[i] in gs;
      DeepEqualReflexive(fs[i].value);
    }
  }

  // ---------------------------------------------------------------------------
  // different

  /** `different(a, b)`: listing state, price, last sale or owner differ, or
      the properties blobs are not `deepEqual`. */
  predicate Different(a: NftRecord, b: NftRecord) {
    || a.listed != b.listed
    || a.price != b.price
    || a.lastSale != b.lastSale
    || a.owner != b.owner
    || !DeepEqual(a.properties, b.properties)
  }

  /** A record is never `different` from itself. */
  lemma NotDifferentFromItself(a: NftRecord)
    requires WellFormed(a.properties)
    ensures !Different(a, a)
  {
    DeepEqualReflexive(a.properties);
  }

  // ---------------------------------------------------------------------------
  // differentMetadata / differentOffers: the shared search loop

  /** `b.find((o) => key(o) === k)`. */
  function FindFirst<T, K(==)>(b: seq<T>, k: K, key: T -> K): (r: Option<T>)
    ensures r.Some? ==> r.value in b && key(r.value) == k
    ensures r.None? <==> forall y :: y in b ==> key(y) != k
    ensures r.Some? && |b| > 0 && key(b[0]) == k ==> r.value == b[0]
  {
    if b == [] then None
    else if key(b[0]) == k then Some(b[0])
    else FindFirst(b[1..], k, key)
  }

  /** `find` returns the first match: no element before it has the key. */
  lemma {:induction false} FindFirstIsFirst<T, K>(b: seq<T>, k: K, key: T -> K)
    ensures var r := FindFirst(b, k, key);
      r.Some? ==> exists i :: 0 <= i < |b| && b[i] == r.value && forall j :: 0 <= j < i ==> key(b[j]) != k
    decreases |b|
  {
    if b != [] && key(b[0]) != k {
      var r := FindFirst(b[1..], k, key);
      FindFirstIsFirst(b[1..], k, key);
      if r.Some? {
        var i :| 0 <= i < |b[1..]| && b[1..][i] == r.value && forall j :: 0 <= j < i ==> key(b[1..][j]) != k;
        assert b[i + 1] == r.value;
        assert forall j :: 0 <= j < i + 1 ==> key(b[j]) != k by {
          forall j | 0 <= j < i + 1 ensures key(b[j]) != k {
            if j > 0 { assert b[j] == b[1..][j - 1]; }
          }
        }
      }
    } else if b != [] {
      assert b[0] == FindFirst(b, k, key).value;
    }
  }

  /** The early-exit test in the loop body: the first element of `b` with the
      key of `x` is missing or carries a different value. */
  predicate Unmatched<T, K(==), V(==)>(x: T, b: seq<T>, key: T -> K, val: T -> V) {
    var m := FindFirst(b, key(x), key);
    m.None? || val(m.value) != val(x)
  }

  /** The `for` loop of the source: some element of `a` is unmatched in `b`. */
  predicate AnyUnmatched<T, K(==), V(==)>(a: seq<T>, b: seq<T>, key: T -> K, val: T -> V)
    decreases |a|
  {
    |a| > 0 && (Unmatched(a[0], b, key, val) || AnyUnmatched(a[1..], b, key, val))
  }

  /** The loop returns `true` on the first unmatched element, and otherwise
      compares the lengths. */
  predicate KeyedDifferent<T, K(==), V(==)>(a: seq<T>, b: seq<T>, key: T -> K, val: T -> V) {
    AnyUnmatched(a, b, key, val) || |a| != |b|
  }

  /** No two elements share a key. */
  predicate UniqueKeys<T, K(==)>(a: seq<T>, key: T -> K) {
    forall i, j :: 0 <= i < j < |a| ==> key(a[i]) != key(a[j])
  }

  /** The (key, value) pairs of a list. */
  ghost function Pairs<T, K, V>(a: seq<T>, key: T -> K, val: T -> V): set<(K, V)> {
    set x | x in a :: (key(x), val(x))
  }

  lemma {:induction false} AnyUnmatchedExists<T, K, V>(a: seq<T>, b: seq<T>, key: T -> K, val: T -> V)
    ensures AnyUnmatched(a, b, key, val) <==> exists i :: 0 <= i < |a| && Unmatched(a[i], b, key, val)
    decreases |a|
  {
    if |a| > 0 {
      AnyUnmatchedExists(a[1..], b, key, val);
      if Unmatched(a[0], b, key, val) {
        assert Unmatched(a[0], b, key, val);
      } else if exists i :: 0 <= i < |a| && Unmatched(a[i], b, key, val) {
        var i :| 0 <= i < |a| && Unmatched(a[i], b, key, val);
        assert a[1..][i - 1] == a[i];
      }
    }
  }

  /** `KeyedDifferent(a, b)` is false exactly when the lengths agree and every
      element of `a` has a first match in `b` with the same key and value. */
  lemma KeyedDifferentIff<T, K, V>(a: seq<T>, b: seq<T>, key: T -> K, val: T -> V)
    ensures !KeyedDifferent(a, b, key, val) <==>
      (|a| == |b| && forall i :: 0 <= i < |a| ==> !Unmatched(a[i], b, key, val))
  {
    AnyUnmatchedExists(a, b, key, val);
  }

  /** When keys are unique in `b`, an element is matched exactly when its
      (key, value) pair occurs in `b`. */
  lemma MatchedIffPairIn<T, K, V>(x: T, b: seq<T>, key: T -> K, val: T -> V)
    requires UniqueKeys(b, key)
    ensures !Unmatched(x, b, key, val) <==> (key(x), val(x)) in Pairs(b, key, val)
  {
    var m := FindFirst(b, key(x), key);
    if (key(x), val(x)) in Pairs(b, key, val) {
      var y :| y in b && (key(y), val(y)) == (key(x), val(x));
      assert m.Some?;
      var i :| 0 <= i < |b| && b[i] == m.value;
      var j :| 0 <= j < |b| && b[j] == y;
      assert i == j;
    }
  }

  lemma {:induction false} PairsCardinality<T, K, V>(a: seq<T>, key: T -> K, val: T -> V)
    requires UniqueKeys(a, key)
    ensures |Pairs(a, key, val)| == |a|
    decreases |a|
  {
    if |a| > 0 {
      var init := a[..|a| - 1];
      var x := a[|a| - 1];
      assert UniqueKeys(init, key);
      PairsCardinality(init, key, val);
      assert Pairs(a, key, val) == Pairs(init, key, val) + {(key(x), val(x))} by {
        assert a == init + [x];
      }
      forall y | y in init ensures key(y) != key(x) {
        var j :| 0 <= j < |init| && init[j] == y;
        assert a[j] == y;
      }
    }
  }

  /** With keys unique on both sides the comparison is a set comparison of
      (key, value) pairs: it is insensitive to order and to which side is first. */
  lemma KeyedDifferentIsSetInequality<T, K, V>(a: seq<T>, b: seq<T>, key: T -> K, val: T -> V)
    requires UniqueKeys(a, key) && UniqueKeys(b, key)
    ensures KeyedDifferent(a, b, key, val) <==> Pairs(a, key, val) != Pairs(b, key, val)
  {
    KeyedDifferentIff(a, b, key, val);
    PairsCardinality(a, key, val);
    PairsCardinality(b, key, val);
    forall x | x in a
      ensures !Unmatched(x, b, key, val) <==> (key(x), val(x)) in Pairs(b, key, val)
    {
      MatchedIffPairIn(x, b, key, val);
    }
    if !KeyedDifferent(a, b, key, val) {
      assert Pairs(a, key, val) <= Pairs(b, key, val) by {
        forall p | p in Pairs(a, key, val) ensures p in Pairs(b, key, val) {
          var x :| x in a && p == (key(x), val(x));
          var i :| 0 <= i < |a| && a[i] == x;
          assert !Unmatched(a[i], b, key, val);
        }
      }
      SubsetOfEqualSize(Pairs(a, key, val), Pairs(b, key, val));
    } else if Pairs(a, key, val) == Pairs(b, key, val) {
      forall i | 0 <= i < |a| ensures !Unmatched(a[i], b, key, val) {
        assert a[i] in a;
        assert (key(a[i]), val(a[i])) in Pairs(a, key, val);
      }
      assert false;
    }
  }

  lemma SubsetOfEqualSize<X>(s: set<X>, t: set<X>)
    requires s <= t && |s| == |t|
    ensures s == t
  {
    if s != t {
      var x :| x in t && x !in s;
      SubsetCardinality(s, t - {x});
    }
  }

  lemma {:induction false} SubsetCardinality<X>(s: set<X>, t: set<X>)
    requires s <= t
    ensures |s| <= |t|
    decreases s
  {
    if s != {} {
      var y :| y in s;
      SubsetCardinality(s - {y}, t - {y});
    }
  }

  /** Reordering either list, with keys unique in `b`, never changes the verdict. */
  lemma KeyedDifferentOrderInsensitive<T, K, V>(
    a: seq<T>, a': seq<T>, b: seq<T>, b': seq<T>, key: T -> K, val: T -> V)
    requires multiset(a) == multiset(a') && multiset(b) == multiset(b')
    requires UniqueKeys(b, key) && UniqueKeys(b', key)
    ensures KeyedDifferent(a, b, key, val) == KeyedDifferent(a', b', key, val)
  {
    assert |a| == |multiset(a)| == |a'|;
    assert |b| == |multiset(b)| == |b'|;
    assert Pairs(b, key, val) == Pairs(b', key, val) by {
      forall x ensures x in b <==> x in b' {
        assert x in b <==> x in multiset(b);
        assert x in b' <==> x in multiset(b');
      }
    }
    KeyedDifferentIff(a, b, key, val);
    KeyedDifferentIff(a', b', key, val);
    forall x | x in a || x in a'
      ensures (x in a <==> x in a')
      ensures !Unmatched(x, b, key, val) <==> !Unmatched(x, b', key, val)
    {
      assert x in a <==> x in multiset(a);
      assert x in a' <==> x in multiset(a');
      MatchedIffPairIn(x, b, key, val);
      MatchedIffPairIn(x, b', key, val);
    }
    if !KeyedDifferent(a, b, key, val) {
      forall i | 0 <= i < |a'| ensures !Unmatched(a'[i], b', key, val) {
        assert a'[i] in a';
        var k :| 0 <= k < |a| && a[k] == a'[i];
      }
    }
    if !KeyedDifferent(a', b', key, val) {
      forall i | 0 <= i < |a| ensures !Unmatched(a[i], b, key, val) {
        assert a[i] in a;
        var k :| 0 <= k < |a'| && a'[k] == a[i];
      }
    }
  }

  // ---------------------------------------------------------------------------
  // differentMetadata / differentOffers

  function MetaKey(m: MetadataEntry): string { m.key }
  function MetaValue(m: MetadataEntry): string { m.value }
  function OfferAddress(o: Offer): string { o.address }
  function OfferAmount(o: Offer): int { o.bidAmount }

  /** `differentMetadata(a, b)`: matched by key, compared by value. */
  predicate DifferentMetadata(a: NftRecord, b: NftRecord) {
    KeyedDifferent(a.metadata, b.metadata, MetaKey, MetaValue)
  }

  /** `differentOffers(a, b)`: matched by offer address, compared by bid amount. */
  predicate DifferentOffers(a: NftRecord, b: NftRecord) {
    KeyedDifferent(a.offers, b.offers, OfferAddress, OfferAmount)
  }

  /** `differentMetadata` is false exactly when the lengths are equal and every
      entry of `a` has a first entry in `b` with its key and its value. */
  lemma DifferentMetadataIff(a: NftRecord, b: NftRecord)
    ensures !DifferentMetadata(a, b) <==>
      (&& |a.metadata| == |b.metadata|
       && forall i :: 0 <= i < |a.metadata| ==>
            var m := FindFirst(b.metadata, a.metadata[i].key, MetaKey);
            m.Some? && m.value.value == a.metadata[i].value)
  {
    KeyedDifferentIff(a.metadata, b.metadata, MetaKey, MetaValue);
  }

  /** `differentOffers` is false exactly when the lengths are equal and every
      offer of `a` has an offer in `b` with its address and its bid amount. */
  lemma DifferentOffersIff(a: NftRecord, b: NftRecord)
    ensures !DifferentOffers(a, b) <==>
      (&& |a.offers| == |b.offers|
       && forall i :: 0 <= i < |a.offers| ==>
            var o := FindFirst(b.offers, a.offers[i].address, OfferAddress);
            o.Some? && o.value.bidAmount == a.offers[i].bidAmount)
  {
    KeyedDifferentIff(a.offers, b.offers, OfferAddress, OfferAmount);
  }

  /** With unique keys, `differentMetadata` compares the sets of (key, value)
      pairs; so it is symmetric and false for a list compared with itself. */
  lemma DifferentMetadataIsSetInequality(a: NftRecord, b: NftRecord)
    requires UniqueKeys(a.metadata, MetaKey) && UniqueKeys(b.metadata, MetaKey)
    ensures DifferentMetadata(a, b) <==>
      Pairs(a.metadata, MetaKey, MetaValue) != Pairs(b.metadata, MetaKey, MetaValue)
    ensures DifferentMetadata(a, b) == DifferentMetadata(b, a)
  {
    KeyedDifferentIsSetInequality(a.metadata, b.metadata, MetaKey, MetaValue);
    KeyedDifferentIsSetInequality(b.metadata, a.metadata, MetaKey, MetaValue);
  }

  /** With unique addresses, `differentOffers` compares the sets of
      (address, bidAmount) pairs. */
  lemma DifferentOffersIsSetInequality(a: NftRecord, b: NftRecord)
    requires UniqueKeys(a.offers, OfferAddress) && UniqueKeys(b.offers, OfferAddress)
    ensures DifferentOffers(a, b) <==>
      Pairs(a.offers, OfferAddress, OfferAmount) != Pairs(b.offers, OfferAddress, OfferAmount)
    ensures DifferentOffers(a, b) == DifferentOffers(b, a)
  {
    KeyedDifferentIsSetInequality(a.offers, b.offers, OfferAddress, OfferAmount);
    KeyedDifferentIsSetInequality(b.offers, a.offers, OfferAddress, OfferAmount);
  }

  /** With keys unique, a record's metadata and offers are never different
      from themselves. */
  lemma SameCollectionsNotDifferent(a: NftRecord)
    requires UniqueKeys(a.metadata, MetaKey) && UniqueKeys(a.offers, OfferAddress)
    ensures !DifferentMetadata(a, a) && !DifferentOffers(a, a)
  {
    DifferentMetadataIsSetInequality(a, a);
    DifferentOffersIsSetInequality(a, a);
  }

  /** Reordering the metadata of either record does not change the verdict
      when keys are unique in the second record. */
  lemma DifferentMetadataOrderInsensitive(a: NftRecord, a': NftRecord, b: NftRecord, b': NftRecord)
    requires multiset(a.metadata) == multiset(a'.metadata) && multiset(b.metadata) == multiset(b'.metadata)
    requires UniqueKeys(b.metadata, MetaKey) && UniqueKeys(b'.metadata, MetaKey)
    ensures DifferentMetadata(a, b) == DifferentMetadata(a', b')
  {
    KeyedDifferentOrderInsensitive(a.metadata, a'.metadata, b.metadata, b'.metadata, MetaKey, MetaValue);
  }

  /** Reordering the offers of either record does not change the verdict when
      addresses are unique in the second record. */
  lemma DifferentOffersOrderInsensitive(a: NftRecord, a': NftRecord, b: NftRecord, b': NftRecord)
    requires multiset(a.offers) == multiset(a'.offers) && multiset(b.offers) == multiset(b'.offers)
    requires UniqueKeys(b.offers, OfferAddress) && UniqueKeys(b'.offers, OfferAddress)
    ensures DifferentOffers(a, b) == DifferentOffers(a', b')
  {
    KeyedDifferentOrderInsensitive(a.offers, a'.offers, b.offers, b'.offers, OfferAddress, OfferAmount);
  }

  // ---------------------------------------------------------------------------
  // fetchNft

  /** The collection an asset's on-chain metadata names. */
  datatype CollectionRef = CollectionRef(key: string, verified: bool)

  /** What the digital-asset resolver and the metadata URI return for an asset. */
  datatype AssetInfo = AssetInfo(
    name: string,
    image: string,
    properties: Json,
    attributes: seq<MetadataEntry>,
    collection: Option<CollectionRef>)

  datatype FetchNftResult =
    | Existing(nft: NftRecord)     // the stored record, unchanged
    | Inserted(nft: NftRecord)     // a new baseline record was written
    | OutsideCollection            // `inCollection: false`, nothing written
    | AssetUnavailable             // the resolver or the URI fetch threw

  datatype Fetched = Fetched(result: FetchNftResult, nfts: map<string, NftRecord>)

  /** `nft.metadata.collection` is `Some`, verified, and not a tracked address. */
  predicate ForeignCollection(asset: AssetInfo, tracked: seq<string>) {
    asset.collection.Some? && asset.collection.value.verified && asset.collection.value.key !in tracked
  }

  /** `fetchNft(address, owner, listed)` against the NFT table `nfts`; `asset`
      is what the resolver would return (`None` when it throws) and `owner` is
      already `owner || ""`. */
  function FetchNft(nfts: map<string, NftRecord>, address: string, owner: string, listed: bool,
                    asset: Option<AssetInfo>, tracked: seq<string>): (r: Fetched)
    ensures address in nfts ==> r == Fetched(Existing(nfts[address]), nfts)
    ensures address !in nfts && asset.None? ==> r == Fetched(AssetUnavailable, nfts)
    ensures r.result.OutsideCollection? <==>
      address !in nfts && asset.Some? && ForeignCollection(asset.value, tracked)
    ensures r.result.OutsideCollection? ==> r.nfts == nfts
    ensures r.result.Inserted? ==>
      && address !in nfts && asset.Some?
      && r.nfts == nfts[address := r.result.nft]
      && var n := r.result.nft;
         && n.address == address && n.owner == owner && n.listed == listed
         && n.lastSale == 0 && n.price.None? && !n.burned
         && n.name == asset.value.name && n.image == asset.value.image
         && n.properties == asset.value.properties
         && n.metadata == asset.value.attributes && n.offers == []
    ensures r.result.Existing? || r.result.Inserted? <==> address in r.nfts
  {
    if address in nfts then Fetched(Existing(nfts[address]), nfts)
    else if asset.None? then Fetched(AssetUnavailable, nfts)
    else if ForeignCollection(asset.value, tracked) then Fetched(OutsideCollection, nfts)
    else
      var a := asset.value;
      var n := NftRecord(address, a.name, a.image, owner, None, listed, 0, false, a.properties, a.attributes, []);
      Fetched(Inserted(n), nfts[address := n])
  }

  /** Looking up an address a second time finds what the first lookup found or
      wrote, and writes nothing more. */
  lemma FetchNftIdempotent(nfts: map<string, NftRecord>, address: string, owner: string, listed: bool,
                           asset: Option<AssetInfo>, tracked: seq<string>,
                           owner': string, listed': bool, asset': Option<AssetInfo>)
    requires FetchNft(nfts, address, owner, listed, asset, tracked).result.Inserted? ||
             FetchNft(nfts, address, owner, listed, asset, tracked).result.Existing?
    ensures var r := FetchNft(nfts, address, owner, listed, asset, tracked);
      FetchNft(r.nfts, address, owner', listed', asset', tracked) == Fetched(Existing(r.result.nft), r.nfts)
  {
  }
}
