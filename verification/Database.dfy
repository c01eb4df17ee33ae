// The rows the auction reads, and the lookups it makes. Every lookup is one SQL query
// of the original; a query that finds nothing is `None`.

module Wrappers {
  datatype Option<+T> = None | Some(value: T)
}

module Database {
  import opened Wrappers

  /** A row of `adses`. The price is a decimal(15, 4), held as a number of ten-thousandths. */
  datatype Ads = Ads(adsId: nat, advertiserId: nat, price: int, adsTxt: string, sizeId: nat)

  datatype AdSize = AdSize(width: nat, height: nat)

  datatype Advertiser = Advertiser(blockingType: nat, domain: string)

  datatype AdsFeature = AdsFeature(adsId: nat, feature: int)

  datatype Request = Request(
    auctionId: string, categoryIds: seq<nat>, feature: int,
    zoneWidth: nat, zoneHeight: nat, blockDomains: seq<string>)

  datatype Response = Response(auctionId: string, ads: string, price: int)

  /** The five tables. `adses` is the answer to the query ordered by the primary key. */
  datatype Db = Db(
    adses: seq<Ads>, sizes: map<nat, AdSize>, advertisers: map<nat, Advertiser>,
    categories: map<nat, seq<nat>>, features: map<nat, int>)

  const ALLOW: nat := 0
  const DENY: nat := 1

  predicate IncreasingIds(adses: seq<Ads>) {
    forall i, j :: 0 <= i < j < |adses| ==> adses[i].adsId < adses[j].adsId
  }

  /** `ads_id` is a primary key and the ads are fetched ORDER BY ads_id. */
  predicate ValidDb(db: Db) {
    IncreasingIds(db.adses)
  }

  function FetchAdSize(db: Db, sizeId: nat): Option<AdSize> {
    if sizeId in db.sizes then Some(db.sizes[sizeId]) else None
  }

  function FetchAdvertiser(db: Db, advertiserId: nat): Option<Advertiser> {
    if advertiserId in db.advertisers then Some(db.advertisers[advertiserId]) else None
  }

  /** No row at all is reported as an error, so an empty answer never reaches the caller. */
  function FetchCategoryBlocking(db: Db, advertiserId: nat): Option<seq<nat>> {
    if advertiserId in db.categories && db.categories[advertiserId] != []
    then Some(db.categories[advertiserId]) else None
  }

  /** Rows are found exactly when there are some, and all of them. */
  lemma FetchesCategories(db: Db, k: nat)
    ensures FetchCategoryBlocking(db, k).Some? <==> k in db.categories && exists c :: c in db.categories[k]
    ensures FetchCategoryBlocking(db, k).Some? ==>
      forall c :: c in FetchCategoryBlocking(db, k).value <==> c in db.categories[k]
  {
    if k in db.categories && db.categories[k] != [] {
      assert db.categories[k][0] in db.categories[k];
    }
  }

  function FetchAdsFeature(db: Db, adsId: nat): Option<AdsFeature> {
    if adsId in db.features then Some(AdsFeature(adsId, db.features[adsId])) else None
  }

  /** The tables as Python sees them: its `if data` is false for a feature of 0 as well as for
      no feature. */
  function NonZeroFeatures(db: Db): Db {
    db.(features := map id | id in db.features && db.features[id] != 0 :: db.features[id])
  }

  /** Two equally ordered lists of ads with the same members are the same list. */
  lemma {:induction false} IncreasingIdsUnique(s: seq<Ads>, t: seq<Ads>)
    requires IncreasingIds(s) && IncreasingIds(t)
    requires forall a :: a in s <==> a in t
    ensures s == t
  {
    if s == [] {
      assert forall k | 0 <= k < |t| :: t[k] in s;
    } else {
      assert s[|s| - 1] in t;
      var m, n := s[|s| - 1], t[|t| - 1];
      assert n in t && n in s;
      assert m == n;
      var s', t' := s[..|s| - 1], t[..|t| - 1];
      forall a ensures a in s' <==> a in t' {
        assert a in s' <==> a in s && a != m;
        assert a in t' <==> a in t && a != n;
      }
      IncreasingIdsUnique(s', t');
      assert s == s' + [m] && t == t' + [n];
    }
  }

  /** Extending an increasing list by a larger id keeps it increasing. */
  lemma IncreasingIdsAppend(s: seq<Ads>, prefix: seq<Ads>, a: Ads)
    requires IncreasingIds(s) && IncreasingIds(prefix + [a])
    requires forall x :: x in s ==> x in prefix
    ensures IncreasingIds(s + [a])
  {
    forall i | 0 <= i < |s| ensures s[i].adsId < a.adsId {
      assert s[i] in prefix;
      var k :| 0 <= k < |prefix| && prefix[k] == s[i];
      assert (prefix + [a])[k].adsId < (prefix + [a])[|prefix|].adsId;
    }
  }
}
