// python/server/auction.py: groups in an insertion-ordered dictionary, a sort on a pair key in
// reverse, features equal to 0 taken for missing, and exceptions where rows are malformed.

module PythonAuction {
  import opened Wrappers
  import opened Database
  import opened Metrics
  import opened AuctionSpec
  import opened Targeting
  import opened Blocking
  import opened Sorting
  import opened Pipeline
  import GoAuction

  datatype Outcome = Raised | Finished(response: Option<Response>)

  /** `CategoryBlockingType(...)` raises on a value the enum does not have. */
  predicate BadType(db: Db, req: Request, a: Ads) {
    && a in db.adses && SizeOk(db, req, a) && a.advertiserId in db.advertisers
    && db.advertisers[a.advertiserId].blockingType != ALLOW && db.advertisers[a.advertiserId].blockingType != DENY
  }

  /** `data, = cursor.fetchone()` raises when there is no row. */
  predicate NoFeatureRow(db: Db, req: Request, a: Ads) {
    a in db.adses && SizeOk(db, req, a) && Eligible(db, req, a.advertiserId) && a.adsId !in db.features
  }

  lemma RaisesExactly(db: Db, req: Request)
    ensures (exists a :: BadType(db, req, a) || NoFeatureRow(db, req, a)) <==>
      exists a | a in db.adses && SizeOk(db, req, a) ::
        (a.advertiserId in db.advertisers && db.advertisers[a.advertiserId].blockingType > 1) ||
        (Eligible(db, req, a.advertiserId) && a.adsId !in db.features)
  {
    forall a | a in db.adses && SizeOk(db, req, a)
      ensures BadType(db, req, a) || NoFeatureRow(db, req, a) <==>
        (a.advertiserId in db.advertisers && db.advertisers[a.advertiserId].blockingType > 1) ||
        (Eligible(db, req, a.advertiserId) && a.adsId !in db.features) {}
  }

  /** The domain loop; `None` is an exception. */
  method FilterByDomain(db: Db, req: Request, adses: seq<Ads>) returns (result: Option<seq<Ads>>)
    requires AllFitting(db, req, adses)
    ensures result.None? <==> exists a :: BadType(db, req, a)
    ensures result.Some? ==> AllOpen(db, req, result.value)
  {
    var kept := [];
    for i := 0 to |adses|
      invariant KeptSoFar(Open(db, req), adses[..i], kept)
      invariant forall a :: a in adses[..i] ==> !BadType(db, req, a)
    {
      var ads := adses[i];
      KeepStep(Open(db, req), adses, i, kept);
      assert adses[..i + 1] == adses[..i] + [ads];
      match FetchAdvertiser(db, ads.advertiserId)
      case None =>
      case Some(advertiser) =>
        if advertiser.blockingType != ALLOW && advertiser.blockingType != DENY {
          assert ads in adses && BadType(db, req, ads);
          return None;
        }
        var contained := ContainsBlocked(advertiser.domain, req.blockDomains);
        if !contained {
          kept := kept + [ads];
        }
    }
    assert adses[..|adses|] == adses;
    result := Some(kept);
  }

  /** `keys` lists the dictionary's keys, each once, in the order they were inserted. */
  ghost predicate InsertionOrder(groups: map<nat, seq<Ads>>, keys: seq<nat>) {
    && (forall k :: k in keys <==> k in groups)
    && forall i, j :: 0 <= i < j < |keys| ==> keys[i] != keys[j]
  }

  /** The category loop. */
  method GroupByAdvertiser(db: Db, req: Request, adses: seq<Ads>) returns (groups: map<nat, seq<Ads>>, keys: seq<nat>)
    requires AllOpen(db, req, adses)
    requires forall a :: !BadType(db, req, a)
    ensures Grouped(db, req, groups) && InsertionOrder(groups, keys)
  {
    groups, keys := map[], [];
    for i := 0 to |adses|
      invariant GroupedSoFar(Passing(db, req), adses[..i], groups) && InsertionOrder(groups, keys)
    {
      var ads := adses[i];
      GroupAppend(Passing(db, req), adses, i, groups);
      var advertiser, categories := FetchAdvertiser(db, ads.advertiserId), FetchCategoryBlocking(db, ads.advertiserId);
      if advertiser.Some? && categories.Some? {
        assert ads in adses && !BadType(db, req, ads);
        var blocked := PythonCategoryBlocking(advertiser.value.blockingType, categories.value, req.categoryIds);
        if blocked {
          continue;
        }
      }
      if ads.advertiserId !in groups {
        keys := keys + [ads.advertiserId];
      }
      groups := Append(groups, ads);
    }
    assert adses[..|adses|] == adses;
    GroupedEnd(db, req, adses, groups);
  }

  /** The feature loop of one group; `None` is an exception. */
  method CollectFeatures(db: Db, group: seq<Ads>) returns (result: Option<seq<AdsFeature>>)
    ensures result.None? <==> exists a :: a in group && a.adsId !in db.features
    ensures result.Some? ==> result.value == Features(NonZeroFeatures(db), group)
  {
    var fs := [];
    for i := 0 to |group|
      invariant fs == Features(NonZeroFeatures(db), group[..i])
      invariant forall a :: a in group[..i] ==> a.adsId in db.features
    {
      assert group[..i + 1][..i] == group[..i];
      match FetchAdsFeature(db, group[i].adsId)
      case None => return None;
      case Some(f) =>
        if f.feature != 0 {
          fs := fs + [f];
        }
    }
    assert group[..|group|] == group;
    result := Some(fs);
  }

  /** The filters never read a feature, so dropping some changes no group. */
  lemma GroupedWithoutZeros(db: Db, req: Request, groups: map<nat, seq<Ads>>)
    requires Grouped(db, req, groups)
    ensures Grouped(NonZeroFeatures(db), req, groups)
  {
    var nz := NonZeroFeatures(db);
    forall k ensures Eligible(nz, req, k) == Eligible(db, req, k) {}
    forall a ensures SizeOk(nz, req, a) == SizeOk(db, req, a) {}
  }

  lemma NextKey(keys: seq<nat>, i: nat, remaining: set<nat>)
    requires i < |keys| && (forall j, j' :: 0 <= j < j' < |keys| ==> keys[j] != keys[j'])
    requires forall k :: k in remaining <==> k in keys[i..]
    ensures keys[i] in remaining
    ensures forall k :: k in remaining - {keys[i]} <==> k in keys[i + 1..]
  {
    assert keys[i..] == [keys[i]] + keys[i + 1..];
  }

  /** Feature rows are missing, if at all, only in groups not yet visited. */
  ghost predicate RowsSoFar(db: Db, req: Request, remaining: set<nat>) {
    forall a :: NoFeatureRow(db, req, a) ==> a.advertiserId in remaining
  }

  lemma RowsStep(db: Db, req: Request, groups: map<nat, seq<Ads>>, remaining: set<nat>, k: nat)
    requires Grouped(db, req, groups) && k in groups && RowsSoFar(db, req, remaining)
    ensures (exists a :: a in groups[k] && a.adsId !in db.features) ==> exists a :: NoFeatureRow(db, req, a)
    ensures (forall a :: a in groups[k] ==> a.adsId in db.features) ==> RowsSoFar(db, req, remaining - {k})
  {
    if a :| a in groups[k] && a.adsId !in db.features {
      assert NoFeatureRow(db, req, a);
    }
  }

  /** The targeting loop in insertion order; `None` is an exception. */
  method SelectRepresentatives(db: Db, req: Request, groups: map<nat, seq<Ads>>, keys: seq<nat>)
    returns (result: Option<seq<Ads>>)
    requires ValidDb(db) && Grouped(db, req, groups) && InsertionOrder(groups, keys)
    ensures result.None? <==> exists a :: NoFeatureRow(db, req, a)
    ensures result.Some? ==> AllRepresentatives(NonZeroFeatures(db), req, ClampedAtMaxsize, result.value)
  {
    var targetted := [];
    ghost var nz := NonZeroFeatures(db);
    GroupedWithoutZeros(db, req, groups);
    ghost var remaining := groups.Keys;
    assert keys[0..] == keys;
    for i := 0 to |keys|
      invariant forall k :: k in remaining <==> k in keys[i..]
      invariant TargetedSoFar(nz, req, ClampedAtMaxsize, groups, remaining, targetted)
      invariant RowsSoFar(db, req, remaining)
    {
      var k := keys[i];
      NextKey(keys, i, remaining);
      TargetedStep(nz, req, ClampedAtMaxsize, groups, remaining, targetted, k);
      RowsStep(db, req, groups, remaining, k);
      var fs := CollectFeatures(db, groups[k]);
      if fs.None? {
        return None;
      }
      if |fs.value| > 0 {
        var best := PythonFeatureTargeting(fs.value, req.feature);
        var chosen := CollectWithId(groups[k], best.adsId);
        targetted := targetted + chosen;
      }
      remaining := remaining - {k};
    }
    assert remaining == {};
    TargetedEnd(nz, req, ClampedAtMaxsize, groups, targetted);
    result := Some(targetted);
  }

  /** Python's pair key in reverse induces Go's order. */
  lemma PairKeySorts(s: seq<Ads>)
    ensures SortedBy(PairKeyReversed, s) <==> SortedBy(PriceThenAdsId, s)
  {
    forall a, b ensures Less(PairKeyReversed, a, b) == Less(PriceThenAdsId, a, b) {
      PairKeyIsComparator(a, b);
    }
  }

  method Auction(db: Db, req: Request) returns (outcome: Outcome)
    requires ValidDb(db)
    ensures outcome.Raised? <==> exists a :: BadType(db, req, a) || NoFeatureRow(db, req, a)
    ensures outcome.Raised? <==> exists a | a in db.adses && SizeOk(db, req, a) ::
      (a.advertiserId in db.advertisers && db.advertisers[a.advertiserId].blockingType > 1) ||
      (Eligible(db, req, a.advertiserId) && a.adsId !in db.features)
    ensures outcome.Finished? ==> outcome.response == Respond(req, Winner(NonZeroFeatures(db), req, PYTHON_RULES))
    ensures outcome.Finished? ==> (outcome.response.None? <==>
      forall a :: !(Contender(NonZeroFeatures(db), req, a) && Eligible(NonZeroFeatures(db), req, a.advertiserId)))
    ensures outcome.Finished? && outcome.response.Some? ==>
      outcome.response.value.auctionId == req.auctionId &&
      exists w :: IsWinner(NonZeroFeatures(db), req, PYTHON_RULES, w)
        && outcome.response.value.ads == w.adsTxt && outcome.response.value.price == w.price
  {
    WinnerExists(NonZeroFeatures(db), req, PYTHON_RULES);
    RaisesExactly(db, req);
    var fitting := FilterBySize(db, req);
    var open := FilterByDomain(db, req, fitting);
    if open.None? {
      return Raised;
    }
    var groups, keys := GroupByAdvertiser(db, req, open.value);
    var targetted := SelectRepresentatives(db, req, groups, keys);
    if targetted.None? {
      return Raised;
    }
    var list := new Ads[|targetted.value|](i requires 0 <= i < |targetted.value| => targetted.value[i]);
    assert list[..] == targetted.value;
    StableSort(list, PairKeyReversed);
    PairKeySorts(list[..]);
    GoAuction.AnySortStartsWithWinner(NonZeroFeatures(db), req, ClampedAtMaxsize, targetted.value, list[..]);
    if list.Length == 0 {
      return Finished(None);
    }
    var winner := list[0];
    return Finished(Some(Response(req.auctionId, winner.adsTxt, winner.price)));
  }
}
