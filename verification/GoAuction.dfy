// golang/server/auction.go: groups in a hash map iterated in any order, and an unstable sort.

module GoAuction {
  import opened Wrappers
  import opened Database
  import opened Metrics
  import opened AuctionSpec
  import opened Targeting
  import opened Blocking
  import opened Sorting
  import opened Pipeline

  /** The category loop, appending each unblocked ad to its advertiser's list. */
  method GroupByAdvertiser(db: Db, req: Request, adses: seq<Ads>) returns (groups: map<nat, seq<Ads>>)
    requires AllOpen(db, req, adses)
    ensures Grouped(db, req, groups)
  {
    groups := map[];
    for i := 0 to |adses|
      invariant GroupedSoFar(Passing(db, req), adses[..i], groups)
    {
      var ads := adses[i];
      GroupAppend(Passing(db, req), adses, i, groups);
      var advertiser, categories := FetchAdvertiser(db, ads.advertiserId), FetchCategoryBlocking(db, ads.advertiserId);
      if advertiser.Some? && categories.Some? {
        var blocked := GoCategoryBlocking(advertiser.value.blockingType, categories.value, req.categoryIds);
        if blocked {
          continue;
        }
      }
      groups := Append(groups, ads);
    }
    assert adses[..|adses|] == adses;
    GroupedEnd(db, req, adses, groups);
  }

  /** The targeting loop. `k` is an arbitrary key not yet visited: Go's map order. */
  method SelectRepresentatives(db: Db, req: Request, groups: map<nat, seq<Ads>>) returns (targetted: seq<Ads>)
    requires ValidDb(db) && Grouped(db, req, groups)
    ensures AllRepresentatives(db, req, Float64Of64Bit, targetted)
  {
    targetted := [];
    var remaining := groups.Keys;
    while remaining != {}
      invariant TargetedSoFar(db, req, Float64Of64Bit, groups, remaining, targetted)
      decreases |remaining|
    {
      var k :| k in remaining;
      TargetedStep(db, req, Float64Of64Bit, groups, remaining, targetted, k);
      var fs := CollectFeatures(db, groups[k]);
      if |fs| > 0 {
        var best := GoFeatureTargeting(fs, req.feature);
        var chosen := CollectWithId(groups[k], best.adsId);
        targetted := targetted + chosen;
      }
      remaining := remaining - {k};
    }
    TargetedEnd(db, req, Float64Of64Bit, groups, targetted);
  }

  /** Whatever list holds the representatives, and whatever the sort makes of it within its
      contract, the first element is the winner. */
  lemma AnySortStartsWithWinner(db: Db, req: Request, m: Metric, targetted: seq<Ads>, sorted: seq<Ads>)
    requires ValidDb(db)
    requires AllRepresentatives(db, req, m, targetted)
    requires Permutation(targetted, sorted) && SortedBy(PriceThenAdsId, sorted)
    ensures Winner(db, req, Rules(m, ByAdsId)) == if sorted == [] then None else Some(sorted[0])
  {
    var rules := Rules(m, ByAdsId);
    if targetted == [] {
      assert multiset(sorted) == multiset([]);
      assert |sorted| == |multiset(sorted)| == 0;
      assert forall a :: !IsRepresentative(db, req, m, a);
    } else {
      SortedHead(PriceThenAdsId, targetted, sorted);
      var w := sorted[0];
      forall r | IsRepresentative(db, req, m, r) && r != w ensures Before(ByAdsId, w, r) {
        assert !Less(PriceThenAdsId, r, w);
        if r.adsId == w.adsId {
          SameIdSameAd(db, r, w);
        }
      }
      assert IsWinner(db, req, rules, w);
      WinnerIs(db, req, rules, w);
    }
  }

  method Auction(db: Db, req: Request) returns (response: Option<Response>)
    requires ValidDb(db)
    ensures response == Respond(req, Winner(db, req, GO_RULES))
    ensures response.None? <==> forall a :: !(Contender(db, req, a) && Eligible(db, req, a.advertiserId))
    ensures response.Some? ==>
      response.value.auctionId == req.auctionId &&
      exists w :: IsWinner(db, req, GO_RULES, w)
        && response.value.ads == w.adsTxt && response.value.price == w.price
  {
    WinnerExists(db, req, GO_RULES);
    if db.adses == [] {
      return None;
    }
    var fitting := FilterBySize(db, req);
    var open := FilterByDomain(db, req, fitting);
    var groups := GroupByAdvertiser(db, req, open);
    var targetted := SelectRepresentatives(db, req, groups);
    var slice := new Ads[|targetted|](i requires 0 <= i < |targetted| => targetted[i]);
    assert slice[..] == targetted;
    UnstableSort(slice, PriceThenAdsId);
    AnySortStartsWithWinner(db, req, Float64Of64Bit, targetted, slice[..]);
    if slice.Length == 0 {
      return None;
    }
    var winner := slice[0];
    return Some(Response(req.auctionId, winner.adsTxt, winner.price));
  }
}
