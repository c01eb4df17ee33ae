// cpp/src/server/auction.cpp: groups in an ordered map, and a stable sort on the price alone.

module CppAuction {
  import opened Wrappers
  import opened Database
  import opened Metrics
  import opened AuctionSpec
  import opened Targeting
  import opened Blocking
  import opened Sorting
  import opened Pipeline

  /** `std::terminate` ends the run when an advertiser's blocking type is neither value. */
  datatype Outcome = Aborted | Finished(response: Option<Response>)

  ghost predicate Undecidable(db: Db, req: Request, a: Ads) {
    && a in db.adses && SizeOk(db, req, a) && DomainOk(db, req, a.advertiserId) && HasCategories(db, a.advertiserId)
    && db.advertisers[a.advertiserId].blockingType != ALLOW && db.advertisers[a.advertiserId].blockingType != DENY
  }

  lemma UndecidableExactly(db: Db, req: Request)
    ensures (exists a :: Undecidable(db, req, a)) <==>
      exists a | a in db.adses && SizeOk(db, req, a) && DomainOk(db, req, a.advertiserId) ::
        HasCategories(db, a.advertiserId) && db.advertisers[a.advertiserId].blockingType > 1
  {
    forall a | a in db.adses && SizeOk(db, req, a) && DomainOk(db, req, a.advertiserId)
      ensures Undecidable(db, req, a) <==>
        HasCategories(db, a.advertiserId) && db.advertisers[a.advertiserId].blockingType > 1 {}
  }

  /** The category loop; `None` is the call to `std::terminate`. */
  method GroupByAdvertiser(db: Db, req: Request, adses: seq<Ads>) returns (result: Option<map<nat, seq<Ads>>>)
    requires AllOpen(db, req, adses)
    ensures result.None? <==> exists a :: Undecidable(db, req, a)
    ensures result.Some? ==> Grouped(db, req, result.value)
  {
    var groups := map[];
    for i := 0 to |adses|
      invariant GroupedSoFar(Passing(db, req), adses[..i], groups)
      invariant forall a :: a in adses[..i] ==> !Undecidable(db, req, a)
    {
      var ads := adses[i];
      assert adses[..i + 1] == adses[..i] + [ads];
      GroupAppend(Passing(db, req), adses, i, groups);
      var advertiser, categories := FetchAdvertiser(db, ads.advertiserId), FetchCategoryBlocking(db, ads.advertiserId);
      if advertiser.Some? && categories.Some? {
        match CppCategoryBlocking(advertiser.value.blockingType, categories.value, req.categoryIds) {
          case Terminated =>
            assert Undecidable(db, req, ads);
            return None;
          case Decided(blocked) =>
            if blocked {
              continue;
            }
        }
      }
      groups := Append(groups, ads);
    }
    assert adses[..|adses|] == adses;
    GroupedEnd(db, req, adses, groups);
    result := Some(groups);
  }

  /** The first key of an ordered map. */
  method SmallestKey(keys: set<nat>) returns (k: nat)
    requires keys != {}
    ensures k in keys && forall x :: x in keys ==> k <= x
  {
    k :| k in keys;
    var rest := keys - {k};
    while rest != {}
      invariant rest <= keys && k in keys
      invariant forall x :: x in keys && x !in rest ==> k <= x
      decreases |rest|
    {
      var x :| x in rest;
      if x < k {
        k := x;
      }
      rest := rest - {x};
    }
  }

  /** `std::ranges::find` by ads id: the index of the first match, or the length. */
  method FindById(group: seq<Ads>, adsId: nat) returns (itr: nat)
    ensures itr <= |group|
    ensures itr < |group| ==> group[itr].adsId == adsId
    ensures forall j :: 0 <= j < itr ==> group[j].adsId != adsId
  {
    itr := 0;
    while itr < |group| && group[itr].adsId != adsId
      invariant itr <= |group|
      invariant forall j :: 0 <= j < itr ==> group[j].adsId != adsId
    {
      itr := itr + 1;
    }
  }

  predicate AscendingAdvertisers(adses: seq<Ads>) {
    forall i, j :: 0 <= i < j < |adses| ==> adses[i].advertiserId < adses[j].advertiserId
  }

  /** Ascending so far, and every advertiser still to be visited comes later. */
  predicate AscendingBelow(targetted: seq<Ads>, remaining: set<nat>) {
    && AscendingAdvertisers(targetted)
    && forall i, x :: 0 <= i < |targetted| && x in remaining ==> targetted[i].advertiserId < x
  }

  lemma AscendingStep(targetted: seq<Ads>, remaining: set<nat>, k: nat, chosen: seq<Ads>)
    requires AscendingBelow(targetted, remaining) && k in remaining
    requires forall x :: x in remaining ==> k <= x
    requires |chosen| <= 1 && forall a :: a in chosen ==> a.advertiserId == k
    ensures AscendingBelow(targetted + chosen, remaining - {k})
  {
    assert chosen != [] ==> chosen[0] in chosen;
  }

  /** The chosen feature belongs to an ad of the group, so `find` succeeds. */
  lemma NearestInGroup(db: Db, m: Metric, zone: int, group: seq<Ads>)
    requires IncreasingIds(group) && Features(db, group) != []
    ensures exists a :: a in group && a.adsId == FirstNearest(m, zone, Features(db, group)).adsId
  {
    var fs := Features(db, group);
    FeaturesInOrder(db, group);
    assert fs[NearestIndex(m, zone, fs)] in fs;
  }

  /** The match `find` stops at is the only one. */
  lemma OnlyMatch(group: seq<Ads>, adsId: nat, itr: nat)
    requires IncreasingIds(group) && itr < |group| && group[itr].adsId == adsId
    ensures WithId(group, adsId) == [group[itr]]
  {
    WithIdMembers(group, adsId);
    assert group[itr] in WithId(group, adsId);
  }

  /** One turn of the targeting loop: what it pushes back. The assertion after `find` is checked. */
  method TargetGroup(db: Db, req: Request, group: seq<Ads>) returns (chosen: seq<Ads>)
    requires IncreasingIds(group)
    ensures chosen == Targeted(db, req, Wrapped32Bit, group)
  {
    var fs := CollectFeatures(db, group);
    if fs == [] {
      return [];
    }
    var best := CppFeatureTargeting(fs, req.feature);
    var itr := FindById(group, best.adsId);
    NearestInGroup(db, Wrapped32Bit, req.feature, group);
    assert itr != |group|;
    OnlyMatch(group, best.adsId, itr);
    return [group[itr]];
  }

  /** The targeting loop over the ordered map. */
  method SelectRepresentatives(db: Db, req: Request, groups: map<nat, seq<Ads>>) returns (targetted: seq<Ads>)
    requires ValidDb(db) && Grouped(db, req, groups)
    ensures AllRepresentatives(db, req, Wrapped32Bit, targetted)
    ensures AscendingAdvertisers(targetted)
  {
    targetted := [];
    var remaining := groups.Keys;
    while remaining != {}
      invariant TargetedSoFar(db, req, Wrapped32Bit, groups, remaining, targetted)
      invariant AscendingBelow(targetted, remaining)
      decreases |remaining|
    {
      var k := SmallestKey(remaining);
      TargetedStep(db, req, Wrapped32Bit, groups, remaining, targetted, k);
      var chosen := TargetGroup(db, req, groups[k]);
      TargetedIsRepresentative(db, req, Wrapped32Bit, groups, k);
      AscendingStep(targetted, remaining, k, chosen);
      targetted := targetted + chosen;
      remaining := remaining - {k};
    }
    TargetedEnd(db, req, Wrapped32Bit, groups, targetted);
  }

  /** Stability decides ties by position, and position is advertiser order. */
  lemma StableSortStartsWithWinner(db: Db, req: Request, targetted: seq<Ads>, sorted: seq<Ads>)
    requires AllRepresentatives(db, req, Wrapped32Bit, targetted) && AscendingAdvertisers(targetted)
    requires Permutation(targetted, sorted) && SortedBy(PriceOnly, sorted) && Stable(PriceOnly, targetted, sorted)
    ensures Winner(db, req, CPP_RULES) == if sorted == [] then None else Some(sorted[0])
  {
    if targetted == [] {
      assert |sorted| == |multiset(sorted)| == 0;
      assert forall a :: !IsRepresentative(db, req, Wrapped32Bit, a);
    } else {
      var negated := seq(|targetted|, i requires 0 <= i < |targetted| => -targetted[i].price);
      var k := ArgMin(negated);
      assert forall j :: 0 <= j < |targetted| ==> negated[j] == -targetted[j].price;
      StableHead(PriceOnly, targetted, sorted, k);
      var w := targetted[k];
      assert w in targetted;
      forall r | IsRepresentative(db, req, Wrapped32Bit, r) && r != w ensures Before(ByAdvertiserId, w, r) {
        assert r in targetted;
        var j :| 0 <= j < |targetted| && targetted[j] == r;
        assert negated[k] <= negated[j];
      }
      assert IsWinner(db, req, CPP_RULES, w);
      WinnerIs(db, req, CPP_RULES, w);
    }
  }

  method Auction(db: Db, req: Request) returns (outcome: Outcome)
    requires ValidDb(db)
    ensures outcome.Aborted? <==> exists a :: Undecidable(db, req, a)
    ensures outcome.Aborted? <==> exists a | a in db.adses && SizeOk(db, req, a) && DomainOk(db, req, a.advertiserId) ::
      HasCategories(db, a.advertiserId) && db.advertisers[a.advertiserId].blockingType > 1
    ensures outcome.Finished? ==> outcome.response == Respond(req, Winner(db, req, CPP_RULES))
    ensures outcome.Finished? ==> (outcome.response.None? <==>
      forall a :: !(Contender(db, req, a) && Eligible(db, req, a.advertiserId)))
    ensures outcome.Finished? && outcome.response.Some? ==>
      outcome.response.value.auctionId == req.auctionId &&
      exists w :: IsWinner(db, req, CPP_RULES, w)
        && outcome.response.value.ads == w.adsTxt && outcome.response.value.price == w.price
  {
    WinnerExists(db, req, CPP_RULES);
    UndecidableExactly(db, req);
    var fitting := FilterBySize(db, req);
    var open := FilterByDomain(db, req, fitting);
    var result := GroupByAdvertiser(db, req, open);
    if result.None? {
      return Aborted;
    }
    var targetted := SelectRepresentatives(db, req, result.value);
    var vector := new Ads[|targetted|](i requires 0 <= i < |targetted| => targetted[i]);
    assert vector[..] == targetted;
    StableSort(vector, PriceOnly);
    StableSortStartsWithWinner(db, req, targetted, vector[..]);
    if vector.Length == 0 {
      return Finished(None);
    }
    var winner := vector[0];
    return Finished(Some(Response(req.auctionId, winner.adsTxt, winner.price)));
  }
}
