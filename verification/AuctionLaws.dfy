// What follows from the declarative winner: when the languages agree, and how the answer
// moves when the tables or the request do.

module AuctionLaws {
  import opened Wrappers
  import opened Database
  import opened Metrics
  import opened AuctionSpec
  import opened Views

  // ---------- arithmetic ----------

  /** Every contender's distance is one the language's integers hold. */
  ghost predicate AllFit(db: Db, req: Request, m: Metric) {
    forall a :: Contender(db, req, a) ==> Fits(m, db.features[a.adsId], req.feature)
  }

  /** And one the language computes as it is. */
  ghost predicate InReach(db: Db, req: Request, m: Metric) {
    AllFit(db, req, m) && forall a :: Contender(db, req, a) ==> Reaches(m, db.features[a.adsId], req.feature)
  }

  /** In reach, a language's arithmetic does not show in the answer. */
  lemma MetricsAgree(db: Db, req: Request, m: Metric, tie: TieBreak)
    requires InReach(db, req, m)
    ensures Winner(db, req, Rules(m, tie)) == Winner(db, req, Rules(Exact, tie))
  {
    forall a | Contender(db, req, a)
      ensures Distance(m, db.features[a.adsId], req.feature) == Distance(Exact, db.features[a.adsId], req.feature)
    {
      DistanceIsTrue(m, db.features[a.adsId], req.feature);
    }
    forall a, b | Contender(db, req, a) && Contender(db, req, b)
      ensures AtLeastAsNear(db, req, m, a, b) == AtLeastAsNear(db, req, Exact, a, b) {}
    RepresentativesDecide(View(db, req, m), View(db, req, Exact), tie);
  }

  /** Two metrics choose the same representatives when those of the one are nearest to the other. */
  lemma SameNearest(db: Db, req: Request, m: Metric, m': Metric)
    requires ValidDb(db)
    ensures (forall a :: IsRepresentative(db, req, m, a) <==> IsRepresentative(db, req, m', a)) <==>
      forall a, b | IsRepresentative(db, req, m, a) && Contender(db, req, b) && b.advertiserId == a.advertiserId ::
        AtLeastAsNear(db, req, m', a, b)
  {
    if forall a, b | IsRepresentative(db, req, m, a) && Contender(db, req, b) && b.advertiserId == a.advertiserId ::
      AtLeastAsNear(db, req, m', a, b)
    {
      forall a | IsRepresentative(db, req, m', a) ensures IsRepresentative(db, req, m, a) {
        var r := RepresentativeExists(db, req, m, a);
        RepresentativeUnique(db, req, m', r, a);
      }
    }
  }

  /** The language puts each true representative before its advertiser's other contenders. */
  ghost predicate OrderKeptFor(db: Db, req: Request, m: Metric) {
    forall a, b | IsRepresentative(db, req, Exact, a) && Contender(db, req, b) && b.advertiserId == a.advertiserId ::
      KeepsNearer(m, req.feature, db.features[a.adsId], db.features[b.adsId], a.adsId <= b.adsId)
  }

  lemma GapsKept(db: Db, req: Request, m: Metric, a: Ads, b: Ads)
    requires AllFit(db, req, m) && Contender(db, req, a) && Contender(db, req, b)
    requires AtLeastAsNear(db, req, Exact, a, b)
    ensures AtLeastAsNear(db, req, m, a, b) <==>
      KeepsNearer(m, req.feature, db.features[a.adsId], db.features[b.adsId], a.adsId <= b.adsId)
  {
    NearerKept(m, req.feature, db.features[a.adsId], db.features[b.adsId], a.adsId <= b.adsId);
  }

  lemma RepresentativesExactly(db: Db, req: Request, m: Metric)
    requires ValidDb(db) && AllFit(db, req, m)
    ensures (forall a :: IsRepresentative(db, req, Exact, a) <==> IsRepresentative(db, req, m, a))
      <==> OrderKeptFor(db, req, m)
  {
    SameNearest(db, req, Exact, m);
    forall a, b | IsRepresentative(db, req, Exact, a) && Contender(db, req, b) && b.advertiserId == a.advertiserId
      ensures AtLeastAsNear(db, req, m, a, b) <==>
        KeepsNearer(m, req.feature, db.features[a.adsId], db.features[b.adsId], a.adsId <= b.adsId)
    {
      GapsKept(db, req, m, a, b);
    }
  }

  /** A language's arithmetic shows at no price exactly when it keeps each true representative
      before its advertiser's other contenders. */
  lemma MetricsAgreeExactly(db: Db, req: Request, m: Metric, tie: TieBreak)
    requires ValidDb(db) && AllFit(db, req, m)
    ensures OrderKeptFor(db, req, m) <==> SameAtEveryPrice(View(db, req, Exact), View(db, req, m), tie)
  {
    RepresentativesExactly(db, req, m);
    SameAtAllPrices(View(db, req, Exact), View(db, req, m), tie);
    assert forall a :: Represents(View(db, req, m), a) <==> IsRepresentative(db, req, m, a);
    assert forall a :: Represents(View(db, req, Exact), a) <==> IsRepresentative(db, req, Exact, a);
  }

  /** At the tables' own prices it does not show exactly when the true winner stays a
      representative and beats every representative the metric adds. */
  lemma MetricsAgreeHere(db: Db, req: Request, m: Metric, tie: TieBreak)
    requires ValidDb(db)
    ensures Winner(db, req, Rules(m, tie)) == Winner(db, req, Rules(Exact, tie)) <==>
      forall w :: IsWinner(db, req, Rules(Exact, tie), w) ==>
        IsRepresentative(db, req, m, w) &&
        forall r :: IsRepresentative(db, req, m, r) && !IsRepresentative(db, req, Exact, r) ==> Before(tie, w, r)
  {
    var v, w := View(db, req, m), View(db, req, Exact);
    SameHere(v, w, tie);
    forall r ensures Represents(v, r) <==> IsRepresentative(db, req, m, r) {}
    forall r ensures Represents(w, r) <==> IsRepresentative(db, req, Exact, r) {}
    forall x ensures IsFirst(w, tie, x) <==> IsWinner(db, req, Rules(Exact, tie), x) {}
    if r :| Represents(v, r) {
      var c := RepresentativeExists(db, req, Exact, r);
      assert Represents(w, c);
    }
  }

  // ---------- the C++ tie-break ----------

  /** Among ads of one size and one price, a lower advertiser id means a lower ads id. */
  predicate TiesOrdered(db: Db) {
    forall a, b | a in db.adses && b in db.adses ::
      a.price == b.price && a.advertiserId < b.advertiserId
      && a.sizeId in db.sizes && b.sizeId in db.sizes && db.sizes[a.sizeId] == db.sizes[b.sizeId]
      ==> a.adsId < b.adsId
  }

  /** Where representatives of one price are ordered alike by both ids, so is their sort. */
  lemma OrderedTiesAgree(db: Db, req: Request, m: Metric)
    requires ValidDb(db)
    requires forall r, s | IsRepresentative(db, req, m, r) && IsRepresentative(db, req, m, s) ::
      r.price == s.price && r.advertiserId < s.advertiserId ==> r.adsId < s.adsId
    ensures Winner(db, req, Rules(m, ByAdvertiserId)) == Winner(db, req, Rules(m, ByAdsId))
  {
    WinnerExists(db, req, Rules(m, ByAdsId));
    WinnerExists(db, req, Rules(m, ByAdvertiserId));
    if Winner(db, req, Rules(m, ByAdsId)).Some? {
      var w := Winner(db, req, Rules(m, ByAdsId)).value;
      forall r | IsRepresentative(db, req, m, r) && r != w ensures Before(ByAdvertiserId, w, r) {
        assert Before(ByAdsId, w, r);
        if r.advertiserId == w.advertiserId {
          RepresentativeUnique(db, req, m, r, w);
        }
      }
      WinnerIs(db, req, Rules(m, ByAdvertiserId), w);
    }
  }

  lemma TieBreaksAgree(db: Db, req: Request, m: Metric)
    requires ValidDb(db) && TiesOrdered(db)
    ensures Winner(db, req, Rules(m, ByAdvertiserId)) == Winner(db, req, Rules(m, ByAdsId))
  {
    OrderedTiesAgree(db, req, m);
  }

  /** A representative that no other one outbids. */
  ghost predicate Top(db: Db, req: Request, m: Metric, r: Ads) {
    IsRepresentative(db, req, m, r) && forall s :: IsRepresentative(db, req, m, s) ==> s.price <= r.price
  }

  ghost predicate LowestTop(db: Db, req: Request, m: Metric, r: Ads) {
    Top(db, req, m, r) && forall s :: Top(db, req, m, s) ==> r.adsId <= s.adsId
  }

  /** Among the ads at the top price, the one of lowest ads id has the lowest advertiser id. */
  ghost predicate TopIdsMeet(db: Db, req: Request, m: Metric) {
    forall r, s :: LowestTop(db, req, m, r) && Top(db, req, m, s) ==> r.advertiserId <= s.advertiserId
  }

  lemma WinnerIsTop(db: Db, req: Request, rules: Rules, w: Ads)
    requires IsWinner(db, req, rules, w)
    ensures Top(db, req, rules.metric, w)
    ensures rules.tie.ByAdsId? ==> LowestTop(db, req, rules.metric, w)
  {
    assert forall s :: IsRepresentative(db, req, rules.metric, s) && s != w ==> Before(rules.tie, w, s);
  }

  /** At the tables' own prices: whoever breaks ties, somebody wins or not, and at the same price;
      and the same ad wins exactly when the lowest ids at the top belong together. */
  lemma TieBreaksAgreeHere(db: Db, req: Request, m: Metric)
    requires ValidDb(db)
    ensures var v, w := Winner(db, req, Rules(m, ByAdvertiserId)), Winner(db, req, Rules(m, ByAdsId));
      && (v.Some? <==> w.Some?)
      && (v.Some? && w.Some? ==> v.value.price == w.value.price)
      && (v == w <==> TopIdsMeet(db, req, m))
  {
    SomeWinner(db, req, Rules(m, ByAdvertiserId));
    SomeWinner(db, req, Rules(m, ByAdsId));
    if Winner(db, req, Rules(m, ByAdsId)).Some? {
      var v, w := Winner(db, req, Rules(m, ByAdvertiserId)).value, Winner(db, req, Rules(m, ByAdsId)).value;
      WinnerIsTop(db, req, Rules(m, ByAdvertiserId), v);
      WinnerIsTop(db, req, Rules(m, ByAdsId), w);
      if v == w {
        forall r, s | LowestTop(db, req, m, r) && Top(db, req, m, s) ensures r.advertiserId <= s.advertiserId {
          SameIdSameAd(db, r, w);
        }
      }
    }
  }

  /** The representatives' ids are in the order of their advertisers' ids. */
  ghost predicate RepresentativesOrdered(db: Db, req: Request, m: Metric) {
    forall r, s :: IsRepresentative(db, req, m, r) && IsRepresentative(db, req, m, s) && r.advertiserId < s.advertiserId
      ==> r.adsId < s.adsId
  }

  /** Prices that put two ads at the top, level with each other. */
  function LevelPrices(r: Ads, s: Ads): map<nat, int> {
    map[r.adsId := 1, s.adsId := 1]
  }

  lemma LevelAtTheTop(db: Db, req: Request, m: Metric, r: Ads, s: Ads)
    requires ValidDb(db)
    requires IsRepresentative(db, req, m, r) && IsRepresentative(db, req, m, s) && r.price == s.price
    requires r.advertiserId < s.advertiserId && s.adsId < r.adsId
    requires forall x :: x in db.adses && x != r && x != s ==> x.price < r.price
    ensures Winner(db, req, Rules(m, ByAdsId)) == Some(s) && Winner(db, req, Rules(m, ByAdvertiserId)) == Some(r)
  {
    WinnerIs(db, req, Rules(m, ByAdsId), s);
    WinnerIs(db, req, Rules(m, ByAdvertiserId), r);
  }

  /** Two representatives out of order are told apart by the tie-breaks at such prices. */
  lemma DisorderShows(db: Db, req: Request, m: Metric, r: Ads, s: Ads)
    requires ValidDb(db)
    requires IsRepresentative(db, req, m, r) && IsRepresentative(db, req, m, s)
    requires r.advertiserId < s.advertiserId && s.adsId < r.adsId
    ensures var db' := Reprice(db, LevelPrices(r, s));
      Winner(db', req, Rules(m, ByAdsId)) != Winner(db', req, Rules(m, ByAdvertiserId))
  {
    var prices := LevelPrices(r, s);
    var db' := Reprice(db, prices);
    var r', s' := Repriced(prices, r), Repriced(prices, s);
    RepricedRepresentatives(db, req, m, prices, r);
    RepricedRepresentatives(db, req, m, prices, s);
    RepricedMembers(db, prices);
    forall x' | x' in db'.adses && x' != r' && x' != s' ensures x'.price < r'.price {
      var x :| x in db.adses && Repriced(prices, x) == x';
      if x.adsId == r.adsId {
        SameIdSameAd(db, x, r);
      }
      if x.adsId == s.adsId {
        SameIdSameAd(db, x, s);
      }
    }
    LevelAtTheTop(db', req, m, r', s');
  }

  lemma OrderedRepriced(db: Db, req: Request, m: Metric, prices: map<nat, int>)
    requires ValidDb(db) && RepresentativesOrdered(db, req, m)
    ensures RepresentativesOrdered(Reprice(db, prices), req, m)
  {
    var db' := Reprice(db, prices);
    RepricedMembers(db, prices);
    forall r', s' | IsRepresentative(db', req, m, r') && IsRepresentative(db', req, m, s')
      && r'.advertiserId < s'.advertiserId
      ensures r'.adsId < s'.adsId
    {
      var r :| r in db.adses && Repriced(prices, r) == r';
      var s :| s in db.adses && Repriced(prices, s) == s';
      RepricedRepresentatives(db, req, m, prices, r);
      RepricedRepresentatives(db, req, m, prices, s);
    }
  }

  /** Whichever id breaks ties, the same ad wins. */
  ghost predicate TiesDoNotShow(db: Db, req: Request, m: Metric) {
    Winner(db, req, Rules(m, ByAdsId)) == Winner(db, req, Rules(m, ByAdvertiserId))
  }

  /** The two tie-breaks give the same winner under every pricing of the ads exactly when the
      representatives' ids follow their advertisers' ids. */
  lemma TieBreaksAgreeExactly(db: Db, req: Request, m: Metric)
    requires ValidDb(db)
    ensures RepresentativesOrdered(db, req, m) <==>
      forall prices: map<nat, int> :: TiesDoNotShow(Reprice(db, prices), req, m)
  {
    if RepresentativesOrdered(db, req, m) {
      forall prices: map<nat, int> ensures TiesDoNotShow(Reprice(db, prices), req, m) {
        OrderedRepriced(db, req, m, prices);
        OrderedTiesAgree(Reprice(db, prices), req, m);
      }
    } else {
      var r, s :| IsRepresentative(db, req, m, r) && IsRepresentative(db, req, m, s)
        && r.advertiserId < s.advertiserId && !(r.adsId < s.adsId);
      if r.adsId == s.adsId {
        SameIdSameAd(db, r, s);
      }
      DisorderShows(db, req, m, r, s);
    }
  }

  /** `a` is an ad of a listed size with a feature, and the one of its advertiser's ads of that size
      nearest to the zone feature. */
  ghost predicate NearestOfSize(db: Db, m: Metric, size: AdSize, zone: int, a: Ads) {
    var req := Request("", [], zone, size.width, size.height, []);
    Contender(db, req, a) &&
    forall b :: Contender(db, req, b) && b.advertiserId == a.advertiserId ==> AtLeastAsNear(db, req, m, a, b)
  }

  /** Some categories are allowed by the one advertiser and not denied by the other. */
  predicate AllowedBeside(db: Db, k: nat, other: nat)
    requires k in db.advertisers && other in db.advertisers
  {
    HasCategories(db, k) && db.advertisers[k].blockingType == ALLOW
      && HasCategories(db, other) && db.advertisers[other].blockingType == DENY ==>
      exists c | c in db.categories[k] :: c !in db.categories[other]
  }

  /** The tables let two ads represent their advertisers in one auction: for some zone feature both
      are nearest, and neither advertiser denies all that the other allows. */
  ghost predicate CanMeet(db: Db, m: Metric, r: Ads, s: Ads) {
    && r.advertiserId in db.advertisers && s.advertiserId in db.advertisers
    && AllowedBeside(db, r.advertiserId, s.advertiserId) && AllowedBeside(db, s.advertiserId, r.advertiserId)
    && r.sizeId in db.sizes
    && exists zone ::
      NearestOfSize(db, m, db.sizes[r.sizeId], zone, r) && NearestOfSize(db, m, db.sizes[r.sizeId], zone, s)
  }

  /** The categories an advertiser needs to be asked for. */
  function AllowedCategories(db: Db, k: nat): seq<nat>
    requires k in db.advertisers
  {
    if HasCategories(db, k) && db.advertisers[k].blockingType == ALLOW then db.categories[k] else []
  }

  function DeniedCategories(db: Db, k: nat): seq<nat>
    requires k in db.advertisers
  {
    if HasCategories(db, k) && db.advertisers[k].blockingType == DENY then db.categories[k] else []
  }

  function Without<T(==, !new)>(ids: seq<T>, others: seq<T>): (kept: seq<T>)
    ensures forall c :: c in kept <==> c in ids && c !in others
  {
    if ids == [] then []
    else
      var last := ids[|ids| - 1];
      assert ids == ids[..|ids| - 1] + [last];
      Without(ids[..|ids| - 1], others) + if last in others then [] else [last]
  }

  /** What two advertisers allow, but for what either denies. */
  function CategoriesForBoth(db: Db, j: nat, k: nat): seq<nat>
    requires j in db.advertisers && k in db.advertisers
  {
    Without(AllowedCategories(db, j), DeniedCategories(db, k)) +
    Without(AllowedCategories(db, k), DeniedCategories(db, j))
  }

  lemma OneAllowed(db: Db, j: nat, k: nat) returns (c: nat)
    requires j in db.advertisers && k in db.advertisers && AllowedBeside(db, j, k)
    requires HasCategories(db, j) && db.advertisers[j].blockingType == ALLOW
    ensures c in db.categories[j] && c !in DeniedCategories(db, k)
  {
    if HasCategories(db, k) && db.advertisers[k].blockingType == DENY {
      c :| c in db.categories[j] && c !in db.categories[k];
    } else {
      c := db.categories[j][0];
    }
  }

  lemma OneOfBoth(db: Db, req: Request, j: nat, k: nat)
    requires j in db.advertisers && k in db.advertisers && AllowedBeside(db, j, k)
    requires forall c :: c in req.categoryIds <==> c in CategoriesForBoth(db, j, k)
    ensures CategoryOk(db, req, j)
  {
    if HasCategories(db, j) && db.advertisers[j].blockingType == ALLOW {
      var c := OneAllowed(db, j, k);
      assert c in Without(AllowedCategories(db, j), DeniedCategories(db, k));
      assert c in req.categoryIds;
    } else if HasCategories(db, j) && db.advertisers[j].blockingType == DENY {
      assert forall c :: c in db.categories[j] ==> c in DeniedCategories(db, j);
    }
  }

  lemma BothOk(db: Db, req: Request, j: nat, k: nat)
    requires j in db.advertisers && k in db.advertisers && AllowedBeside(db, j, k) && AllowedBeside(db, k, j)
    requires req.blockDomains == [] && req.categoryIds == CategoriesForBoth(db, j, k)
    ensures Eligible(db, req, j) && Eligible(db, req, k)
  {
    OneOfBoth(db, req, j, k);
    assert forall c :: c in CategoriesForBoth(db, j, k) <==> c in CategoriesForBoth(db, k, j);
    OneOfBoth(db, req, k, j);
  }

  lemma NearestInRequest(db: Db, m: Metric, req: Request, a: Ads)
    ensures IsRepresentative(db, req, m, a) <==>
      NearestOfSize(db, m, AdSize(req.zoneWidth, req.zoneHeight), req.feature, a) && Eligible(db, req, a.advertiserId)
  {
    var plain := Request("", [], req.feature, req.zoneWidth, req.zoneHeight, []);
    forall b ensures Contender(db, req, b) <==> Contender(db, plain, b) {}
    forall a, b | Contender(db, req, a) && Contender(db, req, b)
      ensures AtLeastAsNear(db, req, m, a, b) <==> AtLeastAsNear(db, plain, m, a, b) {}
  }

  lemma ServedBeside(db: Db, req: Request, j: nat, k: nat)
    requires j in db.advertisers && k in db.advertisers && CategoryOk(db, req, j) && CategoryOk(db, req, k)
    ensures AllowedBeside(db, j, k)
  {
    if HasCategories(db, j) && db.advertisers[j].blockingType == ALLOW {
      var c :| c in db.categories[j] && c in req.categoryIds;
      assert HasCategories(db, k) && db.advertisers[k].blockingType == DENY ==> c !in db.categories[k];
    }
  }

  /** What the tables say is what some request shows. */
  lemma MeetInSomeRequest(db: Db, m: Metric, r: Ads, s: Ads)
    ensures CanMeet(db, m, r, s) <==> exists req :: IsRepresentative(db, req, m, r) && IsRepresentative(db, req, m, s)
  {
    if CanMeet(db, m, r, s) {
      var size := db.sizes[r.sizeId];
      var zone :| NearestOfSize(db, m, size, zone, r) && NearestOfSize(db, m, size, zone, s);
      var ids := CategoriesForBoth(db, r.advertiserId, s.advertiserId);
      var req := Request("", ids, zone, size.width, size.height, []);
      BothOk(db, req, r.advertiserId, s.advertiserId);
      NearestInRequest(db, m, req, r);
      NearestInRequest(db, m, req, s);
    }
    if req :| IsRepresentative(db, req, m, r) && IsRepresentative(db, req, m, s) {
      NearestInRequest(db, m, req, r);
      NearestInRequest(db, m, req, s);
      ServedBeside(db, req, r.advertiserId, s.advertiserId);
      ServedBeside(db, req, s.advertiserId, r.advertiserId);
      assert db.sizes[r.sizeId] == AdSize(req.zoneWidth, req.zoneHeight);
    }
  }

  /** No request shows the tie-break at any price exactly when the tables let no two ads meet whose
      ids run against their advertisers' ids. */
  lemma TieBreaksInTables(db: Db, m: Metric)
    requires ValidDb(db)
    ensures (forall r, s :: CanMeet(db, m, r, s) && r.advertiserId < s.advertiserId ==> r.adsId < s.adsId) <==>
      forall req, prices: map<nat, int> :: TiesDoNotShow(Reprice(db, prices), req, m)
  {
    if forall r, s :: CanMeet(db, m, r, s) && r.advertiserId < s.advertiserId ==> r.adsId < s.adsId {
      forall req, prices: map<nat, int> ensures TiesDoNotShow(Reprice(db, prices), req, m) {
        forall r, s | IsRepresentative(db, req, m, r) && IsRepresentative(db, req, m, s)
          && r.advertiserId < s.advertiserId
          ensures r.adsId < s.adsId
        {
          MeetInSomeRequest(db, m, r, s);
        }
        TieBreaksAgreeExactly(db, req, m);
      }
    } else {
      var r, s :| CanMeet(db, m, r, s) && r.advertiserId < s.advertiserId && !(r.adsId < s.adsId);
      MeetInSomeRequest(db, m, r, s);
      var req :| IsRepresentative(db, req, m, r) && IsRepresentative(db, req, m, s);
      TieBreaksAgreeExactly(db, req, m);
      assert !RepresentativesOrdered(db, req, m);
    }
  }

  // ---------- features equal to 0 ----------

  ghost predicate NoZeroRepresentative(db: Db, req: Request, m: Metric) {
    forall a :: IsRepresentative(db, req, m, a) ==> db.features[a.adsId] != 0
  }

  /** Dropping the zero features leaves the representatives alone exactly when none of them
      has feature 0. */
  lemma ZeroFeaturesMatterExactly(db: Db, req: Request, m: Metric)
    requires ValidDb(db)
    ensures NoZeroRepresentative(db, req, m) <==>
      forall a :: IsRepresentative(db, req, m, a) <==> IsRepresentative(NonZeroFeatures(db), req, m, a)
  {
    var nz := NonZeroFeatures(db);
    forall k ensures Eligible(nz, req, k) == Eligible(db, req, k) {}
    forall a ensures Contender(nz, req, a) <==> Contender(db, req, a) && db.features[a.adsId] != 0 {}
    forall a, b | Contender(nz, req, a) && Contender(nz, req, b)
      ensures AtLeastAsNear(nz, req, m, a, b) == AtLeastAsNear(db, req, m, a, b) {}
    if NoZeroRepresentative(db, req, m) {
      forall a ensures IsRepresentative(db, req, m, a) <==> IsRepresentative(nz, req, m, a) {
        if IsRepresentative(db, req, m, a) {
          assert Contender(nz, req, a);
        }
        if IsRepresentative(nz, req, m, a) {
          var r := RepresentativeExists(db, req, m, a);
          assert Contender(nz, req, r) && IsRepresentative(nz, req, m, r);
          RepresentativeUnique(nz, req, m, a, r);
        }
      }
    }
  }

  /** In other words: at every price the winner is the same exactly when no representative has
      feature 0. */
  lemma ZeroFeaturesAtAllPrices(db: Db, req: Request, m: Metric, tie: TieBreak)
    requires ValidDb(db)
    ensures NoZeroRepresentative(db, req, m) <==>
      SameAtEveryPrice(View(db, req, m), View(NonZeroFeatures(db), req, m), tie)
  {
    ZeroFeaturesMatterExactly(db, req, m);
    SameAtAllPrices(View(db, req, m), View(NonZeroFeatures(db), req, m), tie);
    assert forall a :: Represents(View(db, req, m), a) <==> IsRepresentative(db, req, m, a);
    assert forall a :: Represents(View(NonZeroFeatures(db), req, m), a) <==>
      IsRepresentative(NonZeroFeatures(db), req, m, a);
  }

  /** Represents its advertiser only because the true representative's feature is 0. */
  ghost predicate StandsIn(db: Db, req: Request, m: Metric, r: Ads) {
    IsRepresentative(NonZeroFeatures(db), req, m, r) && !IsRepresentative(db, req, m, r)
  }

  /** The winner's feature is not 0, and it still beats whoever stands in for another. */
  ghost predicate ZerosSpareWinner(db: Db, req: Request, rules: Rules) {
    forall w :: IsWinner(db, req, rules, w) ==>
      db.features[w.adsId] != 0 && forall r :: StandsIn(db, req, rules.metric, r) ==> Before(rules.tie, w, r)
  }

  /** At the tables' own prices. */
  lemma ZeroFeaturesHere(db: Db, req: Request, rules: Rules)
    requires ValidDb(db)
    ensures Winner(NonZeroFeatures(db), req, rules) == Winner(db, req, rules) <==> ZerosSpareWinner(db, req, rules)
  {
    var nz, m := NonZeroFeatures(db), rules.metric;
    forall k ensures Eligible(nz, req, k) == Eligible(db, req, k) {}
    forall a ensures Contender(nz, req, a) <==> Contender(db, req, a) && db.features[a.adsId] != 0 {}
    forall a, b | Contender(nz, req, a) && Contender(nz, req, b)
      ensures AtLeastAsNear(nz, req, m, a, b) == AtLeastAsNear(db, req, m, a, b) {}
    WinnerExists(db, req, rules);
    WinnerExists(nz, req, rules);
    if Winner(db, req, rules).Some? {
      var w := Winner(db, req, rules).value;
      forall v | IsWinner(db, req, rules, v) ensures v == w {
        WinnerUnique(db, req, rules, v, w);
      }
      WinnerIs(nz, req, rules, w);
      if db.features[w.adsId] != 0 {
        assert IsRepresentative(nz, req, m, w);
      }
    } else {
      forall w ensures !IsWinner(db, req, rules, w) {
        WinnerIs(db, req, rules, w);
      }
    }
  }

  /** An ad that some request can bring to the auction, with a feature of 0. */
  predicate ZeroWithinReach(db: Db, a: Ads) {
    && a in db.adses && a.sizeId in db.sizes && a.advertiserId in db.advertisers
    && a.adsId in db.features && db.features[a.adsId] == 0
  }

  /** A request an ad's advertiser may serve: of the ad's size, blocking no domain, and with the
      categories its blocking type asks for. */
  function RequestFor(db: Db, a: Ads, feature: int): Request
    requires a.sizeId in db.sizes && a.advertiserId in db.advertisers
  {
    var size := db.sizes[a.sizeId];
    Request("", AllowedCategories(db, a.advertiserId), feature, size.width, size.height, [])
  }

  lemma RequestForServes(db: Db, a: Ads, feature: int)
    requires a in db.adses && a.sizeId in db.sizes && a.advertiserId in db.advertisers && a.adsId in db.features
    ensures var req := RequestFor(db, a, feature); Contender(db, req, a) && Eligible(db, req, a.advertiserId)
  {
    var req := RequestFor(db, a, feature);
    if HasCategories(db, a.advertiserId) {
      assert db.categories[a.advertiserId][0] in db.categories[a.advertiserId];
      assert db.advertisers[a.advertiserId].blockingType == ALLOW ==>
        Intersects(db.categories[a.advertiserId], req.categoryIds);
    }
  }

  /** No request shows the difference exactly when no ad that can serve one has feature 0. */
  lemma ZeroFeaturesInTables(db: Db)
    requires ValidDb(db)
    ensures (forall a :: !ZeroWithinReach(db, a)) <==> forall req :: NoZeroRepresentative(db, req, Exact)
  {
    if a :| ZeroWithinReach(db, a) {
      var req := RequestFor(db, a, 0);
      RequestForServes(db, a, 0);
      var r := RepresentativeExists(db, req, Exact, a);
      assert AtLeastAsNear(db, req, Exact, r, a);
      assert !NoZeroRepresentative(db, req, Exact);
    } else {
      forall req, a | IsRepresentative(db, req, Exact, a) ensures db.features[a.adsId] != 0 {
        assert !ZeroWithinReach(db, a);
      }
    }
  }

  // ---------- splitting the tables by advertiser ----------

  function Keep(adses: seq<Ads>, s: set<nat>): seq<Ads> {
    if adses == [] then []
    else Keep(adses[..|adses| - 1], s) + if adses[|adses| - 1].advertiserId in s then [adses[|adses| - 1]] else []
  }

  lemma {:induction false} KeepMembers(adses: seq<Ads>, s: set<nat>)
    ensures forall a :: a in Keep(adses, s) <==> a in adses && a.advertiserId in s
    ensures IncreasingIds(adses) ==> IncreasingIds(Keep(adses, s))
  {
    if adses != [] {
      var rest, last := adses[..|adses| - 1], adses[|adses| - 1];
      KeepMembers(rest, s);
      assert adses == rest + [last];
      if IncreasingIds(adses) && last.advertiserId in s {
        IncreasingIdsAppend(Keep(rest, s), rest, last);
      }
    }
  }

  /** The tables without the ads of the advertisers outside `s`. */
  function Restrict(db: Db, s: set<nat>): Db {
    db.(adses := Keep(db.adses, s))
  }

  lemma RestrictedRepresentatives(db: Db, req: Request, m: Metric, s: set<nat>)
    ensures forall a :: IsRepresentative(Restrict(db, s), req, m, a) <==>
      IsRepresentative(db, req, m, a) && a.advertiserId in s
  {
    var part := Restrict(db, s);
    KeepMembers(db.adses, s);
    forall k ensures Eligible(part, req, k) == Eligible(db, req, k) {}
    forall a ensures Contender(part, req, a) <==> Contender(db, req, a) && a.advertiserId in s {}
    forall a: Ads, b: Ads | a.adsId in db.features && b.adsId in db.features
      ensures AtLeastAsNear(part, req, m, a, b) == AtLeastAsNear(db, req, m, a, b) {}
  }

  lemma PartValid(db: Db, s: set<nat>)
    ensures ValidDb(db) ==> ValidDb(Restrict(db, s))
  {
    KeepMembers(db.adses, s);
  }

  function Better(tie: TieBreak, v: Option<Ads>, w: Option<Ads>): Option<Ads> {
    if v.None? then w
    else if w.None? then v
    else if Before(tie, v.value, w.value) then v else w
  }

  /** The auction over the whole is the better of the auctions over two parts that share no
      advertiser. */
  lemma SplitByAdvertiser(db: Db, req: Request, rules: Rules, s: set<nat>, t: set<nat>)
    requires ValidDb(db) && s !! t
    requires forall a :: a in db.adses ==> a.advertiserId in s + t
    ensures Winner(db, req, rules) ==
      Better(rules.tie, Winner(Restrict(db, s), req, rules), Winner(Restrict(db, t), req, rules))
  {
    var m := rules.metric;
    RestrictedRepresentatives(db, req, m, s);
    RestrictedRepresentatives(db, req, m, t);
    var v, w := Winner(Restrict(db, s), req, rules), Winner(Restrict(db, t), req, rules);
    SomeWinner(db, req, rules);
    PartValid(db, s);
    PartValid(db, t);
    SomeWinner(Restrict(db, s), req, rules);
    SomeWinner(Restrict(db, t), req, rules);
    if v.Some? || w.Some? {
      var b := Better(rules.tie, v, w).value;
      if v.Some? && w.Some? && !Before(rules.tie, v.value, w.value) && v.value.adsId == w.value.adsId {
        SameIdSameAd(db, v.value, w.value);
      }
      forall r | IsRepresentative(db, req, m, r) && r != b ensures Before(rules.tie, b, r) {
        assert r.advertiserId in s || r.advertiserId in t;
      }
      WinnerIs(db, req, rules, b);
    }
  }

  /** Deleting an advertiser other than the winner's never changes the winner. */
  lemma DeletingALoser(db: Db, req: Request, rules: Rules, s: set<nat>, w: Ads)
    requires ValidDb(db) && Winner(db, req, rules) == Some(w) && w.advertiserId in s
    ensures Winner(Restrict(db, s), req, rules) == Some(w)
  {
    RestrictedRepresentatives(db, req, rules.metric, s);
    WinnerIs(db, req, rules, w);
    WinnerIs(Restrict(db, s), req, rules, w);
  }

  // ---------- the request's lists ----------

  /** Blocking more never raises the price, and spares a winner whose advertiser it spares. */
  lemma BlockingMore(db: Db, req: Request, more: seq<string>, rules: Rules)
    requires ValidDb(db)
    ensures var req' := req.(blockDomains := req.blockDomains + more);
      var v, w := Winner(db, req, rules), Winner(db, req', rules);
      && (w.Some? ==> v.Some? && w.value.price <= v.value.price)
      && (v.Some? && DomainOk(db, req', v.value.advertiserId) ==> w == v)
  {
    var req' := req.(blockDomains := req.blockDomains + more);
    var m := rules.metric;
    forall s ensures DomainBlocked(s, req.blockDomains) ==> DomainBlocked(s, req'.blockDomains) {
      assert forall d :: d in req.blockDomains ==> d in req'.blockDomains;
    }
    forall k ensures Eligible(db, req', k) <==> Eligible(db, req, k) && DomainOk(db, req', k) {}
    forall a ensures Contender(db, req', a) == Contender(db, req, a) {}
    forall a: Ads, b: Ads | a.adsId in db.features && b.adsId in db.features
      ensures AtLeastAsNear(db, req', m, a, b) == AtLeastAsNear(db, req, m, a, b) {}
    forall a ensures IsRepresentative(db, req', m, a) <==>
      IsRepresentative(db, req, m, a) && DomainOk(db, req', a.advertiserId) {}
    SomeWinner(db, req, rules);
    SomeWinner(db, req', rules);
    var v := Winner(db, req, rules);
    if v.Some? && DomainOk(db, req', v.value.advertiserId) {
      WinnerIs(db, req', rules, v.value);
    }
  }

  lemma ContainsTransitive(text: string, d: string, e: string)
    requires Contains(text, d) && Contains(d, e)
    ensures Contains(text, e)
  {
    var i :| 0 <= i <= |text| && d <= text[i..];
    var j :| 0 <= j <= |d| && e <= d[j..];
    assert e <= text[i + j..] by {
      assert text[i + j..] == text[i..][j..];
      assert d[j..] <= text[i..][j..];
    }
  }

  lemma ContainsItself(text: string)
    ensures Contains(text, text) && Contains(text, "")
  {
    assert text <= text[0..] && "" <= text[0..];
  }

  lemma BlockedAlso(text: string, s: seq<string>, t: seq<string>)
    requires forall d :: d in s ==> exists e :: e in t && Contains(d, e)
    ensures DomainBlocked(text, s) ==> DomainBlocked(text, t)
  {
    if DomainBlocked(text, s) {
      var d :| d in s && Contains(text, d);
      var e :| e in t && Contains(d, e);
      ContainsTransitive(text, d, e);
    }
  }

  /** Only which categories and which block strings are listed matters: not their order, not
      how often, and not block strings that contain another one. */
  lemma ListsAreSets(db: Db, req: Request, req': Request, rules: Rules)
    requires req' == req.(categoryIds := req'.categoryIds, blockDomains := req'.blockDomains)
    requires forall c :: c in req.categoryIds <==> c in req'.categoryIds
    requires forall d :: d in req.blockDomains ==> exists e :: e in req'.blockDomains && Contains(d, e)
    requires forall d :: d in req'.blockDomains ==> exists e :: e in req.blockDomains && Contains(d, e)
    ensures Winner(db, req, rules) == Winner(db, req', rules)
  {
    var m := rules.metric;
    forall s ensures DomainBlocked(s, req.blockDomains) == DomainBlocked(s, req'.blockDomains) {
      BlockedAlso(s, req.blockDomains, req'.blockDomains);
      BlockedAlso(s, req'.blockDomains, req.blockDomains);
    }
    forall k ensures Eligible(db, req, k) == Eligible(db, req', k) {}
    forall a ensures Contender(db, req, a) == Contender(db, req', a) {}
    forall a: Ads, b: Ads | a.adsId in db.features && b.adsId in db.features
      ensures AtLeastAsNear(db, req, m, a, b) == AtLeastAsNear(db, req', m, a, b) {}
    RepresentativesDecide(View(db, req, m), View(db, req', m), rules.tie);
  }

  function Elements<T>(s: seq<T>): set<T> {
    set x | x in s
  }

  /** Permuting or repeating entries of the request's lists changes nothing. */
  lemma PermutedOrRepeated(db: Db, req: Request, req': Request, rules: Rules)
    requires req' == req.(categoryIds := req'.categoryIds, blockDomains := req'.blockDomains)
    requires Elements(req.categoryIds) == Elements(req'.categoryIds)
    requires Elements(req.blockDomains) == Elements(req'.blockDomains)
    ensures Winner(db, req, rules) == Winner(db, req', rules)
  {
    forall c: nat ensures c in req.categoryIds <==> c in req'.categoryIds {
      assert c in Elements(req.categoryIds) <==> c in Elements(req'.categoryIds);
    }
    forall d ensures d in req.blockDomains <==> d in req'.blockDomains {
      assert d in Elements(req.blockDomains) <==> d in Elements(req'.blockDomains);
    }
    forall d: string ensures Contains(d, d) {
      ContainsItself(d);
    }
    ListsAreSets(db, req, req', rules);
  }

  /** An empty block string blocks every advertiser. */
  lemma EmptyBlockString(db: Db, req: Request, rules: Rules)
    requires ValidDb(db) && "" in req.blockDomains
    ensures Winner(db, req, rules) == None
  {
    forall k ensures !Eligible(db, req, k) {
      if k in db.advertisers {
        ContainsItself(db.advertisers[k].domain);
      }
    }
    WinnerExists(db, req, rules);
  }
}
