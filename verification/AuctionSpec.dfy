// What an auction promises, said without any pipeline: which advertisers may serve, which
// ad represents each of them, and which representative wins.

module AuctionSpec {
  import opened Wrappers
  import opened Database
  import opened Metrics

  /** `part` occurs in `text` as a run of consecutive characters. */
  predicate Contains(text: string, part: string) {
    exists i | 0 <= i <= |text| :: part <= text[i..]
  }

  /** Anywhere: at the start, in the middle or at the end. */
  lemma ContainsExactly(text: string, part: string)
    ensures Contains(text, part) <==> exists i, j | 0 <= i <= j <= |text| :: text[i..j] == part
  {
    if i :| 0 <= i <= |text| && part <= text[i..] {
      assert text[i..i + |part|] == text[i..][..|part|] == part;
    }
    if i, j :| 0 <= i <= j <= |text| && text[i..j] == part {
      assert part == text[i..][..j - i];
      assert part <= text[i..];
    }
  }

  predicate SizeOk(db: Db, req: Request, a: Ads) {
    a.sizeId in db.sizes && db.sizes[a.sizeId] == AdSize(req.zoneWidth, req.zoneHeight)
  }

  predicate DomainBlocked(domain: string, blockDomains: seq<string>) {
    exists d | d in blockDomains :: Contains(domain, d)
  }

  predicate DomainOk(db: Db, req: Request, advertiserId: nat) {
    advertiserId in db.advertisers && !DomainBlocked(db.advertisers[advertiserId].domain, req.blockDomains)
  }

  predicate Intersects(ids: seq<nat>, others: seq<nat>) {
    exists c | c in ids :: c in others
  }

  /** ALLOW blocks on an empty intersection and DENY on a non-empty one; nothing else blocks. */
  predicate CategoryBlocked(blockingType: nat, ids: seq<nat>, requested: seq<nat>) {
    (blockingType == ALLOW && !Intersects(ids, requested)) || (blockingType == DENY && Intersects(ids, requested))
  }

  predicate HasCategories(db: Db, advertiserId: nat) {
    FetchCategoryBlocking(db, advertiserId).Some?
  }

  /** An advertiser without category rows is never blocked by category. */
  predicate CategoryOk(db: Db, req: Request, advertiserId: nat)
    requires advertiserId in db.advertisers
  {
    HasCategories(db, advertiserId) ==>
      !CategoryBlocked(db.advertisers[advertiserId].blockingType, db.categories[advertiserId], req.categoryIds)
  }

  predicate Eligible(db: Db, req: Request, advertiserId: nat) {
    DomainOk(db, req, advertiserId) && CategoryOk(db, req, advertiserId)
  }

  /** In full: the advertiser has a row, no block string occurs anywhere in its domain, and it has no
      category rows, or allows and is asked for some, or denies and is asked for none, or does neither. */
  lemma EligibleExactly(db: Db, req: Request, k: nat)
    ensures Eligible(db, req, k) <==>
      && k in db.advertisers
      && (forall i, j | 0 <= i <= j <= |db.advertisers[k].domain| ::
            db.advertisers[k].domain[i..j] !in req.blockDomains)
      && var ids := if k in db.categories then set c | c in db.categories[k] else {};
         var asked := ids * set c | c in req.categoryIds;
         ids == {} ||
         match db.advertisers[k].blockingType case 0 => asked != {} case 1 => asked == {} case _ => true
  {
    if k in db.advertisers {
      var domain := db.advertisers[k].domain;
      forall d ensures Contains(domain, d) <==> exists i, j | 0 <= i <= j <= |domain| :: domain[i..j] == d {
        ContainsExactly(domain, d);
      }
      FetchesCategories(db, k);
      if k in db.categories {
        var ids, requested := set c | c in db.categories[k], set c | c in req.categoryIds;
        assert (exists c :: c in db.categories[k]) <==> ids != {} by {
          assert forall c :: c in db.categories[k] <==> c in ids;
        }
        assert Intersects(db.categories[k], req.categoryIds) <==> ids * requested != {} by {
          assert forall c :: c in ids * requested <==> c in db.categories[k] && c in req.categoryIds;
        }
      }
    }
  }

  /** An ad that fits the zone and has a feature to be compared by. */
  predicate Contender(db: Db, req: Request, a: Ads) {
    a in db.adses && SizeOk(db, req, a) && a.adsId in db.features
  }

  predicate AtLeastAsNear(db: Db, req: Request, m: Metric, a: Ads, b: Ads)
    requires a.adsId in db.features && b.adsId in db.features
  {
    Nearer(m, req.feature, db.features[a.adsId], db.features[b.adsId], a.adsId <= b.adsId)
  }

  /** `a` represents its advertiser: nearest to the zone feature, then lowest `ads_id`. */
  ghost predicate IsRepresentative(db: Db, req: Request, m: Metric, a: Ads) {
    && Contender(db, req, a)
    && Eligible(db, req, a.advertiserId)
    && forall b :: Contender(db, req, b) && b.advertiserId == a.advertiserId ==> AtLeastAsNear(db, req, m, a, b)
  }

  datatype TieBreak = ByAdsId | ByAdvertiserId

  /** `a` beats `b`: a higher price, or the same price and a lower id. */
  predicate Before(t: TieBreak, a: Ads, b: Ads) {
    a.price > b.price ||
    (a.price == b.price && if t.ByAdsId? then a.adsId < b.adsId else a.advertiserId < b.advertiserId)
  }

  /** How distances are computed and how equal prices are told apart. */
  datatype Rules = Rules(metric: Metric, tie: TieBreak)

  /** The document's distance and order; what it serves is for `Document` to say. */
  const DOCUMENTED_ORDER := Rules(Exact, ByAdsId)
  const GO_RULES := Rules(Float64Of64Bit, ByAdsId)
  const CPP_RULES := Rules(Wrapped32Bit, ByAdvertiserId)
  const PYTHON_RULES := Rules(ClampedAtMaxsize, ByAdsId)

  ghost predicate IsWinner(db: Db, req: Request, rules: Rules, w: Ads) {
    && IsRepresentative(db, req, rules.metric, w)
    && forall r :: IsRepresentative(db, req, rules.metric, r) && r != w ==> Before(rules.tie, w, r)
  }

  /** The ad that wins, if any does. */
  ghost function Winner(db: Db, req: Request, rules: Rules): Option<Ads> {
    if w :| IsWinner(db, req, rules, w) then Some(w) else None
  }

  function Respond(req: Request, winner: Option<Ads>): Option<Response> {
    match winner
    case None => None
    case Some(w) => Some(Response(req.auctionId, w.adsTxt, w.price))
  }

  lemma WinnerUnique(db: Db, req: Request, rules: Rules, v: Ads, w: Ads)
    requires IsWinner(db, req, rules, v) && IsWinner(db, req, rules, w)
    ensures v == w
  {
    assert v != w ==> Before(rules.tie, v, w) && Before(rules.tie, w, v);
  }

  lemma WinnerIs(db: Db, req: Request, rules: Rules, w: Ads)
    ensures Winner(db, req, rules) == Some(w) <==> IsWinner(db, req, rules, w)
  {
    if IsWinner(db, req, rules, w) {
      WinnerUnique(db, req, rules, Winner(db, req, rules).value, w);
    }
  }

  lemma SameIdSameAd(db: Db, a: Ads, b: Ads)
    requires ValidDb(db) && a in db.adses && b in db.adses && a.adsId == b.adsId
    ensures a == b
  {
    var i :| 0 <= i < |db.adses| && db.adses[i] == a;
    var j :| 0 <= j < |db.adses| && db.adses[j] == b;
    assert i == j;
  }

  /** At most one representative per advertiser. */
  lemma RepresentativeUnique(db: Db, req: Request, m: Metric, a: Ads, b: Ads)
    requires ValidDb(db)
    requires IsRepresentative(db, req, m, a) && IsRepresentative(db, req, m, b)
    requires a.advertiserId == b.advertiserId
    ensures a == b
  {
    assert AtLeastAsNear(db, req, m, a, b) && AtLeastAsNear(db, req, m, b, a);
    SameIdSameAd(db, a, b);
  }

  lemma {:induction false} NearestAmong(db: Db, req: Request, m: Metric, c: Ads, n: nat) returns (r: Ads)
    requires Contender(db, req, c) && n <= |db.adses|
    ensures Contender(db, req, r) && r.advertiserId == c.advertiserId
    ensures AtLeastAsNear(db, req, m, r, c)
    ensures forall k :: 0 <= k < n && Contender(db, req, db.adses[k]) && db.adses[k].advertiserId == c.advertiserId ==>
      AtLeastAsNear(db, req, m, r, db.adses[k])
    decreases n
  {
    if n == 0 {
      r := c;
    } else {
      r := NearestAmong(db, req, m, c, n - 1);
      var x := db.adses[n - 1];
      if Contender(db, req, x) && x.advertiserId == c.advertiserId && !AtLeastAsNear(db, req, m, r, x) {
        r := x;
      }
    }
  }

  /** An eligible advertiser with a contender has a representative. */
  lemma RepresentativeExists(db: Db, req: Request, m: Metric, c: Ads) returns (r: Ads)
    requires ValidDb(db) && Contender(db, req, c) && Eligible(db, req, c.advertiserId)
    ensures IsRepresentative(db, req, m, r) && r.advertiserId == c.advertiserId
  {
    r := NearestAmong(db, req, m, c, |db.adses|);
    forall b | Contender(db, req, b) && b.advertiserId == c.advertiserId
      ensures AtLeastAsNear(db, req, m, r, b)
    {
      var k :| 0 <= k < |db.adses| && db.adses[k] == b;
    }
  }

  lemma {:induction false} FirstAmong(db: Db, req: Request, rules: Rules, r: Ads, n: nat) returns (w: Ads)
    requires ValidDb(db) && IsRepresentative(db, req, rules.metric, r) && n <= |db.adses|
    ensures IsRepresentative(db, req, rules.metric, w)
    ensures w == r || Before(rules.tie, w, r)
    ensures forall k :: 0 <= k < n && IsRepresentative(db, req, rules.metric, db.adses[k]) && db.adses[k] != w ==>
      Before(rules.tie, w, db.adses[k])
    decreases n
  {
    if n == 0 {
      w := r;
    } else {
      w := FirstAmong(db, req, rules, r, n - 1);
      var x := db.adses[n - 1];
      if IsRepresentative(db, req, rules.metric, x) && x != w && !Before(rules.tie, w, x) {
        if x.advertiserId == w.advertiserId {
          RepresentativeUnique(db, req, rules.metric, x, w);
        }
        if x.adsId == w.adsId {
          SameIdSameAd(db, x, w);
        }
        w := x;
      }
    }
  }

  /** Somebody wins exactly when some eligible advertiser has an ad with a feature. */
  lemma WinnerExists(db: Db, req: Request, rules: Rules)
    requires ValidDb(db)
    ensures Winner(db, req, rules).Some? <==>
      exists a :: Contender(db, req, a) && Eligible(db, req, a.advertiserId)
  {
    if a :| Contender(db, req, a) && Eligible(db, req, a.advertiserId) {
      var r := RepresentativeExists(db, req, rules.metric, a);
      var w := FirstAmong(db, req, rules, r, |db.adses|);
      forall x | IsRepresentative(db, req, rules.metric, x) && x != w ensures Before(rules.tie, w, x) {
        var k :| 0 <= k < |db.adses| && db.adses[k] == x;
      }
      assert IsWinner(db, req, rules, w);
    }
  }
}
