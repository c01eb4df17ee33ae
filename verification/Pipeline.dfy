// The stages the three languages write alike, and what each stage leaves behind.

module Pipeline {
  import opened Wrappers
  import opened Database
  import opened Metrics
  import opened AuctionSpec
  import opened Targeting

  /** Exactly the ads of the zone's size, in `ads_id` order. */
  ghost predicate AllFitting(db: Db, req: Request, adses: seq<Ads>) {
    IncreasingIds(adses) && forall a :: a in adses <==> a in db.adses && SizeOk(db, req, a)
  }

  /** Exactly those of them whose advertiser's domain is open. */
  ghost predicate AllOpen(db: Db, req: Request, adses: seq<Ads>) {
    && IncreasingIds(adses)
    && forall a :: a in adses <==> a in db.adses && SizeOk(db, req, a) && DomainOk(db, req, a.advertiserId)
  }

  /** `group` is all of the advertiser's fitting ads, in `ads_id` order, and there is one. */
  ghost predicate WholeGroup(db: Db, req: Request, advertiserId: nat, group: seq<Ads>) {
    && group != [] && IncreasingIds(group)
    && forall a :: a in group <==> a in db.adses && SizeOk(db, req, a) && a.advertiserId == advertiserId
  }

  /** The eligible advertisers with a fitting ad, each with all of its fitting ads. */
  ghost predicate Grouped(db: Db, req: Request, groups: map<nat, seq<Ads>>) {
    && (forall k :: k in groups ==> Eligible(db, req, k) && WholeGroup(db, req, k, groups[k]))
    && forall a :: a in db.adses && SizeOk(db, req, a) && Eligible(db, req, a.advertiserId) ==> a.advertiserId in groups
  }

  /** A filter under way: `kept` are the ads of `done` that pass, in the same order. */
  ghost predicate KeptSoFar(passing: iset<Ads>, done: seq<Ads>, kept: seq<Ads>) {
    IncreasingIds(kept) && |kept| <= |done| && forall a :: a in kept <==> a in done && a in passing
  }

  lemma KeepStep(passing: iset<Ads>, adses: seq<Ads>, i: nat, kept: seq<Ads>)
    requires i < |adses| && IncreasingIds(adses) && KeptSoFar(passing, adses[..i], kept)
    ensures KeptSoFar(passing, adses[..i + 1], if adses[i] in passing then kept + [adses[i]] else kept)
  {
    var ads, done := adses[i], adses[..i + 1];
    assert done == adses[..i] + [ads];
    assert forall a :: a in done <==> a in adses[..i] || a == ads;
    if ads in passing {
      IncreasingIdsAppend(kept, adses[..i], ads);
      assert forall a :: a in kept + [ads] <==> a in kept || a == ads;
    }
  }

  ghost function Fitting(db: Db, req: Request): iset<Ads> {
    iset a: Ads | SizeOk(db, req, a)
  }

  ghost function Open(db: Db, req: Request): iset<Ads> {
    iset a: Ads | DomainOk(db, req, a.advertiserId)
  }

  /** The advertisers the category rule lets through. */
  ghost function Passing(db: Db, req: Request): iset<nat> {
    iset k | k in db.advertisers && CategoryOk(db, req, k)
  }

  /** Grouping under way: the groups hold the passing ones among `done`, by advertiser. */
  ghost predicate GroupedSoFar(passing: iset<nat>, done: seq<Ads>, groups: map<nat, seq<Ads>>) {
    && (forall k :: k in groups ==> k in passing && groups[k] != [] && IncreasingIds(groups[k]))
    && (forall k, a :: k in groups && a in groups[k] ==> a in done && a.advertiserId == k)
    && (forall a :: a in done && a.advertiserId in passing ==>
        a.advertiserId in groups && a in groups[a.advertiserId])
  }

  /** `m[k] = append(m[k], a)`: a key not yet present stands for an empty list. */
  function Append(groups: map<nat, seq<Ads>>, a: Ads): map<nat, seq<Ads>> {
    groups[a.advertiserId := (if a.advertiserId in groups then groups[a.advertiserId] else []) + [a]]
  }

  lemma GroupedStart(passing: iset<nat>)
    ensures GroupedSoFar(passing, [], map[])
  {
  }

  lemma GroupAppend(passing: iset<nat>, adses: seq<Ads>, i: nat, groups: map<nat, seq<Ads>>)
    requires i < |adses| && IncreasingIds(adses)
    requires GroupedSoFar(passing, adses[..i], groups)
    ensures GroupedSoFar(passing, adses[..i + 1],
      if adses[i].advertiserId in passing then Append(groups, adses[i]) else groups)
  {
    var ads, done := adses[i], adses[..i + 1];
    var k := ads.advertiserId;
    assert done == adses[..i] + [ads];
    assert forall a :: a in done <==> a in adses[..i] || a == ads;
    if k in passing {
      var before := if k in groups then groups[k] else [];
      IncreasingIdsAppend(before, adses[..i], ads);
      assert forall a :: a in before + [ads] <==> a in before || a == ads;
    }
  }

  /** Grouping conserves ads: an advertiser's fitting ads survive all together or not at all. */
  lemma GroupedEnd(db: Db, req: Request, adses: seq<Ads>, groups: map<nat, seq<Ads>>)
    requires AllOpen(db, req, adses) && GroupedSoFar(Passing(db, req), adses, groups)
    ensures Grouped(db, req, groups)
  {
    var passing := Passing(db, req);
    forall k ensures k in passing && DomainOk(db, req, k) <==> Eligible(db, req, k) {}
    forall k | k in groups ensures Eligible(db, req, k) && WholeGroup(db, req, k, groups[k]) {
      var first := groups[k][0];
      assert first in groups[k] && first in adses && first.advertiserId == k;
    }
  }

  lemma SameKeys(db: Db, req: Request, groups: map<nat, seq<Ads>>, groups': map<nat, seq<Ads>>)
    requires Grouped(db, req, groups) && Grouped(db, req, groups')
    ensures groups.Keys <= groups'.Keys
  {
    forall k | k in groups ensures k in groups' {
      assert groups[k][0] in groups[k];
    }
  }

  /** Each stage leaves its successor no freedom: whatever the language, the lists and the groups
      are the same. */
  lemma StagesDetermined(
    db: Db, req: Request, s: seq<Ads>, t: seq<Ads>, groups: map<nat, seq<Ads>>, groups': map<nat, seq<Ads>>)
    ensures AllFitting(db, req, s) && AllFitting(db, req, t) ==> s == t
    ensures AllOpen(db, req, s) && AllOpen(db, req, t) ==> s == t
    ensures Grouped(db, req, groups) && Grouped(db, req, groups') ==> groups == groups'
  {
    if (AllFitting(db, req, s) && AllFitting(db, req, t)) || (AllOpen(db, req, s) && AllOpen(db, req, t)) {
      IncreasingIdsUnique(s, t);
    }
    if Grouped(db, req, groups) && Grouped(db, req, groups') {
      SameKeys(db, req, groups, groups');
      SameKeys(db, req, groups', groups);
      forall k | k in groups ensures groups[k] == groups'[k] {
        IncreasingIdsUnique(groups[k], groups'[k]);
      }
    }
  }

  /** The features of a group's ads, skipping ads without one. */
  function Features(db: Db, group: seq<Ads>): seq<AdsFeature> {
    if group == [] then []
    else
      var last := group[|group| - 1];
      Features(db, group[..|group| - 1]) +
        match FetchAdsFeature(db, last.adsId) case Some(f) => [f] case None => []
  }

  lemma {:induction false} FeaturesInOrder(db: Db, group: seq<Ads>)
    requires IncreasingIds(group)
    ensures forall i, j :: 0 <= i < j < |Features(db, group)| ==>
      Features(db, group)[i].adsId < Features(db, group)[j].adsId
    ensures forall f :: f in Features(db, group) <==>
      f.adsId in db.features && f.feature == db.features[f.adsId] && exists a :: a in group && a.adsId == f.adsId
  {
    if group != [] {
      var rest, last := group[..|group| - 1], group[|group| - 1];
      FeaturesInOrder(db, rest);
      assert group == rest + [last];
      forall f | f in Features(db, rest) ensures f.adsId < last.adsId {
        var a :| a in rest && a.adsId == f.adsId;
      }
      forall f ensures f in Features(db, group) <==>
        f.adsId in db.features && f.feature == db.features[f.adsId] && exists a :: a in group && a.adsId == f.adsId
      {
        assert (exists a :: a in group && a.adsId == f.adsId) <==>
          (exists a :: a in rest && a.adsId == f.adsId) || last.adsId == f.adsId;
      }
    }
  }

  function WithId(group: seq<Ads>, adsId: nat): seq<Ads> {
    if group == [] then []
    else WithId(group[..|group| - 1], adsId) + if group[|group| - 1].adsId == adsId then [group[|group| - 1]] else []
  }

  lemma {:induction false} WithIdMembers(group: seq<Ads>, adsId: nat)
    ensures forall a :: a in WithId(group, adsId) <==> a in group && a.adsId == adsId
    ensures IncreasingIds(group) ==> |WithId(group, adsId)| <= 1
  {
    if group != [] {
      var rest, last := group[..|group| - 1], group[|group| - 1];
      WithIdMembers(rest, adsId);
      assert group == rest + [last];
      if IncreasingIds(group) && WithId(rest, adsId) != [] {
        assert WithId(rest, adsId)[0] in rest;
      }
    }
  }

  /** What one turn of the targeting loop appends. */
  function Targeted(db: Db, req: Request, m: Metric, group: seq<Ads>): seq<Ads> {
    var fs := Features(db, group);
    if fs == [] then [] else WithId(group, FirstNearest(m, req.feature, fs).adsId)
  }

  function FeatureOf(db: Db, a: Ads): AdsFeature {
    AdsFeature(a.adsId, if a.adsId in db.features then db.features[a.adsId] else 0)
  }

  lemma NearestFirst(m: Metric, zone: int, fs: seq<AdsFeature>)
    requires fs != []
    requires forall i, j :: 0 <= i < j < |fs| ==> fs[i].adsId < fs[j].adsId
    ensures var best := FirstNearest(m, zone, fs); best in fs && forall f :: f in fs ==>
      Nearer(m, zone, best.feature, f.feature, best.adsId <= f.adsId)
  {
    var ds := Distances(m, zone, fs);
    var k := ArgMin(ds);
    forall f | f in fs ensures Nearer(m, zone, fs[k].feature, f.feature, fs[k].adsId <= f.adsId) {
      var i :| 0 <= i < |fs| && fs[i] == f;
      assert ds[k] <= ds[i];
    }
  }

  /** The first minimum over a group's features is its advertiser's representative: feature
      order is `ads_id` order, so the strict comparison settles ties by `ads_id`. */
  lemma TargetedIsRepresentative(db: Db, req: Request, m: Metric, groups: map<nat, seq<Ads>>, k: nat)
    requires ValidDb(db) && Grouped(db, req, groups) && k in groups
    ensures |Targeted(db, req, m, groups[k])| <= 1
    ensures forall a :: a in Targeted(db, req, m, groups[k]) <==> IsRepresentative(db, req, m, a) && a.advertiserId == k
  {
    var group := groups[k];
    var fs := Features(db, group);
    FeaturesInOrder(db, group);
    forall a ensures Contender(db, req, a) && a.advertiserId == k ==> a in group && FeatureOf(db, a) in fs {}
    if fs != [] {
      var best := FirstNearest(m, req.feature, fs);
      WithIdMembers(group, best.adsId);
      NearestFirst(m, req.feature, fs);
      forall a ensures a in WithId(group, best.adsId) <==> IsRepresentative(db, req, m, a) && a.advertiserId == k {
        if a in group && a.adsId == best.adsId {
          forall b | Contender(db, req, b) && b.advertiserId == k ensures AtLeastAsNear(db, req, m, a, b) {
            assert FeatureOf(db, b) in fs;
          }
        }
        if IsRepresentative(db, req, m, a) && a.advertiserId == k {
          assert best in fs;
          var b :| b in group && b.adsId == best.adsId;
          assert Contender(db, req, b) && AtLeastAsNear(db, req, m, a, b);
          assert FeatureOf(db, a) in fs;
        }
      }
    }
  }

  predicate DistinctAdvertisers(adses: seq<Ads>) {
    forall i, j :: 0 <= i < j < |adses| ==> adses[i].advertiserId != adses[j].advertiserId
  }

  /** `targetted` holds the representatives of the groups already visited, each once. */
  ghost predicate TargetedSoFar(
    db: Db, req: Request, m: Metric, groups: map<nat, seq<Ads>>, remaining: set<nat>, targetted: seq<Ads>)
  {
    && remaining <= groups.Keys
    && DistinctAdvertisers(targetted)
    && forall a :: a in targetted <==>
      IsRepresentative(db, req, m, a) && a.advertiserId in groups && a.advertiserId !in remaining
  }

  lemma TargetedStart(db: Db, req: Request, m: Metric, groups: map<nat, seq<Ads>>)
    ensures TargetedSoFar(db, req, m, groups, groups.Keys, [])
  {
  }

  lemma DistinctAppend(s: seq<Ads>, t: seq<Ads>, k: nat)
    requires DistinctAdvertisers(s) && |t| <= 1
    requires forall a :: a in s ==> a.advertiserId != k
    requires forall a :: a in t ==> a.advertiserId == k
    ensures DistinctAdvertisers(s + t)
  {
    forall i | 0 <= i < |s| ensures s[i].advertiserId != k {
      assert s[i] in s;
    }
    forall j | 0 <= j < |t| ensures t[j].advertiserId == k {
      assert t[j] in t;
    }
  }

  lemma TargetedStep(
    db: Db, req: Request, m: Metric, groups: map<nat, seq<Ads>>, remaining: set<nat>, targetted: seq<Ads>, k: nat)
    requires ValidDb(db) && Grouped(db, req, groups) && k in remaining
    requires TargetedSoFar(db, req, m, groups, remaining, targetted)
    ensures TargetedSoFar(db, req, m, groups, remaining - {k}, targetted + Targeted(db, req, m, groups[k]))
  {
    TargetedIsRepresentative(db, req, m, groups, k);
    var chosen := Targeted(db, req, m, groups[k]);
    DistinctAppend(targetted, chosen, k);
    forall a ensures a in targetted + chosen <==>
      IsRepresentative(db, req, m, a) && a.advertiserId in groups && a.advertiserId !in remaining - {k}
    {
      assert a in targetted + chosen <==> a in targetted || a in chosen;
    }
  }

  ghost predicate AllRepresentatives(db: Db, req: Request, m: Metric, targetted: seq<Ads>) {
    DistinctAdvertisers(targetted) && forall a :: a in targetted <==> IsRepresentative(db, req, m, a)
  }

  /** Once every group is visited, the list is exactly the representatives. */
  lemma TargetedEnd(db: Db, req: Request, m: Metric, groups: map<nat, seq<Ads>>, targetted: seq<Ads>)
    requires Grouped(db, req, groups) && TargetedSoFar(db, req, m, groups, {}, targetted)
    ensures AllRepresentatives(db, req, m, targetted)
  {
  }

  /** The size loop; all three languages write it so. */
  method FilterBySize(db: Db, req: Request) returns (kept: seq<Ads>)
    requires ValidDb(db)
    ensures AllFitting(db, req, kept)
    ensures forall a :: a in kept <==>
      && a in db.adses && a.sizeId in db.sizes
      && db.sizes[a.sizeId].width == req.zoneWidth && db.sizes[a.sizeId].height == req.zoneHeight
  {
    kept := [];
    for i := 0 to |db.adses|
      invariant KeptSoFar(Fitting(db, req), db.adses[..i], kept)
    {
      var ads := db.adses[i];
      KeepStep(Fitting(db, req), db.adses, i, kept);
      match FetchAdSize(db, ads.sizeId)
      case None =>
      case Some(size) =>
        if size.width == req.zoneWidth && size.height == req.zoneHeight {
          kept := kept + [ads];
        }
    }
    assert db.adses[..|db.adses|] == db.adses;
  }

  /** The inner loop over the block strings. */
  method ContainsBlocked(domain: string, blockDomains: seq<string>) returns (found: bool)
    ensures found == DomainBlocked(domain, blockDomains)
    ensures found <==> exists d | d in blockDomains :: exists i, j | 0 <= i <= j <= |domain| :: domain[i..j] == d
  {
    forall d ensures Contains(domain, d) <==> exists i, j | 0 <= i <= j <= |domain| :: domain[i..j] == d {
      ContainsExactly(domain, d);
    }
    found := false;
    for j := 0 to |blockDomains|
      invariant found == DomainBlocked(domain, blockDomains[..j])
    {
      assert blockDomains[..j + 1] == blockDomains[..j] + [blockDomains[j]];
      if Contains(domain, blockDomains[j]) {
        found := true;
      }
    }
    assert blockDomains[..|blockDomains|] == blockDomains;
  }

  /** The domain loop, as Go and C++ write it. */
  method FilterByDomain(db: Db, req: Request, adses: seq<Ads>) returns (kept: seq<Ads>)
    requires AllFitting(db, req, adses)
    ensures AllOpen(db, req, kept)
  {
    kept := [];
    for i := 0 to |adses|
      invariant KeptSoFar(Open(db, req), adses[..i], kept)
    {
      var ads := adses[i];
      KeepStep(Open(db, req), adses, i, kept);
      match FetchAdvertiser(db, ads.advertiserId)
      case None =>
      case Some(advertiser) =>
        var contained := ContainsBlocked(advertiser.domain, req.blockDomains);
        if !contained {
          kept := kept + [ads];
        }
    }
    assert adses[..|adses|] == adses;
  }

  /** The loop collecting the features of one group. */
  method CollectFeatures(db: Db, group: seq<Ads>) returns (fs: seq<AdsFeature>)
    ensures fs == Features(db, group)
  {
    fs := [];
    for i := 0 to |group|
      invariant fs == Features(db, group[..i])
    {
      assert group[..i + 1][..i] == group[..i];
      match FetchAdsFeature(db, group[i].adsId)
      case None =>
      case Some(f) => fs := fs + [f];
    }
    assert group[..|group|] == group;
  }

  /** The loop picking the chosen ad out of its group again, as Go and Python write it. */
  method CollectWithId(group: seq<Ads>, adsId: nat) returns (found: seq<Ads>)
    ensures found == WithId(group, adsId)
  {
    found := [];
    for i := 0 to |group|
      invariant found == WithId(group[..i], adsId)
    {
      assert group[..i + 1][..i] == group[..i];
      if group[i].adsId == adsId {
        found := found + [group[i]];
      }
    }
    assert group[..|group|] == group;
  }
}
