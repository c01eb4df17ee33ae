// The Go auction cut at its queries: one step per fetch, and one per loop end, so that the
// request server can interleave several of them.

module AuctionSteps {
  import opened Wrappers
  import opened Database
  import opened Metrics
  import opened AuctionSpec
  import opened Targeting
  import opened Sorting
  import opened Pipeline
  import GoAuction

  datatype Query =
    | AllAds
    | SizeOf(sizeId: nat)
    | AdvertiserOf(advertiserId: nat)
    | CategoriesOf(advertiserId: nat)
    | FeatureOf(adsId: nat)

  datatype Rows =
    | Adses(adses: seq<Ads>)
    | Size(size: Option<AdSize>)
    | Owner(advertiser: Option<Advertiser>)
    | Categories(categories: Option<seq<nat>>)
    | Feature(feature: Option<AdsFeature>)

  /** One query against the tables. */
  function Execute(db: Db, q: Query): Rows {
    match q
    case AllAds => Adses(db.adses)
    case SizeOf(id) => Size(FetchAdSize(db, id))
    case AdvertiserOf(id) => Owner(FetchAdvertiser(db, id))
    case CategoriesOf(id) => Categories(FetchCategoryBlocking(db, id))
    case FeatureOf(id) => Feature(FetchAdsFeature(db, id))
  }

  /** The local variables of `auction`, by the loop it is in. */
  datatype Local =
    | Start
    | Sizing(adses: seq<Ads>, i: nat, kept: seq<Ads>)
    | Opening(adses: seq<Ads>, i: nat, kept: seq<Ads>)
    | Grouping(adses: seq<Ads>, i: nat, advertiser: Option<Option<Advertiser>>, groups: map<nat, seq<Ads>>)
    | Choosing(groups: map<nat, seq<Ads>>, remaining: set<nat>, targetted: seq<Ads>)
    | Gathering(
        groups: map<nat, seq<Ads>>, remaining: set<nat>, targetted: seq<Ads>, k: nat, i: nat, fs: seq<AdsFeature>)
    | Done(response: Option<Response>)

  /** The query a local state is about to make. */
  function Wants(l: Local): Option<Query> {
    match l
    case Start => Some(AllAds)
    case Sizing(adses, i, _) => if i < |adses| then Some(SizeOf(adses[i].sizeId)) else None
    case Opening(adses, i, _) => if i < |adses| then Some(AdvertiserOf(adses[i].advertiserId)) else None
    case Grouping(adses, i, advertiser, _) =>
      if i < |adses| then
        Some(if advertiser.None? then AdvertiserOf(adses[i].advertiserId) else CategoriesOf(adses[i].advertiserId))
      else None
    case Gathering(groups, _, _, k, i, _) =>
      if k in groups && i < |groups[k]| then Some(FeatureOf(groups[k][i].adsId)) else None
    case Choosing(_, _, _) => None
    case Done(_) => None
  }

  /** Where the auction goes on once it has the rows it wanted. */
  function Resume(req: Request, l: Local, rows: Rows): Local
    requires Wants(l).Some?
  {
    match (l, rows)
    case (Start, Adses(adses)) => if adses == [] then Done(None) else Sizing(adses, 0, [])
    case (Sizing(adses, i, kept), Size(size)) =>
      Sizing(adses, i + 1,
        if size.Some? && size.value.width == req.zoneWidth && size.value.height == req.zoneHeight
        then kept + [adses[i]] else kept)
    case (Opening(adses, i, kept), Owner(advertiser)) =>
      Opening(adses, i + 1,
        if advertiser.Some? && !DomainBlocked(advertiser.value.domain, req.blockDomains)
        then kept + [adses[i]] else kept)
    case (Grouping(adses, i, None, groups), Owner(advertiser)) => Grouping(adses, i, Some(advertiser), groups)
    case (Grouping(adses, i, Some(advertiser), groups), Categories(categories)) =>
      Grouping(adses, i + 1, None,
        if advertiser.Some? && categories.Some?
          && CategoryBlocked(advertiser.value.blockingType, categories.value, req.categoryIds)
        then groups else Append(groups, adses[i]))
    case (Gathering(groups, remaining, targetted, k, i, fs), Feature(feature)) =>
      Gathering(groups, remaining, targetted, k, i + 1, if feature.Some? then fs + [feature.value] else fs)
    case _ => l
  }

  /** At the end of a loop. */
  predicate CanTurn(l: Local) {
    !l.Choosing? && !l.Done? && Wants(l).None?
  }

  /** On to the next loop, or round the loop over the groups. */
  function Turn(req: Request, l: Local): Local
    requires CanTurn(l)
  {
    match l
    case Sizing(_, _, kept) => Opening(kept, 0, [])
    case Opening(_, _, kept) => Grouping(kept, 0, None, map[])
    case Grouping(_, _, _, groups) => Choosing(groups, groups.Keys, [])
    case Gathering(groups, remaining, targetted, k, i, fs) =>
      Choosing(groups, remaining - {k},
        if fs == [] || k !in groups then targetted
        else targetted + WithId(groups[k], FirstNearest(Float64Of64Bit, req.feature, fs).adsId))
    case _ => l
  }

  /** The map iteration yields some key not yet visited. */
  predicate CanPick(l: Local, k: nat) {
    l.Choosing? && k in l.remaining
  }

  function Pick(l: Local, k: nat): Local
    requires CanPick(l, k)
  {
    Gathering(l.groups, l.remaining, l.targetted, k, 0, [])
  }

  /** The sort leaves any list its contract allows. */
  predicate CanSort(l: Local, sorted: seq<Ads>) {
    l.Choosing? && l.remaining == {} && Permutation(l.targetted, sorted) && SortedBy(PriceThenAdsId, sorted)
  }

  function Sort(req: Request, sorted: seq<Ads>): Local {
    Done(Respond(req, if sorted == [] then None else Some(sorted[0])))
  }

  // ---------- what every local state has established ----------

  predicate Small(groups: map<nat, seq<Ads>>, n: nat) {
    |groups| <= n && forall k | k in groups :: |groups[k]| <= n
  }

  ghost predicate GroupingInv(
    db: Db, req: Request, adses: seq<Ads>, i: nat, advertiser: Option<Option<Advertiser>>, groups: map<nat, seq<Ads>>)
  {
    && AllOpen(db, req, adses) && |adses| <= |db.adses| && i <= |adses|
    && GroupedSoFar(Passing(db, req), adses[..i], groups) && Small(groups, i)
    && (advertiser.Some? ==> i < |adses| && advertiser.value == FetchAdvertiser(db, adses[i].advertiserId))
  }

  ghost predicate ChoosingInv(
    db: Db, req: Request, groups: map<nat, seq<Ads>>, remaining: set<nat>, targetted: seq<Ads>)
  {
    && Grouped(db, req, groups) && Small(groups, |db.adses|)
    && TargetedSoFar(db, req, Float64Of64Bit, groups, remaining, targetted)
  }

  ghost predicate LocalInv(db: Db, req: Request, l: Local) {
    match l
    case Start => true
    case Sizing(adses, i, kept) =>
      adses == db.adses && i <= |adses| && KeptSoFar(Fitting(db, req), adses[..i], kept)
    case Opening(adses, i, kept) =>
      AllFitting(db, req, adses) && |adses| <= |db.adses| && i <= |adses| && KeptSoFar(Open(db, req), adses[..i], kept)
    case Grouping(adses, i, advertiser, groups) => GroupingInv(db, req, adses, i, advertiser, groups)
    case Choosing(groups, remaining, targetted) => ChoosingInv(db, req, groups, remaining, targetted)
    case Gathering(groups, remaining, targetted, k, i, fs) =>
      ChoosingInv(db, req, groups, remaining, targetted) && k in remaining && k in groups
      && i <= |groups[k]| && fs == Features(db, groups[k][..i])
    case Done(response) => response == Respond(req, Winner(db, req, GO_RULES))
  }

  lemma SmallAppend(groups: map<nat, seq<Ads>>, a: Ads, n: nat)
    requires Small(groups, n)
    ensures Small(Append(groups, a), n + 1)
  {
    assert Append(groups, a).Keys == groups.Keys + {a.advertiserId};
    assert |Append(groups, a)| == |Append(groups, a).Keys| <= |groups.Keys| + 1;
  }

  /** The category decision on fetched rows is the one the specification makes. */
  lemma GroupsByPassing(db: Db, req: Request, adses: seq<Ads>, i: nat, groups: map<nat, seq<Ads>>)
    requires i < |adses| && DomainOk(db, req, adses[i].advertiserId)
    ensures var k := adses[i].advertiserId;
      Resume(req, Grouping(adses, i, Some(FetchAdvertiser(db, k)), groups), Categories(FetchCategoryBlocking(db, k)))
        == Grouping(adses, i + 1, None, if k in Passing(db, req) then Append(groups, adses[i]) else groups)
  {
  }

  lemma OpenAt(db: Db, req: Request, adses: seq<Ads>, i: nat)
    requires AllOpen(db, req, adses) && i < |adses|
    ensures DomainOk(db, req, adses[i].advertiserId)
  {
    assert adses[i] in adses;
  }

  lemma GroupOne(db: Db, req: Request, adses: seq<Ads>, i: nat, groups: map<nat, seq<Ads>>)
    requires i < |adses|
    requires GroupingInv(db, req, adses, i, Some(FetchAdvertiser(db, adses[i].advertiserId)), groups)
    ensures GroupingInv(db, req, adses, i + 1, None,
      if adses[i].advertiserId in Passing(db, req) then Append(groups, adses[i]) else groups)
  {
    GroupAppend(Passing(db, req), adses, i, groups);
    SmallAppend(groups, adses[i], i);
  }

  lemma ResumeGrouped(db: Db, req: Request, adses: seq<Ads>, i: nat, groups: map<nat, seq<Ads>>)
    requires i < |adses|
    requires GroupingInv(db, req, adses, i, Some(FetchAdvertiser(db, adses[i].advertiserId)), groups)
    ensures var k := adses[i].advertiserId;
      var l := Grouping(adses, i, Some(FetchAdvertiser(db, k)), groups);
      LocalInv(db, req, Resume(req, l, Categories(FetchCategoryBlocking(db, k))))
  {
    OpenAt(db, req, adses, i);
    GroupsByPassing(db, req, adses, i, groups);
    GroupOne(db, req, adses, i, groups);
  }

  lemma ResumeOwned(db: Db, req: Request, adses: seq<Ads>, i: nat, groups: map<nat, seq<Ads>>)
    requires i < |adses| && GroupingInv(db, req, adses, i, None, groups)
    ensures var owner := Owner(FetchAdvertiser(db, adses[i].advertiserId));
      LocalInv(db, req, Resume(req, Grouping(adses, i, None, groups), owner))
  {
  }

  lemma ResumeGrouping(db: Db, req: Request, l: Local)
    requires l.Grouping? && LocalInv(db, req, l) && Wants(l).Some?
    ensures LocalInv(db, req, Resume(req, l, Execute(db, Wants(l).value)))
  {
    if l.advertiser.Some? {
      assert l == Grouping(l.adses, l.i, Some(FetchAdvertiser(db, l.adses[l.i].advertiserId)), l.groups);
      ResumeGrouped(db, req, l.adses, l.i, l.groups);
    } else {
      assert l == Grouping(l.adses, l.i, None, l.groups);
      ResumeOwned(db, req, l.adses, l.i, l.groups);
    }
  }

  /** Only the position and the features collected so far change. */
  lemma GatherOne(db: Db, req: Request, l: Local)
    requires l.Gathering? && l.k in l.groups && l.i < |l.groups[l.k]| && l.fs == Features(db, l.groups[l.k][..l.i])
    ensures Resume(req, l, Feature(FetchAdsFeature(db, l.groups[l.k][l.i].adsId))) ==
      l.(i := l.i + 1, fs := Features(db, l.groups[l.k][..l.i + 1]))
  {
    var group := l.groups[l.k];
    assert group[..l.i + 1][..l.i] == group[..l.i];
  }

  lemma ResumeGathering(db: Db, req: Request, l: Local)
    requires l.Gathering? && LocalInv(db, req, l) && Wants(l).Some?
    ensures LocalInv(db, req, Resume(req, l, Execute(db, Wants(l).value)))
  {
    GatherOne(db, req, l);
  }

  lemma ResumeFiltering(db: Db, req: Request, l: Local)
    requires ValidDb(db) && (l.Sizing? || l.Opening?) && LocalInv(db, req, l) && Wants(l).Some?
    ensures LocalInv(db, req, Resume(req, l, Execute(db, Wants(l).value)))
  {
    KeepStep(if l.Sizing? then Fitting(db, req) else Open(db, req), l.adses, l.i, l.kept);
  }

  lemma ResumeStart(db: Db, req: Request)
    requires ValidDb(db)
    ensures LocalInv(db, req, Resume(req, Start, Adses(db.adses)))
  {
    WinnerExists(db, req, GO_RULES);
  }

  lemma ResumeKeeps(db: Db, req: Request, l: Local)
    requires ValidDb(db) && LocalInv(db, req, l) && Wants(l).Some?
    ensures LocalInv(db, req, Resume(req, l, Execute(db, Wants(l).value)))
  {
    if l.Start? {
      ResumeStart(db, req);
    } else if l.Sizing? || l.Opening? {
      ResumeFiltering(db, req, l);
    } else if l.Grouping? {
      ResumeGrouping(db, req, l);
    } else {
      ResumeGathering(db, req, l);
    }
  }

  lemma TurnKeeps(db: Db, req: Request, l: Local)
    requires ValidDb(db) && LocalInv(db, req, l) && CanTurn(l)
    ensures LocalInv(db, req, Turn(req, l))
  {
    match l
    case Sizing(adses, i, kept) => assert adses[..i] == adses;
    case Opening(adses, i, kept) =>
      assert adses[..i] == adses;
      GroupedStart(Passing(db, req));
    case Grouping(adses, i, _, groups) =>
      assert adses[..i] == adses;
      GroupedEnd(db, req, adses, groups);
      TargetedStart(db, req, Float64Of64Bit, groups);
    case Gathering(groups, remaining, targetted, k, i, fs) =>
      assert groups[k][..i] == groups[k];
      TargetedStep(db, req, Float64Of64Bit, groups, remaining, targetted, k);
  }

  lemma PickKeeps(db: Db, req: Request, l: Local, k: nat)
    requires LocalInv(db, req, l) && CanPick(l, k)
    ensures LocalInv(db, req, Pick(l, k))
  {
  }

  /** Whatever the map order was and whatever the sort did, the answer is the winner. */
  lemma SortKeeps(db: Db, req: Request, l: Local, sorted: seq<Ads>)
    requires ValidDb(db) && LocalInv(db, req, l) && CanSort(l, sorted)
    ensures LocalInv(db, req, Sort(req, sorted))
  {
    TargetedEnd(db, req, Float64Of64Bit, l.groups, l.targetted);
    GoAuction.AnySortStartsWithWinner(db, req, Float64Of64Bit, l.targetted, sorted);
  }

  // ---------- how much is left to do ----------

  /** Enough steps to visit `keys` groups of at most `n` ads each. */
  function Rounds(keys: nat, n: nat): nat {
    if keys == 0 then 0 else Rounds(keys - 1, n) + n + 3
  }

  lemma {:induction false} RoundsIncrease(j: nat, k: nat, n: nat)
    requires j <= k
    ensures Rounds(j, n) <= Rounds(k, n)
  {
    if j < k {
      RoundsIncrease(j, k - 1, n);
    }
  }

  /** A bound on the steps a local state has before it, `n` being the number of ads. */
  function StepsLeft(l: Local, n: nat): int {
    match l
    case Start => Rounds(n, n) + 4 * n + 7
    case Sizing(adses, i, _) => Rounds(n, n) + 3 * n + 6 + (|adses| - i)
    case Opening(adses, i, _) => Rounds(n, n) + 2 * n + 4 + (|adses| - i)
    case Grouping(adses, i, advertiser, _) =>
      Rounds(n, n) + 2 + 2 * (|adses| - i) - (if advertiser.Some? then 1 else 0)
    case Choosing(_, remaining, _) => Rounds(|remaining|, n) + 1
    case Gathering(groups, remaining, _, k, i, _) =>
      if |remaining| == 0 || k !in groups then 0 else Rounds(|remaining| - 1, n) + 2 + (|groups[k]| - i)
    case Done(_) => 0
  }

  lemma StepsNonNegative(db: Db, req: Request, l: Local)
    requires LocalInv(db, req, l)
    ensures StepsLeft(l, |db.adses|) >= 0
    ensures Wants(l).Some? || CanTurn(l) ==> StepsLeft(l, |db.adses|) > 0
  {
  }

  lemma ResumeAdvances(db: Db, req: Request, l: Local)
    requires LocalInv(db, req, l) && Wants(l).Some?
    ensures StepsLeft(Resume(req, l, Execute(db, Wants(l).value)), |db.adses|) < StepsLeft(l, |db.adses|)
  {
  }

  lemma TurnGroupingAdvances(req: Request, l: Local, n: nat)
    requires l.Grouping? && CanTurn(l) && |l.groups| <= n && l.i <= |l.adses|
    requires l.advertiser.Some? ==> l.i < |l.adses|
    ensures StepsLeft(Turn(req, l), n) < StepsLeft(l, n)
  {
    assert |l.groups.Keys| == |l.groups|;
    RoundsIncrease(|l.groups|, n, n);
  }

  lemma TurnGatheringAdvances(req: Request, l: Local, n: nat)
    requires l.Gathering? && CanTurn(l) && l.k in l.remaining && l.k in l.groups && l.i <= |l.groups[l.k]|
    ensures StepsLeft(Turn(req, l), n) < StepsLeft(l, n)
  {
    assert |l.remaining - {l.k}| == |l.remaining| - 1;
  }

  lemma TurnAdvances(db: Db, req: Request, l: Local)
    requires LocalInv(db, req, l) && CanTurn(l)
    ensures StepsLeft(Turn(req, l), |db.adses|) < StepsLeft(l, |db.adses|)
  {
    match l
    case Sizing(_, _, _) =>
    case Opening(_, _, _) =>
    case Grouping(_, _, _, _) => TurnGroupingAdvances(req, l, |db.adses|);
    case Gathering(_, _, _, _, _, _) => TurnGatheringAdvances(req, l, |db.adses|);
  }

  lemma PickAdvances(db: Db, req: Request, l: Local, k: nat)
    requires LocalInv(db, req, l) && CanPick(l, k)
    ensures StepsLeft(Pick(l, k), |db.adses|) < StepsLeft(l, |db.adses|)
  {
  }

  // ---------- some sorted list always exists ----------

  function Insert(a: Ads, s: seq<Ads>): (t: seq<Ads>)
    ensures multiset(t) == multiset(s) + multiset{a}
  {
    if s == [] then [a]
    else if Less(PriceThenAdsId, s[|s| - 1], a) then s + [a]
    else
      assert s == s[..|s| - 1] + [s[|s| - 1]];
      Insert(a, s[..|s| - 1]) + [s[|s| - 1]]
  }

  lemma {:induction false} InsertSorted(a: Ads, s: seq<Ads>)
    requires SortedBy(PriceThenAdsId, s)
    ensures SortedBy(PriceThenAdsId, Insert(a, s))
  {
    if s != [] && !Less(PriceThenAdsId, s[|s| - 1], a) {
      var rest, last := s[..|s| - 1], s[|s| - 1];
      InsertSorted(a, rest);
      forall i | 0 <= i < |Insert(a, rest)| ensures !Less(PriceThenAdsId, last, Insert(a, rest)[i]) {
        var x := Insert(a, rest)[i];
        assert x in multiset(Insert(a, rest));
        if x != a {
          assert x in multiset(rest);
          var j :| 0 <= j < |rest| && rest[j] == x;
          assert s[j] == x;
        }
      }
    }
  }

  lemma {:induction false} SomeSort(s: seq<Ads>) returns (t: seq<Ads>)
    ensures Permutation(s, t) && SortedBy(PriceThenAdsId, t)
  {
    if s == [] {
      t := [];
    } else {
      var rest, last := s[..|s| - 1], s[|s| - 1];
      var r := SomeSort(rest);
      assert s == rest + [last];
      InsertSorted(last, r);
      t := Insert(last, r);
    }
  }
}
