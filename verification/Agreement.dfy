// When the three auctions give the documented answer, and where they part.

module Agreement {
  import opened Wrappers
  import opened Database
  import opened Metrics
  import opened AuctionSpec
  import opened Views
  import opened AuctionLaws
  import opened Document
  import opened Generator
  import GoAuction
  import CppAuction
  import PythonAuction

  function GoView(db: Db, req: Request): View {
    View(db, req, Float64Of64Bit)
  }

  function CppView(db: Db, req: Request): View {
    View(db, req, Wrapped32Bit)
  }

  function PythonView(db: Db, req: Request): View {
    View(NonZeroFeatures(db), req, ClampedAtMaxsize)
  }

  // ---------- Go ----------

  lemma SameFor(v: View, w: View)
    ensures SameRepresentatives(v, w) <==> forall a :: IsRepresentative(v.db, v.req, v.metric, a) <==>
      IsRepresentative(w.db, w.req, w.metric, a)
  {
    forall a ensures Represents(v, a) <==> IsRepresentative(v.db, v.req, v.metric, a) {}
    forall a ensures Represents(w, a) <==> IsRepresentative(w.db, w.req, w.metric, a) {}
  }

  lemma DocumentFits(db: Db, req: Request, m: Metric)
    ensures AllFit(db, req, m) ==> AllFit(DocumentTables(db), DocumentRequest(req), m)
    ensures InReach(db, req, m) ==> InReach(DocumentTables(db), DocumentRequest(req), m)
  {
    SameContenders(db, req, m);
  }

  /** Go's representatives can be the documents' only where the rules meet. */
  lemma GoRulesMeet(db: Db, req: Request)
    requires ValidDb(db) && SameRepresentatives(GoView(db, req), DocumentView(db, req))
    ensures RulesMeet(db, req)
  {
    var v, w := GoView(db, req), DocumentView(db, req);
    DocumentViewExactly(db, req);
    forall a | Contender(db, req, a) && Eligible(db, req, a.advertiserId) ensures !Unlisted(db, a.advertiserId) {
      var r := RepresentativeExists(db, req, Float64Of64Bit, a);
      assert Represents(v, r) && Represents(w, r);
      DocumentedEligibility(db, req, r.advertiserId);
    }
    if "" in req.blockDomains {
      forall a ensures !DocumentedRepresentative(db, req, a) {
        EligibleBothWays(db, req, a.advertiserId);
        assert Represents(v, a) <==> Represents(w, a);
      }
    }
  }

  /** Go's representatives are the documents' exactly when the rules meet and Go's arithmetic keeps
      each documented representative before its advertiser's other contenders. */
  lemma GoRepresentatives(db: Db, req: Request)
    requires ValidDb(db) && AllFit(db, req, Float64Of64Bit)
    ensures SameRepresentatives(GoView(db, req), DocumentView(db, req)) <==>
      RulesMeet(db, req) && OrderKeptFor(DocumentTables(db), DocumentRequest(req), Float64Of64Bit)
  {
    var between := View(DocumentTables(db), DocumentRequest(req), Float64Of64Bit);
    if SameRepresentatives(GoView(db, req), DocumentView(db, req)) {
      GoRulesMeet(db, req);
    }
    RulesExactly(db, req, Float64Of64Bit);
    DocumentFits(db, req, Float64Of64Bit);
    RepresentativesExactly(DocumentTables(db), DocumentRequest(req), Float64Of64Bit);
    SameFor(DocumentView(db, req), between);
    if RulesMeet(db, req) {
      assert forall a :: Represents(GoView(db, req), a) <==> Represents(between, a);
      assert forall a :: Represents(DocumentView(db, req), a) <==> IsRepresentative(between.db, between.req, Exact, a);
    }
  }

  /** With exact arithmetic and the documents' order, the rules are all that is left. */
  lemma ExactMeets(db: Db, req: Request)
    requires ValidDb(db) && RulesMeet(db, req)
    ensures Winner(db, req, DOCUMENTED_ORDER) == DocumentedWinner(db, req)
  {
    RulesExactly(db, req, Exact);
    RepresentativesDecide(View(db, req, Exact), DocumentView(db, req), ByAdsId);
  }

  /** Go's winner is the documented one: at the prices the ads have, exactly when Go upholds the
      documents' winner; at every price, exactly when the rules meet and the arithmetic keeps the
      order; and so wherever the rules meet and every difference has a double of its own. */
  lemma GoMeetsTheDocument(db: Db, req: Request)
    requires ValidDb(db)
    ensures Winner(db, req, GO_RULES) == DocumentedWinner(db, req)
      <==> Upholds(GoView(db, req), DocumentView(db, req), ByAdsId)
    ensures AllFit(db, req, Float64Of64Bit) ==>
      (SameAtEveryPrice(GoView(db, req), DocumentView(db, req), ByAdsId) <==>
        RulesMeet(db, req) && OrderKeptFor(DocumentTables(db), DocumentRequest(req), Float64Of64Bit))
    ensures InReach(db, req, Float64Of64Bit) && RulesMeet(db, req) ==>
      Winner(db, req, GO_RULES) == DocumentedWinner(db, req)
  {
    SameHere(GoView(db, req), DocumentView(db, req), ByAdsId);
    SameAtAllPrices(GoView(db, req), DocumentView(db, req), ByAdsId);
    if AllFit(db, req, Float64Of64Bit) {
      GoRepresentatives(db, req);
    }
    if InReach(db, req, Float64Of64Bit) && RulesMeet(db, req) {
      MetricsAgree(db, req, Float64Of64Bit, ByAdsId);
      ExactMeets(db, req);
    }
  }

  // ---------- C++ ----------

  /** `w`'s ad of lowest ads id at the top price represents its advertiser in `v` too, nobody there
      outbids it, and nobody at its price has a lower advertiser id; and where `w` has nobody, nor
      has `v`. */
  ghost predicate UpholdsTop(v: View, w: View) {
    && (forall x :: LowestTop(w.db, w.req, w.metric, x) ==>
        Represents(v, x) && forall r :: Represents(v, r) ==>
          r.price < x.price || (r.price == x.price && x.advertiserId <= r.advertiserId))
    && ((forall r :: !Represents(w, r)) ==> forall r :: !Represents(v, r))
  }

  lemma LowestTopIsFirst(w: View, x: Ads)
    requires ValidDb(w.db)
    ensures LowestTop(w.db, w.req, w.metric, x) <==> IsFirst(w, ByAdsId, x)
  {
    WinsIs(w, ByAdsId, x);
    if IsFirst(w, ByAdsId, x) {
      WinnerIsTop(w.db, w.req, Rules(w.metric, ByAdsId), x);
    }
    if LowestTop(w.db, w.req, w.metric, x) {
      forall r | Represents(w, r) && r != x ensures Before(ByAdsId, x, r) {
        if r.price == x.price {
          assert Top(w.db, w.req, w.metric, r);
          if r.adsId == x.adsId {
            SameIdSameAd(w.db, r, x);
          }
        }
      }
    }
  }

  /** Ordered by advertiser id, `v` has `w`'s winner by ads id exactly when it upholds its top. */
  lemma SameTopHere(v: View, w: View)
    requires ValidDb(v.db) && ValidDb(w.db)
    ensures Wins(v, ByAdvertiserId) == Wins(w, ByAdsId) <==> UpholdsTop(v, w)
  {
    SomeWins(v, ByAdvertiserId);
    SomeWins(w, ByAdsId);
    forall y ensures LowestTop(w.db, w.req, w.metric, y) <==> Wins(w, ByAdsId) == Some(y) {
      LowestTopIsFirst(w, y);
      WinsIs(w, ByAdsId, y);
    }
    if Wins(w, ByAdsId).Some? {
      var x := Wins(w, ByAdsId).value;
      WinsIs(v, ByAdvertiserId, x);
      if UpholdsTop(v, w) {
        forall r | Represents(v, r) && r != x ensures Before(ByAdvertiserId, x, r) {
          if r.advertiserId == x.advertiserId {
            RepresentativeUnique(v.db, v.req, v.metric, r, x);
          }
        }
      }
    }
  }

  /** C++'s winner is the documented one exactly when it upholds the documents' top. Where the rules
      meet and the difference fits, it always has a winner when the documents have one, and at the
      same price; and it is theirs exactly when the lowest ids at the top price belong together. */
  lemma CppMeetsTheDocument(db: Db, req: Request)
    requires ValidDb(db)
    ensures Winner(db, req, CPP_RULES) == DocumentedWinner(db, req)
      <==> UpholdsTop(CppView(db, req), DocumentView(db, req))
    ensures InReach(db, req, Wrapped32Bit) && RulesMeet(db, req) ==>
      var v, w := Winner(db, req, CPP_RULES), DocumentedWinner(db, req);
      && (v.Some? <==> w.Some?)
      && (v.Some? && w.Some? ==> v.value.price == w.value.price)
      && (v == w <==> TopIdsMeet(db, req, Exact))
  {
    SameTopHere(CppView(db, req), DocumentView(db, req));
    if InReach(db, req, Wrapped32Bit) && RulesMeet(db, req) {
      MetricsAgree(db, req, Wrapped32Bit, ByAdvertiserId);
      TieBreaksAgreeHere(db, req, Exact);
      ExactMeets(db, req);
    }
  }

  /** Which they always do on tables whose ties are ordered. */
  lemma OrderedTiesMeet(db: Db, req: Request)
    requires ValidDb(db) && TiesOrdered(db)
    ensures TopIdsMeet(db, req, Exact)
  {
    TieBreaksAgree(db, req, Exact);
    TieBreaksAgreeHere(db, req, Exact);
  }

  // ---------- Python ----------

  lemma NonZeroInReach(db: Db, req: Request, m: Metric)
    requires InReach(db, req, m)
    ensures InReach(NonZeroFeatures(db), req, m)
  {
    forall a ensures Contender(NonZeroFeatures(db), req, a) ==> Contender(db, req, a) {}
  }

  lemma ReachedRepresentatives(db: Db, req: Request, m: Metric)
    requires InReach(db, req, m)
    ensures SameRepresentatives(View(db, req, m), View(db, req, Exact))
  {
    forall a | Contender(db, req, a)
      ensures Distance(m, db.features[a.adsId], req.feature) == Distance(Exact, db.features[a.adsId], req.feature)
    {
      DistanceIsTrue(m, db.features[a.adsId], req.feature);
    }
    forall a, b | Contender(db, req, a) && Contender(db, req, b)
      ensures AtLeastAsNear(db, req, m, a, b) == AtLeastAsNear(db, req, Exact, a, b) {}
    forall a ensures Represents(View(db, req, m), a) <==> Represents(View(db, req, Exact), a) {}
  }

  lemma NonZeroTables(db: Db)
    ensures DocumentTables(NonZeroFeatures(db)) == NonZeroFeatures(DocumentTables(db))
  {
    forall k ensures Unlisted(NonZeroFeatures(db), k) == Unlisted(db, k) {}
  }

  /** In reach, Python's representatives are the documents' exactly when the rules meet on the ads it
      sees and no documented representative has feature 0. */
  lemma PythonRepresentatives(db: Db, req: Request)
    requires ValidDb(db) && InReach(db, req, ClampedAtMaxsize)
    ensures SameRepresentatives(PythonView(db, req), DocumentView(db, req)) <==>
      RulesMeet(NonZeroFeatures(db), req) && NoZeroRepresentative(DocumentTables(db), DocumentRequest(req), Exact)
  {
    var nz := NonZeroFeatures(db);
    var seen, documented := View(nz, req, Exact), View(DocumentTables(nz), DocumentRequest(req), Exact);
    NonZeroInReach(db, req, ClampedAtMaxsize);
    ReachedRepresentatives(nz, req, ClampedAtMaxsize);
    RulesExactly(nz, req, Exact);
    NonZeroTables(db);
    ZeroFeaturesMatterExactly(DocumentTables(db), DocumentRequest(req), Exact);
    SameFor(DocumentView(db, req), documented);
    assert forall a :: Represents(PythonView(db, req), a) <==> Represents(seen, a);
    if SameRepresentatives(PythonView(db, req), DocumentView(db, req)) {
      forall a | IsRepresentative(DocumentTables(db), DocumentRequest(req), Exact, a)
        ensures db.features[a.adsId] != 0
      {
        assert Represents(DocumentView(db, req), a);
        assert Represents(seen, a);
      }
      assert forall a :: Represents(seen, a) <==> Represents(documented, a);
    }
    if SameRepresentatives(seen, documented) && SameRepresentatives(DocumentView(db, req), documented) {
      assert forall a :: Represents(PythonView(db, req), a) <==> Represents(DocumentView(db, req), a);
    }
  }

  /** Python's winner is the documented one: at the prices the ads have, exactly when Python upholds
      the documents' winner; in reach, at every price, exactly when the rules meet and no documented
      representative has feature 0; and where the rules meet on all ads, at the prices they have,
      exactly when the zero features spare the winner. */
  lemma PythonMeetsTheDocument(db: Db, req: Request)
    requires ValidDb(db)
    ensures Winner(NonZeroFeatures(db), req, PYTHON_RULES) == DocumentedWinner(db, req)
      <==> Upholds(PythonView(db, req), DocumentView(db, req), ByAdsId)
    ensures InReach(db, req, ClampedAtMaxsize) ==>
      (SameAtEveryPrice(PythonView(db, req), DocumentView(db, req), ByAdsId) <==>
        RulesMeet(NonZeroFeatures(db), req) && NoZeroRepresentative(DocumentTables(db), DocumentRequest(req), Exact))
    ensures InReach(db, req, ClampedAtMaxsize) && RulesMeet(db, req) ==>
      (Winner(NonZeroFeatures(db), req, PYTHON_RULES) == DocumentedWinner(db, req) <==>
        ZerosSpareWinner(db, req, DOCUMENTED_ORDER))
  {
    SameHere(PythonView(db, req), DocumentView(db, req), ByAdsId);
    SameAtAllPrices(PythonView(db, req), DocumentView(db, req), ByAdsId);
    if InReach(db, req, ClampedAtMaxsize) {
      PythonRepresentatives(db, req);
      if RulesMeet(db, req) {
        NonZeroInReach(db, req, ClampedAtMaxsize);
        MetricsAgree(NonZeroFeatures(db), req, ClampedAtMaxsize, ByAdsId);
        ZeroFeaturesHere(db, req, DOCUMENTED_ORDER);
        ExactMeets(db, req);
      }
    }
  }

  /** In particular when no ad within reach of a request has feature 0. */
  lemma NoZerosSpareWinner(db: Db, req: Request)
    requires ValidDb(db) && forall a :: !ZeroWithinReach(db, a)
    ensures ZerosSpareWinner(db, req, DOCUMENTED_ORDER)
  {
    ZeroFeaturesInTables(db);
    assert NoZeroRepresentative(db, req, Exact);
    ZeroFeaturesMatterExactly(db, req, Exact);
  }

  // ---------- where they part ----------

  /** Neither rule has anything to differ about. */
  lemma PlainRulesMeet(db: Db, req: Request)
    requires "" !in req.blockDomains && forall k :: !Unlisted(db, k)
    ensures RulesMeet(db, req)
  {
  }

  /** Two ads of one price whose ids run against their advertisers': C++ picks the other one. */
  lemma CppBreaksTiesOtherwise() returns (db: Db, req: Request, a: Ads, b: Ads)
    ensures ValidDb(db) && db.adses == [a, b] && RulesMeet(db, req) && forall m :: InReach(db, req, m)
    ensures DocumentedWinner(db, req) == Some(a) && Winner(db, req, CPP_RULES) == Some(b)
  {
    a, b := Ads(1, 2, 50000, "a", 1), Ads(2, 1, 50000, "b", 1);
    db := Db([a, b], map[1 := AdSize(200, 300)], map[1 := Advertiser(DENY, "x.com"), 2 := Advertiser(DENY, "y.com")],
      map[], map[1 := 10, 2 := 10]);
    req := Request("r", [], 0, 200, 300, []);
    assert forall k :: k in db.advertisers ==> Eligible(db, req, k);
    forall m: Metric ensures IsRepresentative(db, req, m, a) && IsRepresentative(db, req, m, b) {
      assert Contender(db, req, a) && Contender(db, req, b);
    }
    LevelAtTheTop(db, req, Exact, b, a);
    LevelAtTheTop(db, req, Wrapped32Bit, b, a);
    PlainRulesMeet(db, req);
    ExactMeets(db, req);
  }

  /** One ad, of feature 0: Python lets it go. */
  lemma PythonLosesZero() returns (db: Db, req: Request, w: Ads)
    ensures ValidDb(db) && db.adses == [w] && RulesMeet(db, req) && forall m :: InReach(db, req, m)
    ensures DocumentedWinner(db, req) == Some(w) && Winner(NonZeroFeatures(db), req, PYTHON_RULES) == None
  {
    w := Ads(1, 1, 50000, "a", 1);
    db := Db([w], map[1 := AdSize(200, 300)], map[1 := Advertiser(DENY, "x.com")], map[], map[1 := 0]);
    req := Request("r", [], 0, 200, 300, []);
    assert Contender(db, req, w) && Eligible(db, req, 1);
    assert IsWinner(db, req, DOCUMENTED_ORDER, w);
    WinnerIs(db, req, DOCUMENTED_ORDER, w);
    WinnerExists(NonZeroFeatures(db), req, PYTHON_RULES);
    PlainRulesMeet(db, req);
    ExactMeets(db, req);
  }

  // ---------- all three on one database ----------

  /** No two ads have the same text, so a response tells which ad won. */
  predicate DistinctTexts(db: Db) {
    forall i, j :: 0 <= i < j < |db.adses| ==> db.adses[i].adsTxt != db.adses[j].adsTxt
  }

  lemma ResponsesTellApart(db: Db, req: Request, v: Option<Ads>, w: Option<Ads>)
    requires v.Some? ==> v.value in db.adses
    requires w.Some? ==> w.value in db.adses
    ensures v == w ==> Respond(req, v) == Respond(req, w)
    ensures DistinctTexts(db) && Respond(req, v) == Respond(req, w) ==> v == w
  {
    if v.Some? && w.Some? && DistinctTexts(db) && v.value.adsTxt == w.value.adsTxt {
      var i :| 0 <= i < |db.adses| && db.adses[i] == v.value;
      var j :| 0 <= j < |db.adses| && db.adses[j] == w.value;
      assert i == j;
    }
  }

  lemma WinnerListed(v: View, tie: TieBreak)
    requires ValidDb(v.db)
    ensures Wins(v, tie).Some? ==> Wins(v, tie).value in v.db.adses
  {
    SomeWins(v, tie);
  }

  /** The response is the documents' where it upholds their winner, and only there if the ads' texts
      tell them apart. */
  ghost predicate Responds(db: Db, req: Request, response: Option<Response>, upheld: bool) {
    var documented := Respond(req, DocumentedWinner(db, req));
    (upheld ==> response == documented) && (DistinctTexts(db) && response == documented ==> upheld)
  }

  /** It is there when the documents' is, and at the same price. */
  ghost predicate BidsAlike(db: Db, req: Request, response: Option<Response>) {
    var documented := Respond(req, DocumentedWinner(db, req));
    (response.Some? <==> documented.Some?) &&
    (response.Some? && documented.Some? ==> response.value.price == documented.value.price)
  }

  lemma WinnerResponds(db: Db, req: Request, v: View, tie: TieBreak)
    requires ValidDb(db) && ValidDb(v.db) && v.db.adses == db.adses
    ensures Responds(db, req, Respond(req, Wins(v, tie)), Wins(v, tie) == DocumentedWinner(db, req))
  {
    WinnerListed(v, tie);
    WinnerListed(DocumentView(db, req), ByAdsId);
    ResponsesTellApart(db, req, Wins(v, tie), DocumentedWinner(db, req));
  }

  /** Who fails, and who gives the documented response. */
  method AskAll(db: Db, req: Request)
    returns (go: Option<Response>, cpp: CppAuction.Outcome, python: PythonAuction.Outcome)
    requires ValidDb(db)
    ensures Responds(db, req, go, Upholds(GoView(db, req), DocumentView(db, req), ByAdsId))
    ensures InReach(db, req, Float64Of64Bit) && RulesMeet(db, req) ==> go == Respond(req, DocumentedWinner(db, req))
    ensures cpp.Aborted? <==> exists a :: CppAuction.Undecidable(db, req, a)
    ensures cpp.Finished? ==> Responds(db, req, cpp.response, UpholdsTop(CppView(db, req), DocumentView(db, req)))
    ensures cpp.Finished? && InReach(db, req, Wrapped32Bit) && RulesMeet(db, req) ==>
      BidsAlike(db, req, cpp.response) && Responds(db, req, cpp.response, TopIdsMeet(db, req, Exact))
    ensures python.Raised? <==> exists a :: PythonAuction.BadType(db, req, a) || PythonAuction.NoFeatureRow(db, req, a)
    ensures python.Finished? ==>
      Responds(db, req, python.response, Upholds(PythonView(db, req), DocumentView(db, req), ByAdsId))
    ensures python.Finished? && InReach(db, req, ClampedAtMaxsize) && RulesMeet(db, req) ==>
      Responds(db, req, python.response, ZerosSpareWinner(db, req, DOCUMENTED_ORDER))
  {
    go := GoAuction.Auction(db, req);
    cpp := CppAuction.Auction(db, req);
    python := PythonAuction.Auction(db, req);
    GoMeetsTheDocument(db, req);
    CppMeetsTheDocument(db, req);
    PythonMeetsTheDocument(db, req);
    WinnerResponds(db, req, GoView(db, req), ByAdsId);
    WinnerResponds(db, req, CppView(db, req), ByAdvertiserId);
    WinnerResponds(db, req, PythonView(db, req), ByAdsId);
  }

  // ---------- on generated tables ----------

  /** The generator's tables suit every auction: their ties are ordered, every advertiser has
      categories, and the documented zone features are in every reach. */
  lemma GeneratedSuits(db: Db, coff: nat, req: Request)
    requires Generated(db, coff)
    ensures ValidDb(db) && TiesOrdered(db) && forall k :: !Unlisted(db, k)
    ensures Documented(req.feature) ==> forall m :: InReach(db, req, m)
  {
    GeneratedTables(db, coff);
    forall a, b | a in db.adses && b in db.adses && a.advertiserId < b.advertiserId ensures a.adsId < b.adsId {
      IdsFollowAdvertisers(db, coff, a, b);
    }
    if Documented(req.feature) {
      forall m, a | Contender(db, req, a)
        ensures Fits(m, db.features[a.adsId], req.feature) && Reaches(m, db.features[a.adsId], req.feature)
      {
        DocumentedInReach(m, db.features[a.adsId], req.feature);
      }
    }
    forall k | k in db.advertisers ensures HasCategories(db, k) {
      assert AdvertiserMade(db, k);
    }
  }

  /** On them neither C++ nor Python fails. */
  lemma GeneratedNeverFails(db: Db, coff: nat, req: Request)
    requires Generated(db, coff)
    ensures forall a :: !CppAuction.Undecidable(db, req, a)
    ensures forall a :: !PythonAuction.BadType(db, req, a) && !PythonAuction.NoFeatureRow(db, req, a)
  {
    forall a | a in db.adses
      ensures a.adsId in db.features
      ensures a.advertiserId in db.advertisers && db.advertisers[a.advertiserId].blockingType <= 1
    {
      LookupsSucceed(db, coff, a);
    }
  }

  /** Generate the tables, then ask all three: none fails, and to a request without empty block
      strings Go, C++ and, unless a feature is 0, Python give the documented response. An empty
      block string silences them all. */
  method GenerateAndServe(coff: nat, req: Request)
    returns (db: Db, go: Option<Response>, cpp: CppAuction.Outcome, python: PythonAuction.Outcome)
    requires Documented(req.feature)
    ensures Generated(db, coff)
    ensures go == if "" in req.blockDomains then None else Respond(req, DocumentedWinner(db, req))
    ensures cpp == CppAuction.Finished(go)
    ensures python.Finished? && ((forall id :: id in db.features ==> db.features[id] != 0) ==> python.response == go)
  {
    db := Generate(coff);
    GeneratedSuits(db, coff, req);
    GeneratedNeverFails(db, coff, req);
    OrderedTiesMeet(db, req);
    if "" in req.blockDomains {
      EmptyBlockString(db, req, GO_RULES);
      EmptyBlockString(db, req, CPP_RULES);
      EmptyBlockString(NonZeroFeatures(db), req, PYTHON_RULES);
      go := GoAuction.Auction(db, req);
      cpp := CppAuction.Auction(db, req);
      python := PythonAuction.Auction(db, req);
    } else {
      PlainRulesMeet(db, req);
      go, cpp, python := AskAll(db, req);
      if forall id :: id in db.features ==> db.features[id] != 0 {
        NoZerosSpareWinner(db, req);
      }
    }
  }

  lemma AdsGenerated(db: Db, coff: nat)
    requires Generated(db, coff) && coff > 0
    ensures db.adses != []
  {
    var sums := GeneratedShape(db, coff);
    SumsIncrease(sums, coff, 1, |sums| - 1);
  }

  /** A request of documented feature that the first ad of generated tables can serve. */
  lemma SomethingServed(db: Db, coff: nat) returns (req: Request)
    requires Generated(db, coff) && coff > 0
    ensures Documented(req.feature) && req.blockDomains == []
    ensures forall rules :: Winner(db, req, rules).Some?
    ensures DocumentedWinner(db, req).Some?
  {
    AdsGenerated(db, coff);
    var a := db.adses[0];
    LookupsSucceed(db, coff, a);
    req := RequestFor(db, a, 0);
    RequestForServes(db, a, 0);
    GeneratedSuits(db, coff, req);
    forall rules ensures Winner(db, req, rules).Some? {
      WinnerExists(db, req, rules);
    }
    PlainRulesMeet(db, req);
    ExactMeets(db, req);
  }

  /** Whatever was drawn, some request with an empty block string has a documented winner, and none
      of the programs sees it. */
  lemma EmptyStringOnGenerated(db: Db, coff: nat) returns (req: Request)
    requires Generated(db, coff) && coff > 0
    ensures Documented(req.feature) && DocumentedWinner(db, req).Some?
    ensures forall rules :: Winner(db, req, rules) == None
  {
    var served := SomethingServed(db, coff);
    req := served.(blockDomains := [""]);
    GeneratedTables(db, coff);
    assert Without([""], [""]) == Without([], [""]) == [];
    assert DocumentRequest(req) == DocumentRequest(served);
    forall rules ensures Winner(db, req, rules) == None {
      EmptyBlockString(db, req, rules);
    }
  }

  /** The same tables with every feature 0. */
  function AllZero(db: Db): Db {
    db.(features := map id | id in db.features :: 0)
  }

  /** Whatever was drawn, the features could all have been 0, and then there are requests for
      which the document and Go have a winner and Python has none. */
  lemma PythonSilentOnGenerated(db: Db, coff: nat) returns (req: Request)
    requires Generated(db, coff) && coff > 0
    ensures Generated(AllZero(db), coff)
    ensures DocumentedWinner(AllZero(db), req).Some? && Winner(AllZero(db), req, GO_RULES).Some?
    ensures Winner(NonZeroFeatures(AllZero(db)), req, PYTHON_RULES) == None
  {
    var zero := AllZero(db);
    FeaturesAreFree(db, coff, zero.features);
    req := SomethingServed(zero, coff);
    GeneratedTables(zero, coff);
    assert NonZeroFeatures(zero).features == map[];
    WinnerExists(NonZeroFeatures(zero), req, PYTHON_RULES);
  }
}
