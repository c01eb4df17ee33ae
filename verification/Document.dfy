// The rules as the documents give them, and where the programs' own rules, which are the same in
// all three, depart from them: on domains, on categories, and on who wins.

module Document {
  import opened Wrappers
  import opened Database
  import opened Metrics
  import opened AuctionSpec
  import opened Views
  import opened AuctionLaws

  // ---------- the documents' rules ----------

  /** Substrings are never empty. */
  predicate DocumentedDomainBlocked(domain: string, blockDomains: seq<string>) {
    exists d | d in blockDomains :: d != "" && Contains(domain, d)
  }

  function CategoriesOf(db: Db, k: nat): seq<nat> {
    if k in db.categories then db.categories[k] else []
  }

  /** Categories block by the intersection alone, whether or not the advertiser has any. */
  predicate DocumentedEligible(db: Db, req: Request, k: nat) {
    && k in db.advertisers
    && !DocumentedDomainBlocked(db.advertisers[k].domain, req.blockDomains)
    && !CategoryBlocked(db.advertisers[k].blockingType, CategoriesOf(db, k), req.categoryIds)
  }

  ghost predicate DocumentedRepresentative(db: Db, req: Request, a: Ads) {
    && Contender(db, req, a) && DocumentedEligible(db, req, a.advertiserId)
    && forall b :: Contender(db, req, b) && b.advertiserId == a.advertiserId ==> AtLeastAsNear(db, req, Exact, a, b)
  }

  // ---------- the same rules, read by the programs ----------

  /** Allowed to serve what it names, and naming nothing. */
  predicate Unlisted(db: Db, k: nat) {
    k in db.advertisers && db.advertisers[k].blockingType == ALLOW && !HasCategories(db, k)
  }

  function DocumentTables(db: Db): Db {
    db.(advertisers := map k | k in db.advertisers && !Unlisted(db, k) :: db.advertisers[k])
  }

  function DocumentRequest(req: Request): Request {
    req.(blockDomains := Without(req.blockDomains, [""]))
  }

  function DocumentView(db: Db, req: Request): View {
    View(DocumentTables(db), DocumentRequest(req), Exact)
  }

  /** Who wins according to the documents. */
  ghost function DocumentedWinner(db: Db, req: Request): Option<Ads> {
    Wins(DocumentView(db, req), ByAdsId)
  }

  lemma DocumentedBlocks(domain: string, blockDomains: seq<string>)
    ensures DomainBlocked(domain, Without(blockDomains, [""])) <==> DocumentedDomainBlocked(domain, blockDomains)
  {
  }

  lemma DocumentedEligibility(db: Db, req: Request, k: nat)
    ensures Eligible(DocumentTables(db), DocumentRequest(req), k) <==> DocumentedEligible(db, req, k)
  {
    if k in db.advertisers {
      DocumentedBlocks(db.advertisers[k].domain, req.blockDomains);
      assert !HasCategories(db, k) ==> !Intersects(CategoriesOf(db, k), req.categoryIds);
      assert HasCategories(DocumentTables(db), k) == HasCategories(db, k);
    }
  }

  lemma SameContenders(db: Db, req: Request, m: Metric)
    ensures forall a :: Contender(DocumentTables(db), DocumentRequest(req), a) <==> Contender(db, req, a)
    ensures forall a, b | Contender(db, req, a) && Contender(db, req, b) ::
      AtLeastAsNear(DocumentTables(db), DocumentRequest(req), m, a, b) <==> AtLeastAsNear(db, req, m, a, b)
  {
  }

  /** The view's representatives and winner are the documents'. */
  lemma DocumentViewExactly(db: Db, req: Request)
    ensures forall a :: Represents(DocumentView(db, req), a) <==> DocumentedRepresentative(db, req, a)
    ensures forall w :: DocumentedWinner(db, req) == Some(w) <==>
      DocumentedRepresentative(db, req, w) &&
      forall r :: DocumentedRepresentative(db, req, r) && r != w ==> Before(ByAdsId, w, r)
  {
    SameContenders(db, req, Exact);
    forall a ensures Represents(DocumentView(db, req), a) <==> DocumentedRepresentative(db, req, a) {
      DocumentedEligibility(db, req, a.advertiserId);
    }
    forall w ensures DocumentedWinner(db, req) == Some(w) <==>
      DocumentedRepresentative(db, req, w) &&
      forall r :: DocumentedRepresentative(db, req, r) && r != w ==> Before(ByAdsId, w, r)
    {
      WinsIs(DocumentView(db, req), ByAdsId, w);
    }
  }

  // ---------- domains ----------

  /** The two rules differ exactly for an empty block string and a domain blocked by no other. */
  lemma DomainRuleVersusDocument(domain: string, blockDomains: seq<string>)
    ensures DomainBlocked(domain, blockDomains) == DocumentedDomainBlocked(domain, blockDomains) <==>
      "" !in blockDomains || DocumentedDomainBlocked(domain, blockDomains)
  {
    ContainsItself(domain);
  }

  /** And the winners differ exactly for an empty block string in a request the document lets
      somebody win. */
  lemma EmptyBlockStringExactly(db: Db, req: Request, rules: Rules)
    requires ValidDb(db)
    ensures Winner(db, req, rules) == Winner(db, DocumentRequest(req), rules) <==>
      "" !in req.blockDomains || Winner(db, DocumentRequest(req), rules) == None
  {
    if "" in req.blockDomains {
      EmptyBlockString(db, req, rules);
    } else {
      forall d: string ensures Contains(d, d) {
        ContainsItself(d);
      }
      ListsAreSets(db, req, DocumentRequest(req), rules);
    }
  }

  // ---------- categories ----------

  /** The two rules differ exactly for an ALLOW advertiser without category rows. */
  lemma CategoryRuleVersusDocument(db: Db, req: Request, k: nat)
    requires k in db.advertisers
    ensures CategoryOk(db, req, k) ==
        !CategoryBlocked(db.advertisers[k].blockingType, CategoriesOf(db, k), req.categoryIds)
      <==> !Unlisted(db, k)
  {
    assert !Intersects([], req.categoryIds);
  }

  lemma ListedEligible(db: Db, req: Request, k: nat)
    ensures Eligible(DocumentTables(db), req, k) <==> Eligible(db, req, k) && !Unlisted(db, k)
  {
  }

  /** Without the unlisted advertisers the others are represented as before. */
  lemma ListedRepresentatives(db: Db, req: Request, m: Metric, a: Ads)
    ensures IsRepresentative(DocumentTables(db), req, m, a) <==>
      IsRepresentative(db, req, m, a) && !Unlisted(db, a.advertiserId)
  {
    ListedEligible(db, req, a.advertiserId);
    forall b ensures Contender(DocumentTables(db), req, b) <==> Contender(db, req, b) {}
    forall a, b | Contender(db, req, a) && Contender(db, req, b)
      ensures AtLeastAsNear(DocumentTables(db), req, m, a, b) <==> AtLeastAsNear(db, req, m, a, b) {}
  }

  /** The category rule changes the winner at no price exactly when no representative belongs to
      an unlisted advertiser. */
  lemma CategoryAtAllPrices(db: Db, req: Request, m: Metric, tie: TieBreak)
    requires ValidDb(db)
    ensures SameAtEveryPrice(View(db, req, m), View(DocumentTables(db), req, m), tie) <==>
      forall a :: IsRepresentative(db, req, m, a) ==> !Unlisted(db, a.advertiserId)
  {
    var v, w := View(db, req, m), View(DocumentTables(db), req, m);
    SameAtAllPrices(v, w, tie);
    forall a ensures Represents(w, a) <==> Represents(v, a) && !Unlisted(db, a.advertiserId) {
      ListedRepresentatives(db, req, m, a);
    }
    assert forall a :: Represents(v, a) <==> IsRepresentative(db, req, m, a);
  }

  /** At the tables' own prices it leaves the winner exactly when that is not one of an unlisted
      advertiser. */
  lemma CategoryHere(db: Db, req: Request, rules: Rules)
    requires ValidDb(db)
    ensures Winner(DocumentTables(db), req, rules) == Winner(db, req, rules) <==>
      forall w :: IsWinner(db, req, rules, w) ==> !Unlisted(db, w.advertiserId)
  {
    forall a ensures IsRepresentative(DocumentTables(db), req, rules.metric, a) <==>
      IsRepresentative(db, req, rules.metric, a) && !Unlisted(db, a.advertiserId)
    {
      ListedRepresentatives(db, req, rules.metric, a);
    }
    SomeWinner(db, req, rules);
    SomeWinner(DocumentTables(db), req, rules);
    if Winner(db, req, rules).Some? {
      var w := Winner(db, req, rules).value;
      WinnerIs(DocumentTables(db), req, rules, w);
      forall x | IsWinner(db, req, rules, x) ensures x == w {
        WinnerUnique(db, req, rules, x, w);
      }
    } else {
      assert forall w :: !IsWinner(db, req, rules, w);
    }
  }

  /** An ad that some request can bring to the auction, of an advertiser the document never serves. */
  predicate UnlistedWithinReach(db: Db, a: Ads) {
    a in db.adses && a.sizeId in db.sizes && a.adsId in db.features && Unlisted(db, a.advertiserId)
  }

  /** No request shows the category rule exactly when no ad that can serve one belongs to an
      unlisted advertiser. */
  lemma CategoryInTables(db: Db, m: Metric)
    requires ValidDb(db)
    ensures (forall a :: !UnlistedWithinReach(db, a)) <==>
      forall req, a :: IsRepresentative(db, req, m, a) ==> !Unlisted(db, a.advertiserId)
  {
    if a :| UnlistedWithinReach(db, a) {
      var req := RequestFor(db, a, 0);
      RequestForServes(db, a, 0);
      var r := RepresentativeExists(db, req, m, a);
      assert IsRepresentative(db, req, m, r) && Unlisted(db, r.advertiserId);
    } else {
      forall req, a | IsRepresentative(db, req, m, a) ensures !Unlisted(db, a.advertiserId) {
        assert !UnlistedWithinReach(db, a);
      }
    }
  }

  // ---------- both together ----------

  /** The request and the tables give the two rules nothing to differ about: an empty block string
      blocks nobody the documents let win, and no unlisted advertiser could serve. */
  ghost predicate RulesMeet(db: Db, req: Request) {
    && ("" in req.blockDomains ==> forall a :: !DocumentedRepresentative(db, req, a))
    && forall a :: Contender(db, req, a) && Eligible(db, req, a.advertiserId) ==> !Unlisted(db, a.advertiserId)
  }

  lemma EligibleBothWays(db: Db, req: Request, k: nat)
    ensures Eligible(db, req, k) ==> "" !in req.blockDomains
    ensures "" !in req.blockDomains ==> (DocumentedEligible(db, req, k) <==> Eligible(db, req, k) && !Unlisted(db, k))
  {
    if k in db.advertisers {
      ContainsItself(db.advertisers[k].domain);
      DomainRuleVersusDocument(db.advertisers[k].domain, req.blockDomains);
      CategoryRuleVersusDocument(db, req, k);
      if "" !in req.blockDomains && CategoryOk(db, req, k) {
        assert HasCategories(db, k) || CategoriesOf(db, k) == [];
      }
    }
  }

  lemma BothEligible(db: Db, req: Request, k: nat)
    ensures "" !in req.blockDomains ==>
      (Eligible(DocumentTables(db), DocumentRequest(req), k) <==> Eligible(db, req, k) && !Unlisted(db, k))
  {
    EligibleBothWays(db, req, k);
    DocumentedEligibility(db, req, k);
  }

  /** A representative under the one metric means one under the other. */
  lemma SomebodyRepresents(db: Db, req: Request, m: Metric)
    requires ValidDb(db)
    ensures (exists a :: IsRepresentative(DocumentTables(db), DocumentRequest(req), m, a)) <==>
      exists a :: DocumentedRepresentative(db, req, a)
  {
    DocumentViewExactly(db, req);
    if a :| IsRepresentative(DocumentTables(db), DocumentRequest(req), m, a) {
      var r := RepresentativeExists(DocumentTables(db), DocumentRequest(req), Exact, a);
      assert Represents(DocumentView(db, req), r);
    }
    if a :| DocumentedRepresentative(db, req, a) {
      assert Represents(DocumentView(db, req), a);
      var r := RepresentativeExists(DocumentTables(db), DocumentRequest(req), m, a);
    }
  }

  /** Under one metric, the representatives are the documents' exactly when the rules meet. */
  lemma RulesExactly(db: Db, req: Request, m: Metric)
    requires ValidDb(db)
    ensures SameRepresentatives(View(db, req, m), View(DocumentTables(db), DocumentRequest(req), m))
      <==> RulesMeet(db, req)
  {
    var v, w := View(db, req, m), View(DocumentTables(db), DocumentRequest(req), m);
    SomebodyRepresents(db, req, m);
    if "" in req.blockDomains {
      forall k ensures !Eligible(db, req, k) {
        EligibleBothWays(db, req, k);
      }
      assert forall a :: !Represents(v, a);
      forall a ensures Represents(w, a) <==> IsRepresentative(DocumentTables(db), DocumentRequest(req), m, a) {}
    } else {
      SameContenders(db, req, m);
      forall a ensures Represents(w, a) <==> Represents(v, a) && !Unlisted(db, a.advertiserId) {
        BothEligible(db, req, a.advertiserId);
      }
      if SameRepresentatives(v, w) {
        forall a | Contender(db, req, a) && Eligible(db, req, a.advertiserId) ensures !Unlisted(db, a.advertiserId) {
          var r := RepresentativeExists(db, req, m, a);
          assert Represents(v, r) && Represents(w, r);
        }
      }
    }
  }

  // ---------- where they part ----------

  /** A request with an empty block string: the documents let an ad win, the programs none. */
  lemma EmptyStringBlocksAll() returns (db: Db, req: Request, w: Ads)
    ensures ValidDb(db) && db.adses == [w] && forall k :: !Unlisted(db, k)
    ensures DocumentedWinner(db, req) == Some(w) && forall rules :: Winner(db, req, rules) == None
  {
    w := Ads(1, 1, 50000, "a", 1);
    db := Db([w], map[1 := AdSize(200, 300)], map[1 := Advertiser(DENY, "x.com")], map[], map[1 := 10]);
    req := Request("r", [], 0, 200, 300, [""]);
    assert Contender(db, req, w) && DocumentedEligible(db, req, 1);
    DocumentViewExactly(db, req);
    assert DocumentedRepresentative(db, req, w);
    forall rules ensures Winner(db, req, rules) == None {
      EmptyBlockString(db, req, rules);
    }
  }

  /** An ALLOW advertiser without categories: the programs let its ad win, the documents none. */
  lemma UnlistedWins() returns (db: Db, req: Request, w: Ads)
    ensures ValidDb(db) && db.adses == [w] && "" !in req.blockDomains
    ensures DocumentedWinner(db, req) == None && forall rules :: Winner(db, req, rules) == Some(w)
  {
    w := Ads(1, 1, 50000, "a", 1);
    db := Db([w], map[1 := AdSize(200, 300)], map[1 := Advertiser(ALLOW, "x.com")], map[], map[1 := 10]);
    req := Request("r", [], 0, 200, 300, []);
    assert Contender(db, req, w) && Eligible(db, req, 1) && Unlisted(db, 1);
    forall rules: Rules ensures Winner(db, req, rules) == Some(w) {
      assert IsRepresentative(db, req, rules.metric, w);
      WinnerIs(db, req, rules, w);
    }
    DocumentViewExactly(db, req);
    forall a ensures !DocumentedRepresentative(db, req, a) {}
    SomeWins(DocumentView(db, req), ByAdsId);
  }
}
