// Two auctions compared: on tables, requests or metrics that differ, when do they choose the same
// winner, at the prices the ads have and at any others?

module Views {
  import opened Wrappers
  import opened Database
  import opened Metrics
  import opened AuctionSpec

  /** What an auction chooses its representatives by. */
  datatype View = View(db: Db, req: Request, metric: Metric)

  ghost predicate Represents(v: View, a: Ads) {
    IsRepresentative(v.db, v.req, v.metric, a)
  }

  ghost predicate IsFirst(v: View, tie: TieBreak, w: Ads) {
    IsWinner(v.db, v.req, Rules(v.metric, tie), w)
  }

  ghost function Wins(v: View, tie: TieBreak): Option<Ads> {
    Winner(v.db, v.req, Rules(v.metric, tie))
  }

  ghost predicate SameRepresentatives(v: View, w: View) {
    forall a :: Represents(v, a) <==> Represents(w, a)
  }

  /** A winner exists exactly when a representative does, and is one. */
  lemma SomeWinner(db: Db, req: Request, rules: Rules)
    requires ValidDb(db)
    ensures Winner(db, req, rules).Some? ==> IsWinner(db, req, rules, Winner(db, req, rules).value)
    ensures Winner(db, req, rules).None? ==> forall r :: !IsRepresentative(db, req, rules.metric, r)
  {
    WinnerExists(db, req, rules);
  }

  lemma WinsIs(v: View, tie: TieBreak, x: Ads)
    ensures Wins(v, tie) == Some(x) <==> IsFirst(v, tie, x)
    ensures IsFirst(v, tie, x) <==>
      Represents(v, x) && forall r :: Represents(v, r) && r != x ==> Before(tie, x, r)
  {
    WinnerIs(v.db, v.req, Rules(v.metric, tie), x);
    assert forall r :: Represents(v, r) <==> IsRepresentative(v.db, v.req, v.metric, r);
  }

  /** The representatives determine the winner. */
  lemma RepresentativesDecide(v: View, w: View, tie: TieBreak)
    requires SameRepresentatives(v, w)
    ensures Wins(v, tie) == Wins(w, tie)
  {
    forall x ensures Wins(v, tie) == Some(x) <==> Wins(w, tie) == Some(x) {
      WinsIs(v, tie, x);
      WinsIs(w, tie, x);
    }
    if Wins(v, tie).Some? {
      assert Wins(v, tie) == Some(Wins(v, tie).value);
    }
  }

  lemma SomeWins(v: View, tie: TieBreak)
    requires ValidDb(v.db)
    ensures Wins(v, tie).Some? ==> IsFirst(v, tie, Wins(v, tie).value)
    ensures Wins(v, tie).None? <==> forall r :: !Represents(v, r)
  {
    SomeWinner(v.db, v.req, Rules(v.metric, tie));
    if Wins(v, tie).Some? {
      assert Represents(v, Wins(v, tie).value);
    } else {
      forall r ensures !Represents(v, r) {
        assert !IsRepresentative(v.db, v.req, v.metric, r);
      }
    }
  }

  /** `w`'s winner represents its advertiser in `v` too, and beats every representative that `v`
      has besides; and where `w` has nobody, nor has `v`. */
  ghost predicate Upholds(v: View, w: View, tie: TieBreak) {
    && (forall x :: IsFirst(w, tie, x) ==>
        Represents(v, x) && forall r :: Represents(v, r) && !Represents(w, r) ==> Before(tie, x, r))
    && ((forall r :: !Represents(w, r)) ==> forall r :: !Represents(v, r))
  }

  /** At the prices the ads have, this is exactly when the winners are the same. */
  lemma SameHere(v: View, w: View, tie: TieBreak)
    requires ValidDb(v.db) && ValidDb(w.db)
    ensures Wins(v, tie) == Wins(w, tie) <==> Upholds(v, w, tie)
  {
    SomeWins(v, tie);
    SomeWins(w, tie);
    if Wins(w, tie).Some? {
      var x := Wins(w, tie).value;
      forall y ensures IsFirst(w, tie, y) <==> y == x {
        WinsIs(w, tie, y);
      }
      WinsIs(w, tie, x);
      WinsIs(v, tie, x);
    } else {
      forall y ensures !IsFirst(w, tie, y) {
        WinsIs(w, tie, y);
      }
    }
  }

  // ---------- other prices ----------

  function Repriced(prices: map<nat, int>, a: Ads): Ads {
    a.(price := if a.adsId in prices then prices[a.adsId] else 0)
  }

  /** The same ads at other prices; an unlisted ad costs nothing. */
  function Reprice(db: Db, prices: map<nat, int>): (db': Db)
    ensures ValidDb(db) ==> ValidDb(db')
  {
    db.(adses := seq(|db.adses|, i requires 0 <= i < |db.adses| => Repriced(prices, db.adses[i])))
  }

  function PricesOf(adses: seq<Ads>, n: nat): map<nat, int>
    requires n <= |adses|
  {
    if n == 0 then map[] else PricesOf(adses, n - 1)[adses[n - 1].adsId := adses[n - 1].price]
  }

  lemma {:induction false} PriceOf(db: Db, adses: seq<Ads>, n: nat, i: nat)
    requires ValidDb(db) && |adses| == |db.adses| && i < n <= |adses|
    requires forall i :: 0 <= i < |adses| ==> adses[i] == db.adses[i].(price := adses[i].price)
    ensures adses[i].adsId in PricesOf(adses, n) && PricesOf(adses, n)[adses[i].adsId] == adses[i].price
  {
    if i < n - 1 {
      PriceOf(db, adses, n - 1, i);
      assert db.adses[i].adsId != db.adses[n - 1].adsId;
    }
  }

  function Priced(v: View, prices: map<nat, int>): View {
    v.(db := Reprice(v.db, prices))
  }

  /** Whatever the ads cost, the same one wins. */
  ghost predicate SameAtEveryPrice(v: View, w: View, tie: TieBreak) {
    forall prices: map<nat, int> :: Wins(Priced(v, prices), tie) == Wins(Priced(w, prices), tie)
  }

  /** Any prices can be had so. */
  lemma EveryPricing(db: Db, adses: seq<Ads>) returns (prices: map<nat, int>)
    requires ValidDb(db) && |adses| == |db.adses|
    requires forall i :: 0 <= i < |adses| ==> adses[i] == db.adses[i].(price := adses[i].price)
    ensures Reprice(db, prices).adses == adses
  {
    prices := PricesOf(adses, |adses|);
    forall i | 0 <= i < |adses| ensures Reprice(db, prices).adses[i] == adses[i] {
      PriceOf(db, adses, |adses|, i);
    }
  }

  lemma RepricedMembers(db: Db, prices: map<nat, int>)
    ensures forall a :: a in db.adses ==> Repriced(prices, a) in Reprice(db, prices).adses
    ensures forall b :: b in Reprice(db, prices).adses ==> exists a :: a in db.adses && Repriced(prices, a) == b
  {
    var db' := Reprice(db, prices);
    forall a | a in db.adses ensures Repriced(prices, a) in db'.adses {
      var i :| 0 <= i < |db.adses| && db.adses[i] == a;
      assert db'.adses[i] == Repriced(prices, a);
    }
    forall b | b in db'.adses ensures exists a :: a in db.adses && Repriced(prices, a) == b {
      var i :| 0 <= i < |db'.adses| && db'.adses[i] == b;
      assert db.adses[i] in db.adses && Repriced(prices, db.adses[i]) == b;
    }
  }

  lemma RepricedRepresentatives(db: Db, req: Request, m: Metric, prices: map<nat, int>, a: Ads)
    requires a in db.adses
    ensures IsRepresentative(Reprice(db, prices), req, m, Repriced(prices, a)) <==> IsRepresentative(db, req, m, a)
  {
    var db' := Reprice(db, prices);
    RepricedMembers(db, prices);
    forall k ensures Eligible(db', req, k) == Eligible(db, req, k) {}
    forall b | b in db.adses ensures Contender(db', req, Repriced(prices, b)) <==> Contender(db, req, b) {}
    forall b, c | Contender(db, req, b) && Contender(db, req, c)
      ensures AtLeastAsNear(db', req, m, Repriced(prices, b), Repriced(prices, c)) == AtLeastAsNear(db, req, m, b, c) {}
    if IsRepresentative(db', req, m, Repriced(prices, a)) {
      forall b | Contender(db, req, b) && b.advertiserId == a.advertiserId ensures AtLeastAsNear(db, req, m, a, b) {
        assert Contender(db', req, Repriced(prices, b));
      }
    }
    if IsRepresentative(db, req, m, a) {
      forall c | Contender(db', req, c) && c.advertiserId == a.advertiserId
        ensures AtLeastAsNear(db', req, m, Repriced(prices, a), c)
      {
        var b :| b in db.adses && Repriced(prices, b) == c;
        assert Contender(db, req, b);
      }
    }
  }

  lemma SameRepriced(v: View, w: View, prices: map<nat, int>)
    requires w.db.adses == v.db.adses && SameRepresentatives(v, w)
    ensures forall b :: Represents(Priced(v, prices), b) ==> Represents(Priced(w, prices), b)
  {
    RepricedMembers(v.db, prices);
    forall b | Represents(Priced(v, prices), b) ensures Represents(Priced(w, prices), b) {
      var a :| a in v.db.adses && Repriced(prices, a) == b;
      RepricedRepresentatives(v.db, v.req, v.metric, prices, a);
      RepricedRepresentatives(w.db, w.req, w.metric, prices, a);
      assert Represents(v, a) <==> Represents(w, a);
    }
  }

  /** With one ad dearer than all others, it wins where it represents its advertiser. */
  lemma DearestWins(v: View, w: View, tie: TieBreak, a: Ads)
    requires ValidDb(v.db) && w.db.adses == v.db.adses && Represents(v, a) && !Represents(w, a)
    ensures !SameAtEveryPrice(v, w, tie)
  {
    var prices := map[a.adsId := 1];
    var top := Repriced(prices, a);
    RepricedRepresentatives(v.db, v.req, v.metric, prices, a);
    RepricedRepresentatives(w.db, w.req, w.metric, prices, a);
    RepricedMembers(v.db, prices);
    forall b | Represents(Priced(v, prices), b) && b != top ensures Before(tie, top, b) {
      var x :| x in v.db.adses && Repriced(prices, x) == b;
      if x.adsId == a.adsId {
        SameIdSameAd(v.db, x, a);
      }
    }
    WinnerIs(Reprice(v.db, prices), v.req, Rules(v.metric, tie), top);
    WinnerIs(Reprice(w.db, prices), w.req, Rules(w.metric, tie), top);
    assert Wins(Priced(v, prices), tie) != Wins(Priced(w, prices), tie);
  }

  /** What is chosen is the same at every price exactly when the representatives are. */
  lemma SameAtAllPrices(v: View, w: View, tie: TieBreak)
    requires ValidDb(v.db) && w.db.adses == v.db.adses
    ensures SameAtEveryPrice(v, w, tie) <==> SameRepresentatives(v, w)
  {
    if SameRepresentatives(v, w) {
      forall prices: map<nat, int> ensures Wins(Priced(v, prices), tie) == Wins(Priced(w, prices), tie) {
        SameRepriced(v, w, prices);
        SameRepriced(w, v, prices);
        RepresentativesDecide(Priced(v, prices), Priced(w, prices), tie);
      }
    } else if a :| Represents(v, a) && !Represents(w, a) {
      DearestWins(v, w, tie, a);
    } else {
      var a :| Represents(w, a) && !Represents(v, a);
      DearestWins(w, v, tie, a);
    }
  }
}
