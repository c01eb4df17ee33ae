// test/create_data.py: the tables the auctions are checked on. Every random choice is an
// arbitrary one here, so what is proved holds for every seed.

module Generator {
  import opened Database
  import opened Sums

  const ROW_0: seq<string> := ["ABC", "BCode", "Code", "ode1", "de12", "e123", "123", "23X", "3XY", "XYZ"]
  const ROW_1: seq<string> := ["YZW", "ZWe", "Web", "WebService", "Service", "viceX", "iceXY", "ceXYZ", "eXYZ4", "XYZ4"]
  const ROW_2: seq<string> := ["YZ45", "Z456", "456", "56D", "6Da", "Data", "DataStream", "Stream", "eamA", "amAB"]
  const ROW_3: seq<string> := ["mABC", "ABCX", "BCXY", "CXYZ", "XYZ7", "YZ78", "Z789", "789", "89F", "9Fi"]
  const ROW_4: seq<string> := ["Final", "FinalCode", "nalCode", "alCodeX", "lCodeXY", "CodeXYZ", "odeXYZ0", "deXYZ00",
    "eXYZ000", "XYZ0"]
  const ROW_5: seq<string> := ["XYZ00", "XYZ000", "YZ0", "Z00", "000", "00E", "0En", "End", "ndX", "dXY"]
  const ROW_6: seq<string> := ["Code123", "ServiceXYZ456", "StreamABCXYZ7", "FinalCodeXYZ000", "000End",
    "ABCode123XYZWeb", "DataStreamABCXYZ789Final"]
  const PROHIBIT_STRINGS: seq<string> := ROW_0 + ROW_1 + ROW_2 + ROW_3 + ROW_4 + ROW_5 + ROW_6

  /** `CANDIDATE_ZONE_SIZES`, keyed by the size ids 1 to 4. */
  const SIZES: map<nat, AdSize> :=
    map[1 := AdSize(200, 300), 2 := AdSize(250, 350), 3 := AdSize(400, 500), 4 := AdSize(150, 200)]

  // ---------- random_prohibit_string ----------

  /** The documented length of a block string; in particular it is not empty. */
  lemma ProhibitStringLengths()
    ensures forall i :: 0 <= i < |PROHIBIT_STRINGS| ==> 3 <= |PROHIBIT_STRINGS[i]| <= 24
  {
  }

  function Join(pieces: seq<string>): string {
    if pieces == [] then "" else Join(pieces[..|pieces| - 1]) + pieces[|pieces| - 1]
  }

  function Length(piece: string): int {
    |piece|
  }

  lemma {:induction false} JoinLength(pieces: seq<string>)
    ensures |Join(pieces)| == Sum(Length, pieces)
  {
    if pieces != [] {
      JoinLength(pieces[..|pieces| - 1]);
    }
  }

  lemma SwapPieces(pieces: seq<string>, i: nat, j: nat)
    requires i < |pieces| && j < |pieces|
    ensures Sum(Length, pieces[i := pieces[j]][j := pieces[i]]) == Sum(Length, pieces)
  {
    SumReplaced(Length, pieces, i, pieces[j]);
    SumReplaced(Length, pieces[i := pieces[j]], j, pieces[i]);
  }

  /** `random.shuffle`: exchanges each position, from the last down, with an arbitrary one. */
  method Shuffle(a: array<string>)
    modifies a
    ensures multiset(a[..]) == multiset(old(a[..]))
    ensures Sum(Length, a[..]) == Sum(Length, old(a[..]))
  {
    var i := a.Length;
    while i > 1
      invariant 0 <= i <= a.Length
      invariant multiset(a[..]) == multiset(old(a[..]))
      invariant Sum(Length, a[..]) == Sum(Length, old(a[..]))
    {
      i := i - 1;
      var j: nat :| j <= i;
      SwapPieces(a[..], i, j);
      ghost var before := a[..];
      a[i], a[j] := a[j], a[i];
      assert a[..] == before[i := before[j]][j := before[i]];
    }
  }

  predicate Alphanumeric(s: string) {
    forall i :: 0 <= i < |s| ==> 'a' <= s[i] <= 'z' || 'A' <= s[i] <= 'Z' || '0' <= s[i] <= '9'
  }

  /** `random.choices` over letters and digits. */
  method RandomString(length: nat) returns (s: string)
    ensures |s| == length && Alphanumeric(s)
  {
    s := "";
    while |s| < length
      invariant |s| <= length && Alphanumeric(s)
    {
      assert 'a' <= 'a' <= 'z';
      var c: char :| 'a' <= c <= 'z' || 'A' <= c <= 'Z' || '0' <= c <= '9';
      s := s + [c];
    }
  }

  /** Block strings in any order, each whole, and between them at most one run of other letters and
      digits, for which some block string was too long. */
  ghost predicate MadeOf(strings: seq<string>, s: string) {
    exists drawn: seq<string>, filler: seq<string>, pieces: seq<string> ::
      && s == Join(pieces) && multiset(pieces) == multiset(drawn + filler)
      && (forall d :: d in drawn ==> d in strings)
      && |filler| <= 1 && forall f :: f in filler ==> Alphanumeric(f) && exists d :: d in strings && |f| < |d|
  }

  /** The loop: block strings until one is too long for what remains. */
  method DrawPieces(strings: seq<string>, length: int) returns (pieces: seq<string>, remaining: int)
    requires strings != [] && forall d :: d in strings ==> d != ""
    ensures if length < 0 then remaining < 0 && pieces == []
            else remaining >= 0 && Sum(Length, pieces) + remaining == length
    ensures forall d :: d in pieces ==> d in strings
    ensures remaining > 0 ==> exists d :: d in strings && remaining < |d|
  {
    pieces, remaining := [], length;
    while remaining > 0
      invariant if length < 0 then remaining < 0 && pieces == []
                else remaining >= 0 && Sum(Length, pieces) + remaining == length
      invariant forall d :: d in pieces ==> d in strings
      decreases remaining
    {
      assert strings[0] in strings;
      var prohibited :| prohibited in strings;
      if |prohibited| <= remaining {
        assert (pieces + [prohibited])[..|pieces|] == pieces;
        pieces := pieces + [prohibited];
        remaining := remaining - |prohibited|;
      } else {
        break;
      }
    }
  }

  /** Terminates on every run, no block string being empty, and the result has the length asked for. */
  method RandomProhibitString(strings: seq<string>, length: int) returns (s: string)
    requires strings != [] && forall d :: d in strings ==> d != ""
    ensures |s| == if length < 0 then 0 else length
    ensures MadeOf(strings, s)
  {
    var result, remaining := DrawPieces(strings, length);
    ghost var drawn, rest := result, [];
    if remaining > 0 {
      var filler := RandomString(remaining);
      assert (result + [filler])[..|result|] == result;
      result := result + [filler];
      rest := [filler];
    }
    assert result == drawn + rest;
    var list := new string[|result|](i requires 0 <= i < |result| => result[i]);
    assert list[..] == result;
    Shuffle(list);
    JoinLength(list[..]);
    s := Join(list[..]);
    assert multiset(list[..]) == multiset(drawn + rest);
  }

  // ---------- the tables ----------

  predicate Distinct(ids: seq<nat>) {
    forall i, j :: 0 <= i < j < |ids| ==> ids[i] != ids[j]
  }

  predicate CategorySample(ids: seq<nat>) {
    1 <= |ids| <= 10 && Distinct(ids) && forall i :: 0 <= i < |ids| ==> 1 <= ids[i] <= 20
  }

  /** `random.sample(range(1, 21), k)`: draws from a shrinking pool. */
  method SampleCategories(k: nat) returns (ids: seq<nat>)
    requires 1 <= k <= 10
    ensures |ids| == k && CategorySample(ids)
  {
    ids := [];
    var pool: seq<nat> := seq(20, i requires 0 <= i < 20 => i + 1);
    while |ids| < k
      invariant |ids| <= k && |pool| == 20 - |ids|
      invariant Distinct(ids) && Distinct(pool)
      invariant forall i, j :: 0 <= i < |ids| && 0 <= j < |pool| ==> ids[i] != pool[j]
      invariant forall i :: 0 <= i < |ids| ==> 1 <= ids[i] <= 20
      invariant forall i :: 0 <= i < |pool| ==> 1 <= pool[i] <= 20
    {
      var j: nat :| j < |pool|;
      ids := ids + [pool[j]];
      pool := pool[..j] + pool[j + 1..];
    }
  }

  /** What is drawn for one ad, and for one advertiser with its ads. */
  datatype AdDraw = AdDraw(price: nat, adsTxt: string, sizeId: nat, feature: int)

  datatype AdvertiserDraw = AdvertiserDraw(blockingType: nat, domain: string, categories: seq<nat>, adses: seq<AdDraw>)

  predicate AdDrawn(d: AdDraw) {
    && 100 <= d.price <= 1000000 && |d.adsTxt| == 64 && Alphanumeric(d.adsTxt)
    && d.sizeId in SIZES && -100000 <= d.feature <= 100000
  }

  predicate AdvertiserDrawn(d: AdvertiserDraw, coff: nat) {
    && d.blockingType <= 1 && CategorySample(d.categories)
    && |d.domain| == 36 && d.domain[32..] == ".com"
    && 10 * coff <= |d.adses| <= 15 * coff && forall i :: 0 <= i < |d.adses| ==> AdDrawn(d.adses[i])
  }

  predicate Drawn(draws: seq<AdvertiserDraw>, coff: nat) {
    10 * coff <= |draws| <= 15 * coff && forall k :: 0 <= k < |draws| ==> AdvertiserDrawn(draws[k], coff)
  }

  /** The tables with one more ad, numbered next, and its feature row. */
  function AddAd(db: Db, k: nat, d: AdDraw): Db {
    var adsId := |db.adses| + 1;
    db.(adses := db.adses + [Ads(adsId, k, d.price, d.adsTxt, d.sizeId)], features := db.features[adsId := d.feature])
  }

  function AddAdses(db: Db, k: nat, ds: seq<AdDraw>): Db {
    if ds == [] then db else AddAd(AddAdses(db, k, ds[..|ds| - 1]), k, ds[|ds| - 1])
  }

  function AddRow(db: Db, k: nat, d: AdvertiserDraw): Db {
    db.(advertisers := db.advertisers[k := Advertiser(d.blockingType, d.domain)],
        categories := db.categories[k := d.categories])
  }

  /** The tables that come of the draws. */
  function Tables(draws: seq<AdvertiserDraw>): Db {
    if draws == [] then Db([], SIZES, map[], map[], map[])
    else
      var last := draws[|draws| - 1];
      AddAdses(AddRow(Tables(draws[..|draws| - 1]), |draws|, last), |draws|, last.adses)
  }

  /** Tables the program can write. */
  ghost predicate Generated(db: Db, coff: nat) {
    exists draws :: Drawn(draws, coff) && db == Tables(draws)
  }

  method DrawAd() returns (d: AdDraw)
    ensures AdDrawn(d)
  {
    var price: nat :| 100 <= price <= 1000000;
    var adsTxt := RandomString(64);
    var sizeId: nat :| 1 <= sizeId <= 4;
    var feature: int :| -100000 <= feature <= 100000;
    d := AdDraw(price, adsTxt, sizeId, feature);
  }

  /** The inner loop: `count` ads of advertiser `k`, numbered on from `sumAds`. */
  method GenerateAdses(db: Db, k: nat, sumAds: nat, count: nat) returns (db': Db, ghost ds: seq<AdDraw>)
    requires sumAds == |db.adses|
    ensures |ds| == count && forall i :: 0 <= i < |ds| ==> AdDrawn(ds[i])
    ensures db' == AddAdses(db, k, ds) && |db'.adses| == sumAds + count
  {
    db', ds := db, [];
    for id := 1 to count + 1
      invariant |ds| == id - 1 && forall i :: 0 <= i < |ds| ==> AdDrawn(ds[i])
      invariant db' == AddAdses(db, k, ds) && |db'.adses| == sumAds + |ds|
    {
      var d := DrawAd();
      var adsId := id + sumAds;
      assert (ds + [d])[..|ds|] == ds;
      db' := db'.(adses := db'.adses + [Ads(adsId, k, d.price, d.adsTxt, d.sizeId)],
                  features := db'.features[adsId := d.feature]);
      ds := ds + [d];
    }
  }

  method DrawDomain() returns (domain: string)
    ensures |domain| == 36 && MadeOf(PROHIBIT_STRINGS, domain[..32]) && domain[32..] == ".com"
  {
    ProhibitStringLengths();
    var made := RandomProhibitString(PROHIBIT_STRINGS, 32);
    domain := made + ".com";
    assert domain[..32] == made && domain[32..] == ".com";
  }

  /** The head of the outer loop: the advertiser's own row and its categories. */
  method DrawAdvertiser() returns (d: AdvertiserDraw)
    ensures d.blockingType <= 1 && CategorySample(d.categories)
    ensures |d.domain| == 36 && d.domain[32..] == ".com"
  {
    var blockingType: nat :| blockingType <= 1;
    var domain := DrawDomain();
    var nCategories: nat :| 1 <= nCategories <= 10;
    var ids := SampleCategories(nCategories);
    d := AdvertiserDraw(blockingType, domain, ids, []);
  }

  /** The tables are those of the draws made. */
  method Generate(coff: nat) returns (db: Db)
    ensures Generated(db, coff)
  {
    db := Db([], SIZES, map[], map[], map[]);
    var sumAds := 0;
    assert 10 * coff <= 15 * coff;
    var nAdvertisers: nat :| 10 * coff <= nAdvertisers <= 15 * coff;
    ghost var draws: seq<AdvertiserDraw> := [];
    for advertiserId := 1 to nAdvertisers + 1
      invariant |draws| == advertiserId - 1 && sumAds == |db.adses| && db == Tables(draws)
      invariant forall k :: 0 <= k < |draws| ==> AdvertiserDrawn(draws[k], coff)
    {
      var d := DrawAdvertiser();
      db := AddRow(db, advertiserId, d);
      var nAdses: nat :| 10 * coff <= nAdses <= 15 * coff;
      ghost var ds;
      db, ds := GenerateAdses(db, advertiserId, sumAds, nAdses);
      ghost var drawn := d.(adses := ds);
      assert (draws + [drawn])[..|draws|] == draws;
      draws, sumAds := draws + [drawn], sumAds + nAdses;
    }
  }

  // ---------- every row is the one drawn ----------

  lemma {:induction false} AdsesKept(db: Db, k: nat, ds: seq<AdDraw>)
    ensures var db' := AddAdses(db, k, ds);
      && db' == db.(adses := db'.adses, features := db'.features)
      && |db'.adses| == |db.adses| + |ds| && db'.adses[..|db.adses|] == db.adses
      && (forall id :: id <= |db.adses| ==> (id in db'.features <==> id in db.features))
      && forall id :: id <= |db.adses| && id in db.features ==> db'.features[id] == db.features[id]
  {
    if ds != [] {
      AdsesKept(db, k, ds[..|ds| - 1]);
    }
  }

  /** The ad drawn at `j` has the next free id but `j`, and everything else as drawn. */
  lemma {:induction false} AdsesDrawn(db: Db, k: nat, ds: seq<AdDraw>, j: nat)
    requires j < |ds|
    ensures var db' := AddAdses(db, k, ds);
      && |db'.adses| == |db.adses| + |ds| && |db.adses| + j + 1 in db'.features
      && db'.features[|db.adses| + j + 1] == ds[j].feature
      && var a := db'.adses[|db.adses| + j];
        && a.adsId == |db.adses| + j + 1 && a.advertiserId == k
        && a.price == ds[j].price && a.adsTxt == ds[j].adsTxt && a.sizeId == ds[j].sizeId
  {
    AdsesKept(db, k, ds[..|ds| - 1]);
    if j < |ds| - 1 {
      AdsesDrawn(db, k, ds[..|ds| - 1], j);
    }
  }

  /** The ads of the first `k` advertisers. */
  function AdsBefore(draws: seq<AdvertiserDraw>, k: nat): nat
    requires k <= |draws|
  {
    if k == 0 then 0 else AdsBefore(draws, k - 1) + |draws[k - 1].adses|
  }

  lemma {:induction false} AdsBeforePrefix(draws: seq<AdvertiserDraw>, n: nat, k: nat)
    requires k <= n <= |draws|
    ensures AdsBefore(draws[..n], k) == AdsBefore(draws, k)
  {
    if k > 0 {
      AdsBeforePrefix(draws, n, k - 1);
    }
  }

  lemma {:induction false} AdsInAll(draws: seq<AdvertiserDraw>)
    ensures |Tables(draws).adses| == AdsBefore(draws, |draws|)
  {
    if draws != [] {
      var n, last := |draws| - 1, draws[|draws| - 1];
      AdsInAll(draws[..n]);
      AdsBeforePrefix(draws, n, n);
      AdsesKept(AddRow(Tables(draws[..n]), n + 1, last), n + 1, last.adses);
    }
  }

  /** The row of an advertiser, and its categories, are those drawn. */
  lemma {:induction false} AdvertiserRow(draws: seq<AdvertiserDraw>, k: nat)
    requires k < |draws|
    ensures var db := Tables(draws);
      && k + 1 in db.advertisers && k + 1 in db.categories
      && db.advertisers[k + 1].blockingType == draws[k].blockingType && db.advertisers[k + 1].domain == draws[k].domain
      && db.categories[k + 1] == draws[k].categories
  {
    var n, last := |draws| - 1, draws[|draws| - 1];
    AdsesKept(AddRow(Tables(draws[..n]), n + 1, last), n + 1, last.adses);
    if k < n {
      AdvertiserRow(draws[..n], k);
    }
  }

  /** The tables grow: what was there stays. */
  lemma TablesKept(draws: seq<AdvertiserDraw>)
    requires draws != []
    ensures var before, db := Tables(draws[..|draws| - 1]), Tables(draws);
      && |before.adses| <= |db.adses| && db.adses[..|before.adses|] == before.adses
      && (forall id :: id <= |before.adses| && id in before.features ==>
        id in db.features && db.features[id] == before.features[id])
  {
    var n, last := |draws| - 1, draws[|draws| - 1];
    AdsesKept(AddRow(Tables(draws[..n]), n + 1, last), n + 1, last.adses);
  }

  lemma LastAdRow(draws: seq<AdvertiserDraw>, j: nat)
    requires draws != [] && j < |draws[|draws| - 1].adses|
    ensures var db, k := Tables(draws), |draws| - 1;
      var i, d := AdsBefore(draws, k) + j, draws[k].adses[j];
      && i < |db.adses| && i + 1 in db.features && db.features[i + 1] == d.feature
      && db.adses[i] == Ads(i + 1, k + 1, d.price, d.adsTxt, d.sizeId)
  {
    var k, last := |draws| - 1, draws[|draws| - 1];
    AdsInAll(draws[..k]);
    AdsBeforePrefix(draws, k, k);
    AdsesDrawn(AddRow(Tables(draws[..k]), k + 1, last), k + 1, last.adses, j);
  }

  /** The row of an ad is the one drawn, numbered after the ads of the advertisers before its own and
      those drawn before it. */
  lemma {:induction false} AdRow(draws: seq<AdvertiserDraw>, k: nat, j: nat)
    requires k < |draws| && j < |draws[k].adses|
    ensures var db, i, d := Tables(draws), AdsBefore(draws, k) + j, draws[k].adses[j];
      && i < |db.adses| && i + 1 in db.features && db.features[i + 1] == d.feature
      && db.adses[i] == Ads(i + 1, k + 1, d.price, d.adsTxt, d.sizeId)
  {
    var n := |draws| - 1;
    if k == n {
      LastAdRow(draws, j);
    } else {
      AdRow(draws[..n], k, j);
      AdsBeforePrefix(draws, n, k);
      TablesKept(draws);
      var before, i := Tables(draws[..n]), AdsBefore(draws, k) + j;
      assert Tables(draws).adses[..|before.adses|][i] == before.adses[i];
    }
  }

  // ---------- the shape of the tables ----------

  predicate AdvertiserMade(db: Db, k: nat) {
    && k in db.advertisers && db.advertisers[k].blockingType <= 1
    && |db.advertisers[k].domain| == 36 && db.advertisers[k].domain[32..] == ".com"
    && k in db.categories && CategorySample(db.categories[k])
  }

  /** Advertisers 1 to `n`, and nobody else. */
  ghost predicate AdvertisersMade(db: Db, n: nat) {
    && (forall k :: k in db.advertisers <==> 1 <= k <= n)
    && (forall k :: k in db.categories <==> 1 <= k <= n)
    && forall k :: 1 <= k <= n ==> AdvertiserMade(db, k)
  }

  /** Ads ids are 1 to the number of ads in order, each with one feature row. */
  ghost predicate AdsesMade(db: Db) {
    && (forall i :: 0 <= i < |db.adses| ==>
        && db.adses[i].adsId == i + 1 && 100 <= db.adses[i].price <= 1000000 && db.adses[i].sizeId in SIZES
        && |db.adses[i].adsTxt| == 64 && Alphanumeric(db.adses[i].adsTxt))
    && (forall id :: id in db.features <==> 1 <= id <= |db.adses|)
    && forall id :: id in db.features ==> -100000 <= db.features[id] <= 100000
  }

  /** `sums[k]` is `sum_ads` after advertiser `k`, who has between 10 and 15 `coff` ads. */
  predicate RunningSums(sums: seq<nat>, coff: nat) {
    && sums != [] && sums[0] == 0
    && forall k :: 1 <= k < |sums| ==> sums[k - 1] + 10 * coff <= sums[k] <= sums[k - 1] + 15 * coff
  }

  /** Advertiser `k`'s ads are the ones between the two sums. */
  ghost predicate InBlocks(adses: seq<Ads>, sums: seq<nat>) {
    forall k, i :: 1 <= k < |sums| && sums[k - 1] <= i < sums[k] && i < |adses| ==> adses[i].advertiserId == k
  }

  /** Each advertiser's ads are one block of ids, and the next advertiser's block follows it. */
  ghost predicate Blocks(db: Db, sums: seq<nat>, coff: nat) {
    RunningSums(sums, coff) && sums[|sums| - 1] == |db.adses| && InBlocks(db.adses, sums)
  }

  lemma {:induction false} AdsesAdded(db: Db, k: nat, ds: seq<AdDraw>)
    requires AdsesMade(db) && forall i :: 0 <= i < |ds| ==> AdDrawn(ds[i])
    ensures var db' := AddAdses(db, k, ds);
      && AdsesMade(db') && db' == db.(adses := db'.adses, features := db'.features)
      && |db'.adses| == |db.adses| + |ds| && db'.adses[..|db.adses|] == db.adses
      && forall i :: |db.adses| <= i < |db'.adses| ==> db'.adses[i].advertiserId == k
  {
    if ds != [] {
      AdsesAdded(db, k, ds[..|ds| - 1]);
      assert AdDrawn(ds[|ds| - 1]);
    }
  }

  lemma RowAdded(db: Db, k: nat, d: AdvertiserDraw, coff: nat)
    requires 1 <= k && AdvertisersMade(db, k - 1) && AdvertiserDrawn(d, coff)
    ensures AdvertisersMade(AddRow(db, k, d), k)
  {
    forall j | 1 <= j < k ensures AdvertiserMade(AddRow(db, k, d), j) {
      assert AdvertiserMade(db, j);
    }
  }

  lemma {:induction false} SumsIncrease(sums: seq<nat>, coff: nat, j: nat, k: nat)
    requires RunningSums(sums, coff) && j <= k < |sums|
    ensures sums[j] <= sums[k]
  {
    if j < k {
      SumsIncrease(sums, coff, j, k - 1);
    }
  }

  lemma InBlocksAppend(adses: seq<Ads>, adses': seq<Ads>, sums: seq<nat>)
    requires sums != [] && sums[|sums| - 1] == |adses| && InBlocks(adses, sums)
    requires forall k :: 0 <= k < |sums| ==> sums[k] <= |adses|
    requires |adses| <= |adses'| && adses'[..|adses|] == adses
    requires forall i :: |adses| <= i < |adses'| ==> adses'[i].advertiserId == |sums|
    ensures InBlocks(adses', sums + [|adses'|])
  {
    assert forall i :: 0 <= i < |adses| ==> adses'[i] == adses[i];
    var sums' := sums + [|adses'|];
    forall k, i | 1 <= k < |sums'| && sums'[k - 1] <= i < sums'[k] && i < |adses'|
      ensures adses'[i].advertiserId == k
    {
      if k < |sums| {
        assert sums'[k] == sums[k] && sums'[k - 1] == sums[k - 1];
      }
    }
  }

  lemma BlocksAppend(db: Db, db': Db, sums: seq<nat>, coff: nat)
    requires Blocks(db, sums, coff)
    requires |db.adses| + 10 * coff <= |db'.adses| <= |db.adses| + 15 * coff
    requires db'.adses[..|db.adses|] == db.adses
    requires forall i :: |db.adses| <= i < |db'.adses| ==> db'.adses[i].advertiserId == |sums|
    ensures Blocks(db', sums + [|db'.adses|], coff)
  {
    forall k | 0 <= k < |sums| ensures sums[k] <= |db.adses| {
      SumsIncrease(sums, coff, k, |sums| - 1);
    }
    InBlocksAppend(db.adses, db'.adses, sums);
  }

  lemma AdvertisersKept(db: Db, db': Db, n: nat)
    requires AdvertisersMade(db, n) && db' == db.(adses := db'.adses, features := db'.features)
    ensures AdvertisersMade(db', n)
  {
    forall k | 1 <= k <= n ensures AdvertiserMade(db', k) {
      assert AdvertiserMade(db, k);
    }
  }

  /** One more advertiser keeps the shape. */
  lemma ShapeAdded(db: Db, n: nat, d: AdvertiserDraw, sums: seq<nat>, coff: nat)
    requires |sums| == n && Blocks(db, sums, coff) && AdsesMade(db) && AdvertisersMade(db, n - 1)
    requires AdvertiserDrawn(d, coff)
    ensures var db' := AddAdses(AddRow(db, n, d), n, d.adses);
      && Blocks(db', sums + [|db'.adses|], coff) && AdsesMade(db') && AdvertisersMade(db', n) && db'.sizes == db.sizes
  {
    var db' := AddAdses(AddRow(db, n, d), n, d.adses);
    AdsesAdded(AddRow(db, n, d), n, d.adses);
    BlocksAppend(db, db', sums, coff);
    RowAdded(db, n, d, coff);
    AdvertisersKept(AddRow(db, n, d), db', n);
  }

  lemma {:induction false} TablesShape(draws: seq<AdvertiserDraw>, coff: nat) returns (sums: seq<nat>)
    requires forall k :: 0 <= k < |draws| ==> AdvertiserDrawn(draws[k], coff)
    ensures |sums| == |draws| + 1 && Blocks(Tables(draws), sums, coff)
    ensures AdsesMade(Tables(draws)) && AdvertisersMade(Tables(draws), |draws|) && Tables(draws).sizes == SIZES
  {
    if draws == [] {
      sums := [0];
    } else {
      var before := TablesShape(draws[..|draws| - 1], coff);
      ShapeAdded(Tables(draws[..|draws| - 1]), |draws|, draws[|draws| - 1], before, coff);
      sums := before + [|Tables(draws).adses|];
    }
  }

  /** Every advertiser has one block of ids, and every row is in range. */
  lemma GeneratedShape(db: Db, coff: nat) returns (sums: seq<nat>)
    requires Generated(db, coff)
    ensures 10 * coff <= |sums| - 1 <= 15 * coff && Blocks(db, sums, coff)
    ensures AdvertisersMade(db, |sums| - 1) && AdsesMade(db) && db.sizes == SIZES
  {
    var draws :| Drawn(draws, coff) && db == Tables(draws);
    sums := TablesShape(draws, coff);
  }

  // ---------- what the auctions may rely on ----------

  /** Every ad belongs to the advertiser whose block it is in. */
  lemma {:induction false} InSomeBlock(db: Db, sums: seq<nat>, coff: nat, i: nat, n: nat)
    requires Blocks(db, sums, coff) && i < |db.adses| && n < |sums| && i < sums[n]
    ensures 1 <= db.adses[i].advertiserId <= n
    ensures sums[db.adses[i].advertiserId - 1] <= i < sums[db.adses[i].advertiserId]
  {
    if sums[n - 1] <= i {
    } else {
      InSomeBlock(db, sums, coff, i, n - 1);
    }
  }

  /** Later ads belong to the same advertiser or to a later one. */
  lemma BlocksInOrder(db: Db, coff: nat, i: nat, j: nat)
    requires Generated(db, coff) && i <= j < |db.adses|
    ensures db.adses[i].advertiserId <= db.adses[j].advertiserId
    ensures db.adses[i].advertiserId in db.advertisers
  {
    var sums := GeneratedShape(db, coff);
    InSomeBlock(db, sums, coff, i, |sums| - 1);
    InSomeBlock(db, sums, coff, j, |sums| - 1);
    var a, b := db.adses[i].advertiserId, db.adses[j].advertiserId;
    if b < a {
      SumsIncrease(sums, coff, b, a - 1);
    }
  }

  lemma GeneratedTables(db: Db, coff: nat)
    requires Generated(db, coff)
    ensures AdsesMade(db) && db.sizes == SIZES
    ensures forall k :: k in db.advertisers ==> AdvertiserMade(db, k)
  {
    var _ := GeneratedShape(db, coff);
  }

  /** `ads_id` order agrees with advertiser order. */
  lemma IdsFollowAdvertisers(db: Db, coff: nat, a: Ads, b: Ads)
    requires Generated(db, coff) && a in db.adses && b in db.adses && a.advertiserId < b.advertiserId
    ensures a.adsId < b.adsId
  {
    GeneratedTables(db, coff);
    var i :| 0 <= i < |db.adses| && db.adses[i] == a;
    var j :| 0 <= j < |db.adses| && db.adses[j] == b;
    if j <= i {
      BlocksInOrder(db, coff, j, i);
    }
  }

  /** Every lookup an auction makes for an ad finds a row. */
  lemma LookupsSucceed(db: Db, coff: nat, a: Ads)
    requires Generated(db, coff) && a in db.adses
    ensures a.advertiserId in db.advertisers && db.advertisers[a.advertiserId].blockingType <= 1
    ensures FetchCategoryBlocking(db, a.advertiserId).Some? && a.sizeId in db.sizes && a.adsId in db.features
  {
    GeneratedTables(db, coff);
    var i :| 0 <= i < |db.adses| && db.adses[i] == a;
    BlocksInOrder(db, coff, i, i);
    assert AdvertiserMade(db, a.advertiserId);
  }

  // ---------- drawing other features ----------

  function FeatureAt(features: map<nat, int>, id: nat): int {
    if id in features then features[id] else 0
  }

  /** The same draws for the ads numbered on from `from`, but for their features. */
  function Redrawn(ds: seq<AdDraw>, from: nat, features: map<nat, int>): seq<AdDraw> {
    seq(|ds|, i requires 0 <= i < |ds| => ds[i].(feature := FeatureAt(features, from + i + 1)))
  }

  function RedrawAll(draws: seq<AdvertiserDraw>, features: map<nat, int>): seq<AdvertiserDraw> {
    if draws == [] then []
    else
      var before, last := draws[..|draws| - 1], draws[|draws| - 1];
      RedrawAll(before, features) + [last.(adses := Redrawn(last.adses, |Tables(before).adses|, features))]
  }

  /** Tables that differ in their features only, which are the ones given. */
  ghost predicate Refeatured(db: Db, db': Db, features: map<nat, int>) {
    && db' == db.(features := db'.features) && db'.features.Keys == db.features.Keys
    && forall id :: id in db'.features ==> db'.features[id] == FeatureAt(features, id)
  }

  lemma AdRedrawn(db: Db, db': Db, k: nat, d: AdDraw, features: map<nat, int>)
    requires Refeatured(db, db', features)
    ensures Refeatured(AddAd(db, k, d), AddAd(db', k, d.(feature := FeatureAt(features, |db.adses| + 1))), features)
  {
  }

  lemma {:induction false} AdsesRedrawn(db: Db, db': Db, k: nat, ds: seq<AdDraw>, features: map<nat, int>)
    requires Refeatured(db, db', features)
    ensures |AddAdses(db, k, ds).adses| == |db.adses| + |ds|
    ensures Refeatured(AddAdses(db, k, ds), AddAdses(db', k, Redrawn(ds, |db.adses|, features)), features)
  {
    if ds != [] {
      var rest := ds[..|ds| - 1];
      var redrawn := Redrawn(ds, |db.adses|, features);
      AdsesRedrawn(db, db', k, rest, features);
      assert redrawn[..|rest|] == Redrawn(rest, |db.adses|, features);
      AdRedrawn(AddAdses(db, k, rest), AddAdses(db', k, redrawn[..|rest|]), k, ds[|ds| - 1], features);
    }
  }

  lemma AdvertiserRedrawn(d: AdvertiserDraw, coff: nat, from: nat, features: map<nat, int>)
    requires AdvertiserDrawn(d, coff) && forall id :: id in features ==> -100000 <= features[id] <= 100000
    ensures AdvertiserDrawn(d.(adses := Redrawn(d.adses, from, features)), coff)
  {
    var ds := Redrawn(d.adses, from, features);
    forall i | 0 <= i < |ds| ensures AdDrawn(ds[i]) {
      assert AdDrawn(d.adses[i]);
    }
  }

  lemma {:induction false} StillDrawn(draws: seq<AdvertiserDraw>, coff: nat, features: map<nat, int>)
    requires forall k :: 0 <= k < |draws| ==> AdvertiserDrawn(draws[k], coff)
    requires forall id :: id in features ==> -100000 <= features[id] <= 100000
    ensures var draws' := RedrawAll(draws, features);
      |draws'| == |draws| && forall k :: 0 <= k < |draws| ==> AdvertiserDrawn(draws'[k], coff)
  {
    if draws != [] {
      var before, last := draws[..|draws| - 1], draws[|draws| - 1];
      StillDrawn(before, coff, features);
      AdvertiserRedrawn(last, coff, |Tables(before).adses|, features);
    }
  }

  lemma {:induction false} TablesRedrawn(draws: seq<AdvertiserDraw>, features: map<nat, int>)
    ensures |RedrawAll(draws, features)| == |draws|
    ensures Refeatured(Tables(draws), Tables(RedrawAll(draws, features)), features)
  {
    if draws != [] {
      var n, last := |draws|, draws[|draws| - 1];
      var before := draws[..n - 1];
      TablesRedrawn(before, features);
      assert RedrawAll(draws, features)[..n - 1] == RedrawAll(before, features);
      var db, db' := AddRow(Tables(before), n, last), AddRow(Tables(RedrawAll(before, features)), n, last);
      AdsesRedrawn(db, db', n, last.adses, features);
    }
  }

  /** Whatever was drawn, any features in range could have been drawn with all else the same. */
  lemma FeaturesAreFree(db: Db, coff: nat, features: map<nat, int>)
    requires Generated(db, coff) && features.Keys == db.features.Keys
    requires forall id :: id in features ==> -100000 <= features[id] <= 100000
    ensures Generated(db.(features := features), coff)
  {
    var draws :| Drawn(draws, coff) && db == Tables(draws);
    TablesRedrawn(draws, features);
    StillDrawn(draws, coff, features);
    var db' := Tables(RedrawAll(draws, features));
    assert db'.features == features;
    assert db' == db.(features := features);
    assert Drawn(RedrawAll(draws, features), coff);
  }
}
