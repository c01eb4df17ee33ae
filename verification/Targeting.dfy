// Choosing, among the features one advertiser's ads have, the one nearest to the zone.

module Targeting {
  import opened Database
  import opened Metrics

  ghost predicate FirstMinimum(ds: seq<int>, k: int) {
    && 0 <= k < |ds|
    && (forall j :: 0 <= j < k ==> ds[k] < ds[j])
    && (forall j :: k <= j < |ds| ==> ds[k] <= ds[j])
  }

  /** The position of the first minimum: a later element replaces the best so far only when
      strictly less. */
  function ArgMin(ds: seq<int>): (k: nat)
    requires ds != []
    ensures FirstMinimum(ds, k)
  {
    if |ds| == 1 then 0
    else
      var rest, last := ds[..|ds| - 1], |ds| - 1;
      var k := ArgMin(rest);
      if ds[last] < rest[k] then last else k
  }

  /** The defining property leaves no choice. */
  lemma ArgMinIs(ds: seq<int>, k: int)
    requires FirstMinimum(ds, k)
    ensures ArgMin(ds) == k
  {
    var j := ArgMin(ds);
    assert ds[j] <= ds[k] && ds[k] <= ds[j];
  }

  function Distances(m: Metric, zone: int, fs: seq<AdsFeature>): (ds: seq<int>)
    ensures |ds| == |fs|
    ensures forall i :: 0 <= i < |fs| ==> ds[i] == Distance(m, fs[i].feature, zone)
  {
    seq(|fs|, i requires 0 <= i < |fs| => Distance(m, fs[i].feature, zone))
  }

  function NearestIndex(m: Metric, zone: int, fs: seq<AdsFeature>): (k: nat)
    requires fs != []
    ensures k < |fs|
  {
    ArgMin(Distances(m, zone, fs))
  }

  function FirstNearest(m: Metric, zone: int, fs: seq<AdsFeature>): AdsFeature
    requires fs != []
  {
    fs[NearestIndex(m, zone, fs)]
  }

  /** The largest finite double, `math.MaxFloat64`. */
  const MAX_FLOAT64: int := 0xFFFFFFFFFFFFF800000000000000000000000000000000000000000000000000000000000000000000000000000000000000000000000000000000000000000000000000000000000000000000000000000000000000000000000000000000000000000000000000000000000000000000000000000000000000000000000000

  /** Go: the loop keeps the index of the first strictly smaller distance. */
  method GoFeatureTargeting(fs: seq<AdsFeature>, zone: int) returns (best: AdsFeature)
    requires fs != []
    ensures best == FirstNearest(Float64Of64Bit, zone, fs)
  {
    ghost var ds := Distances(Float64Of64Bit, zone, fs);
    var nearestId := 0;
    var bound := MAX_FLOAT64;
    for id := 0 to |fs|
      invariant if id == 0 then bound == MAX_FLOAT64
                else FirstMinimum(ds[..id], nearestId) && bound == ds[nearestId]
    {
      var sub := Distance(Float64Of64Bit, fs[id].feature, zone);
      assert sub == ds[id];
      if sub < bound {
        bound := sub;
        nearestId := id;
      }
    }
    assert ds[..|fs|] == ds;
    ArgMinIs(ds, nearestId);
    best := fs[nearestId];
  }

  /** C++: one library call, the first minimum under a projection. */
  function CppFeatureTargeting(fs: seq<AdsFeature>, zone: int): AdsFeature
    requires fs != []
  {
    FirstNearest(Wrapped32Bit, zone, fs)
  }

  /** Python: the search starts from `sys.maxsize`, which a distance need not beat; the
      answer is then the first element. */
  method PythonFeatureTargeting(fs: seq<AdsFeature>, zone: int) returns (best: AdsFeature)
    requires fs != []
    ensures best == FirstNearest(ClampedAtMaxsize, zone, fs)
  {
    ghost var ds := Distances(ClampedAtMaxsize, zone, fs);
    var nearestId := 0;
    var bound := MAXSIZE;
    for idx := 0 to |fs|
      invariant if idx == 0 then bound == MAXSIZE && nearestId == 0
                else FirstMinimum(ds[..idx], nearestId) && bound == ds[nearestId]
    {
      var sub := Abs(zone - fs[idx].feature);
      assert ds[idx] == if sub < MAXSIZE then sub else MAXSIZE;
      if sub < bound {
        bound := sub;
        nearestId := idx;
      }
    }
    assert ds[..|fs|] == ds;
    ArgMinIs(ds, nearestId);
    best := fs[nearestId];
  }

  // ---------- when the languages choose the true first minimum ----------

  function TrueDistance(zone: int, f: AdsFeature): nat {
    Abs(f.feature - zone)
  }

  lemma ArgMinExactly(ds: seq<int>, k: nat)
    requires k < |ds|
    ensures ArgMin(ds) == k <==> forall j :: 0 <= j < |ds| ==> ds[k] < ds[j] || (ds[k] == ds[j] && k <= j)
  {
    if forall j :: 0 <= j < |ds| ==> ds[k] < ds[j] || (ds[k] == ds[j] && k <= j) {
      ArgMinIs(ds, k);
    }
  }

  lemma NearestExactly(m: Metric, zone: int, fs: seq<AdsFeature>, k: nat)
    requires k < |fs|
    ensures NearestIndex(m, zone, fs) == k <==>
      forall j :: 0 <= j < |fs| ==> Nearer(m, zone, fs[k].feature, fs[j].feature, k <= j)
  {
    var ds := Distances(m, zone, fs);
    ArgMinExactly(ds, k);
    forall j | 0 <= j < |fs|
      ensures Nearer(m, zone, fs[k].feature, fs[j].feature, k <= j) <==> ds[k] < ds[j] || (ds[k] == ds[j] && k <= j) {}
  }

  /** The nearest feature is still chosen exactly when the metric puts it before all others. */
  lemma TargetingExactly(m: Metric, zone: int, fs: seq<AdsFeature>)
    requires fs != [] && forall f :: f in fs ==> Fits(m, f.feature, zone)
    ensures var k := NearestIndex(Exact, zone, fs);
      NearestIndex(m, zone, fs) == k <==>
        forall j :: 0 <= j < |fs| ==> KeepsNearer(m, zone, fs[k].feature, fs[j].feature, k <= j)
  {
    var k := NearestIndex(Exact, zone, fs);
    NearestExactly(Exact, zone, fs, k);
    forall j | 0 <= j < |fs|
      ensures KeepsNearer(m, zone, fs[k].feature, fs[j].feature, k <= j) <==>
        Nearer(m, zone, fs[k].feature, fs[j].feature, k <= j)
    {
      assert fs[k] in fs && fs[j] in fs;
      NearerKept(m, zone, fs[k].feature, fs[j].feature, k <= j);
    }
    NearestExactly(m, zone, fs, k);
  }

  /** Go, on 64-bit integers: no earlier feature rounds to the same double as the nearest, and none
      wraps around to something nearer. */
  lemma GoTargetingExactly(zone: int, fs: seq<AdsFeature>)
    requires fs != [] && Int64(zone) && forall f :: f in fs ==> Int64(f.feature)
    ensures forall j :: 0 <= j < |fs| ==> TrueDistance(zone, fs[j]) < TWO_64
    ensures var k := NearestIndex(Exact, zone, fs);
      NearestIndex(Float64Of64Bit, zone, fs) == k <==>
        forall j :: 0 <= j < |fs| ==> RoundsNoNearer(TrueDistance(zone, fs[k]), TrueDistance(zone, fs[j]), k <= j)
  {
    forall j | 0 <= j < |fs| ensures TrueDistance(zone, fs[j]) < TWO_64 {
      assert fs[j] in fs;
    }
    TargetingExactly(Float64Of64Bit, zone, fs);
    var k := NearestIndex(Exact, zone, fs);
    forall j | 0 <= j < |fs|
      ensures KeepsNearer(Float64Of64Bit, zone, fs[k].feature, fs[j].feature, k <= j) <==>
        RoundsNoNearer(TrueDistance(zone, fs[k]), TrueDistance(zone, fs[j]), k <= j)
    {
      assert fs[k] in fs && fs[j] in fs;
      KeepsNearerIs(zone, fs[k].feature, fs[j].feature, k <= j);
    }
  }

  /** Python: the nearest is the first of all, or beats the starting bound. */
  lemma PythonTargetingExactly(zone: int, fs: seq<AdsFeature>)
    requires fs != []
    ensures var k := NearestIndex(Exact, zone, fs);
      NearestIndex(ClampedAtMaxsize, zone, fs) == k <==> k == 0 || TrueDistance(zone, fs[k]) < MAXSIZE
  {
    TargetingExactly(ClampedAtMaxsize, zone, fs);
    var k := NearestIndex(Exact, zone, fs);
    var near := TrueDistance(zone, fs[k]);
    assert KeepsNearer(ClampedAtMaxsize, zone, fs[k].feature, fs[0].feature, k <= 0) <==> k == 0 || near < MAXSIZE;
  }

  /** C++, on 32-bit integers: nothing 2^31 or more away wraps around to something nearer than
      the nearest. */
  lemma CppTargetingExactly(zone: int, fs: seq<AdsFeature>)
    requires fs != [] && Int32(zone) && forall f :: f in fs ==> Int32(f.feature)
    ensures var k := NearestIndex(Exact, zone, fs);
      NearestIndex(Wrapped32Bit, zone, fs) == k <==>
        forall j :: 0 <= j < |fs| ==> WrapsNoNearer(TrueDistance(zone, fs[k]), TrueDistance(zone, fs[j]), k <= j)
  {
    TargetingExactly(Wrapped32Bit, zone, fs);
    var k := NearestIndex(Exact, zone, fs);
    forall j | 0 <= j < |fs|
      ensures KeepsNearer(Wrapped32Bit, zone, fs[k].feature, fs[j].feature, k <= j) <==>
        WrapsNoNearer(TrueDistance(zone, fs[k]), TrueDistance(zone, fs[j]), k <= j)
    {
      assert fs[k] in fs && fs[j] in fs;
      KeepsNearerIs(zone, fs[k].feature, fs[j].feature, k <= j);
    }
  }

  /** Within a language's reach, and so on the whole documented range, its choice is the true
      one. */
  lemma TargetingsAgree(m: Metric, zone: int, fs: seq<AdsFeature>)
    requires fs != [] && forall f :: f in fs ==> Fits(m, f.feature, zone) && Reaches(m, f.feature, zone)
    ensures NearestIndex(m, zone, fs) == NearestIndex(Exact, zone, fs)
  {
    var ds, es := Distances(m, zone, fs), Distances(Exact, zone, fs);
    forall i | 0 <= i < |fs| ensures ds[i] == es[i] {
      assert fs[i] in fs;
      DistanceIsTrue(m, fs[i].feature, zone);
    }
    assert ds == es;
  }

  lemma FarWrapped()
    ensures Distance(Wrapped32Bit, -1, -TWO_31) == TWO_31 - 1
    ensures Distance(Wrapped32Bit, TWO_31 - 1, -TWO_31) == 1
  {
  }

  lemma FarDouble()
    ensures Distance(Float64Of64Bit, -1, TWO_53) == Distance(Float64Of64Bit, 0, TWO_53) == TWO_53
  {
  }

  lemma FarWrappedDouble()
    ensures Distance(Float64Of64Bit, -TWO_31, TWO_63 - 1) < Distance(Float64Of64Bit, 0, TWO_63 - 1)
  {
    var bound := Shifted(0xF_FFFF_FFF0_0001, 11);
    assert bound == TWO_63 - TWO_31 + 2048;
    ShiftedHasDouble(0xF_FFFF_FFF0_0001, 11);
    Round53Exact(bound, false);
    Round53Increases(TWO_63 - TWO_31 + 1, false, bound, false);
    var below := Shifted(0x1F_FFFF_FFFF_FFFF, 10);
    assert below == TWO_63 - 1024;
    ShiftedHasDouble(0x1F_FFFF_FFFF_FFFF, 10);
    Round53Exact(below, false);
    Round53Increases(below, false, TWO_63 - 1, false);
  }

  /** Out of reach each of the three departs: 32-bit and 64-bit wrap-around make the farther look
      nearer, a double cannot tell 2^53 + 1 from 2^53, and nothing that far beats `sys.maxsize`. */
  lemma TargetingsDisagree()
    ensures var fs := [AdsFeature(1, -1), AdsFeature(2, TWO_31 - 1)];
      FirstNearest(Wrapped32Bit, -TWO_31, fs) == fs[1] && FirstNearest(Exact, -TWO_31, fs) == fs[0]
    ensures var fs := [AdsFeature(1, 0), AdsFeature(2, -TWO_31)];
      FirstNearest(Float64Of64Bit, TWO_63 - 1, fs) == fs[1] && FirstNearest(Exact, TWO_63 - 1, fs) == fs[0]
    ensures var fs := [AdsFeature(1, -1), AdsFeature(2, 0)];
      && FirstNearest(Float64Of64Bit, TWO_53, fs) == fs[0] && FirstNearest(Exact, TWO_53, fs) == fs[1]
      && FirstNearest(ClampedAtMaxsize, TWO_63, fs) == fs[0] && FirstNearest(Exact, TWO_63, fs) == fs[1]
  {
    FarWrapped();
    FarDouble();
    FarWrappedDouble();
  }
}
