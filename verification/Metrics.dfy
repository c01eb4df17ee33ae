// How far a feature is from the zone feature, in each language's own arithmetic.

module Metrics {
  datatype Metric = Exact | Float64Of64Bit | Wrapped32Bit | ClampedAtMaxsize

  const TWO_31: int := 0x8000_0000
  const TWO_32: int := 0x1_0000_0000
  const TWO_53: int := 0x20_0000_0000_0000
  const TWO_63: int := 0x8000_0000_0000_0000
  const TWO_64: int := 0x1_0000_0000_0000_0000

  function Abs(x: int): nat {
    if x < 0 then -x else x
  }

  /** Two's-complement wrap-around of a signed 32-bit difference. */
  function Wrap32(x: int): (r: int)
    ensures -TWO_31 <= r < TWO_31
    ensures -TWO_31 <= x < TWO_31 <==> r == x
    ensures (x - r) % TWO_32 == 0
  {
    (x + TWO_31) % TWO_32 - TWO_31
  }

  /** The same for 64 bits. */
  function Wrap64(x: int): (r: int)
    ensures -TWO_63 <= r < TWO_63
    ensures -TWO_63 <= x < TWO_63 <==> r == x
    ensures (x - r) % TWO_64 == 0
  {
    (x + TWO_63) % TWO_64 - TWO_63
  }

  /** Rounds a number of at most 54 bits to 53, ties to even. `sticky` says that a non-zero bit has
      been shifted out below `n`. */
  function RoundBit(n: nat, sticky: bool): (r: nat)
    requires n < 2 * TWO_53
    ensures r <= 2 * n && (n <= TWO_53 && !sticky ==> r == n)
  {
    if n < TWO_53 || n % 2 == 0 then n
    else if sticky || (n / 2) % 2 == 1 then n + 1
    else n - 1
  }

  /** Rounds to 53 significant bits (IEEE 754 section 4.3.1). */
  function Round53(n: nat, sticky: bool): (r: nat)
    ensures r <= 2 * n
    ensures n <= TWO_53 && !sticky ==> r == n
  {
    if n < 2 * TWO_53 then RoundBit(n, sticky) else 2 * Round53(n / 2, sticky || n % 2 == 1)
  }

  /** The double nearest to an integer. */
  function Float64(n: nat): nat {
    Round53(n, false)
  }

  /** `sys.maxsize`, the bound Python's search starts from. */
  const MAXSIZE: int := TWO_63 - 1

  function Distance(m: Metric, feature: int, zone: int): int {
    match m
    case Exact => Abs(feature - zone)
    case Float64Of64Bit => Float64(Abs(Wrap64(feature - zone)))
    // std::abs leaves the most negative int as it is
    case Wrapped32Bit => var d := Wrap32(zone - feature); if d == -TWO_31 then d else Abs(d)
    // a distance that does not beat the starting bound counts as the bound
    case ClampedAtMaxsize => if Abs(zone - feature) < MAXSIZE then Abs(zone - feature) else MAXSIZE
  }

  predicate Int32(x: int) {
    -TWO_31 <= x < TWO_31
  }

  predicate Int64(x: int) {
    -TWO_63 <= x < TWO_63
  }

  /** The range the documentation promises for features and zone features. */
  predicate Documented(x: int) {
    -100000 <= x <= 100000
  }

  // ---------- distances as functions of the true one ----------

  /** The feature and the zone feature are ones the language's integers hold. */
  predicate Fits(m: Metric, feature: int, zone: int) {
    match m
    case Exact => true
    case Float64Of64Bit => Int64(feature) && Int64(zone)
    case Wrapped32Bit => Int32(feature) && Int32(zone)
    case ClampedAtMaxsize => true
  }

  /** What 64 bits leave of a distance: beyond 2^63 the difference wraps around to what is
      missing to 2^64. */
  function Wrapped64(d: nat): nat
    requires d < TWO_64
  {
    if d <= TWO_63 then d else TWO_64 - d
  }

  /** Below this a true distance is, if the operands fit. */
  predicate Possible(m: Metric, d: nat) {
    (m.Float64Of64Bit? ==> d < TWO_64) && (m.Wrapped32Bit? ==> d < TWO_32)
  }

  /** What a true distance turns into. */
  function Seen(m: Metric, d: nat): int
    requires Possible(m, d)
  {
    match m
    case Exact => d
    case Float64Of64Bit => Float64(Wrapped64(d))
    case Wrapped32Bit => if d < TWO_31 then d else if d == TWO_31 then -TWO_31 else TWO_32 - d
    case ClampedAtMaxsize => if d < MAXSIZE then d else MAXSIZE
  }

  lemma WrapOnce(d: int)
    requires -TWO_32 < d < TWO_32
    ensures Wrap32(d) == if d < -TWO_31 then d + TWO_32 else if d < TWO_31 then d else d - TWO_32
  {
  }

  lemma WrappedSeen(feature: int, zone: int)
    requires Int32(feature) && Int32(zone)
    ensures Abs(feature - zone) < TWO_32
    ensures Distance(Wrapped32Bit, feature, zone) == Seen(Wrapped32Bit, Abs(feature - zone))
  {
    WrapOnce(zone - feature);
  }

  lemma WrapOnce64(d: int)
    requires -TWO_64 < d < TWO_64
    ensures Wrap64(d) == if d < -TWO_63 then d + TWO_64 else if d < TWO_63 then d else d - TWO_64
  {
  }

  lemma DoubleSeen(feature: int, zone: int)
    requires Int64(feature) && Int64(zone)
    ensures Abs(feature - zone) < TWO_64
    ensures Distance(Float64Of64Bit, feature, zone) == Seen(Float64Of64Bit, Abs(feature - zone))
  {
    WrapOnce64(feature - zone);
    assert Abs(Wrap64(feature - zone)) == Wrapped64(Abs(feature - zone));
  }

  lemma DistanceSeen(m: Metric, feature: int, zone: int)
    requires Fits(m, feature, zone)
    ensures Possible(m, Abs(feature - zone)) && Distance(m, feature, zone) == Seen(m, Abs(feature - zone))
  {
    match m
    case Exact =>
    case Float64Of64Bit => DoubleSeen(feature, zone);
    case Wrapped32Bit => WrappedSeen(feature, zone);
    case ClampedAtMaxsize =>
  }

  lemma RoundBitIncreases(n: nat, sticky: bool, n': nat, sticky': bool)
    requires n < n' || (n == n' && (sticky ==> sticky'))
    requires n' < 2 * TWO_53
    ensures RoundBit(n, sticky) <= RoundBit(n', sticky') <= 2 * TWO_53
  {
  }

  lemma {:induction false} Round53AtLeast(n: nat, sticky: bool)
    requires n >= 2 * TWO_53
    ensures Round53(n, sticky) >= 2 * TWO_53
  {
    if n / 2 >= 2 * TWO_53 {
      Round53AtLeast(n / 2, sticky || n % 2 == 1);
    }
  }

  lemma HalvesInOrder(n: nat, sticky: bool, n': nat, sticky': bool)
    requires n < n' || (n == n' && (sticky ==> sticky'))
    ensures n / 2 < n' / 2 || (n / 2 == n' / 2 && (sticky || n % 2 == 1 ==> sticky' || n' % 2 == 1))
  {
  }

  /** Rounding never turns an order round. */
  lemma {:induction false} Round53Increases(n: nat, sticky: bool, n': nat, sticky': bool)
    requires n < n' || (n == n' && (sticky ==> sticky'))
    ensures Round53(n, sticky) <= Round53(n', sticky')
    decreases n
  {
    if n' < 2 * TWO_53 {
      RoundBitIncreases(n, sticky, n', sticky');
    } else if n < 2 * TWO_53 {
      RoundBitIncreases(n, sticky, n, true);
      Round53AtLeast(n', sticky');
    } else {
      HalvesInOrder(n, sticky, n', sticky');
      Round53Increases(n / 2, sticky || n % 2 == 1, n' / 2, sticky' || n' % 2 == 1);
    }
  }

  /** 53 significant bits are enough for it. */
  predicate HasDouble(n: nat) {
    n < TWO_53 || (n % 2 == 0 && HasDouble(n / 2))
  }

  function Shifted(n: nat, k: nat): nat {
    if k == 0 then n else 2 * Shifted(n, k - 1)
  }

  lemma {:induction false} ShiftedHasDouble(n: nat, k: nat)
    requires n < TWO_53
    ensures HasDouble(Shifted(n, k))
  {
    if k > 0 {
      ShiftedHasDouble(n, k - 1);
    }
  }

  lemma {:induction false} Round53Exact(n: nat, sticky: bool)
    ensures Round53(n, sticky) == n <==> HasDouble(n)
  {
    if n >= 2 * TWO_53 {
      Round53Exact(n / 2, sticky || n % 2 == 1);
    }
  }

  // ---------- rounding is to the nearest, ties to even ----------

  const TWO_52: int := 0x10_0000_0000_0000

  /** 52 significant bits are enough for it: the last of 53 is 0. */
  predicate EvenDouble(n: nat) {
    n < TWO_52 || (n % 2 == 0 && EvenDouble(n / 2))
  }

  /** How far `d` is from `n`, in halves; a bit shifted out below `n` counts for one. */
  function HalvesOff(n: nat, sticky: bool, d: nat): nat {
    Abs(2 * n + (if sticky then 1 else 0) - 2 * d)
  }

  lemma RoundBitNearest(n: nat, sticky: bool, d: nat)
    requires TWO_53 <= n < 2 * TWO_53 && HasDouble(d)
    ensures var r := RoundBit(n, sticky);
      && HalvesOff(n, sticky, r) <= HalvesOff(n, sticky, d)
      && (HalvesOff(n, sticky, r) == HalvesOff(n, sticky, d) && d != r ==> r % 4 == 0)
  {
    assert d >= TWO_53 ==> d % 2 == 0;
  }

  lemma {:induction false} RoundedHasDouble(n: nat, sticky: bool)
    ensures HasDouble(Round53(n, sticky))
    ensures n >= TWO_53 ==> Round53(n, sticky) >= TWO_53
  {
    if n >= 2 * TWO_53 {
      RoundedHasDouble(n / 2, sticky || n % 2 == 1);
    } else if n >= TWO_53 {
      var r := RoundBit(n, sticky);
      assert r % 2 == 0 && r / 2 <= TWO_53;
      assert HasDouble(r / 2);
    }
  }

  lemma TwiceEven(q: nat)
    requires EvenDouble(q)
    ensures EvenDouble(2 * q)
  {
  }

  lemma FourthsEven(r: nat)
    requires r % 4 == 0 && r <= 2 * TWO_53
    ensures EvenDouble(r)
  {
    var q := r / 4;
    if q == TWO_52 {
      assert EvenDouble(TWO_52 / 2);
    }
    TwiceEven(q);
    TwiceEven(2 * q);
  }

  /** Two even numbers, `2 * p` and `2 * q`, differ from `n` and a half as they do from anything
      between `n` and `n + 1`. */
  lemma BetweenWholes(n: int, y: int, p: int, q: int)
    requires 4 * n < y < 4 * n + 4
    requires Abs(2 * n + 1 - 4 * p) <= Abs(2 * n + 1 - 4 * q)
    ensures p == q || Abs(y - 8 * p) < Abs(y - 8 * q)
  {
    if p < q {
      assert 2 * n + 1 <= 2 * (p + q);
      assert n + 1 <= p + q;
    } else if q < p {
      assert 2 * (p + q) <= 2 * n + 1;
      assert p + q <= n;
    }
  }

  /** Of two even numbers the one nearer to the half is, doubled, nearer to the whole; and they are as
      near only if they were. */
  lemma HalfNearest(n: nat, sticky: bool, p: nat, q: nat)
    requires var half, rest := n / 2, sticky || n % 2 == 1;
      HalvesOff(half, rest, 2 * p) <= HalvesOff(half, rest, 2 * q)
    ensures HalvesOff(n, sticky, 4 * p) <= HalvesOff(n, sticky, 4 * q)
    ensures HalvesOff(n, sticky, 4 * p) == HalvesOff(n, sticky, 4 * q) && p != q ==>
      var half, rest := n / 2, sticky || n % 2 == 1; HalvesOff(half, rest, 2 * p) == HalvesOff(half, rest, 2 * q)
  {
    if sticky || n % 2 == 1 {
      BetweenWholes(n / 2, 2 * n + (if sticky then 1 else 0), p, q);
    }
  }

  lemma LargeHasEvenHalf(d: nat)
    requires HasDouble(d) && d >= 2 * TWO_53
    ensures d % 4 == 0 && HasDouble(d / 2)
  {
    var half := d / 2;
    assert d == 2 * half && HasDouble(half) && half >= TWO_53;
    assert half % 2 == 0;
  }

  lemma RoundedLargeEven(n: nat, sticky: bool)
    requires n >= TWO_53
    ensures Round53(n, sticky) % 2 == 0
  {
    RoundedHasDouble(n, sticky);
  }

  lemma TopHasDouble()
    ensures HasDouble(2 * TWO_53)
  {
    assert HasDouble(TWO_53);
  }

  /** What holds of the half holds of the whole. */
  lemma NearestUp(n: nat, sticky: bool, d: nat)
    requires n >= 2 * TWO_53 && d >= 2 * TWO_53 && HasDouble(d)
    requires var half, rest := n / 2, sticky || n % 2 == 1;
      var r := Round53(half, rest);
      && HalvesOff(half, rest, r) <= HalvesOff(half, rest, d / 2)
      && (HalvesOff(half, rest, r) == HalvesOff(half, rest, d / 2) && d / 2 != r ==> EvenDouble(r))
    ensures var r := Round53(n, sticky);
      && HalvesOff(n, sticky, r) <= HalvesOff(n, sticky, d)
      && (HalvesOff(n, sticky, r) == HalvesOff(n, sticky, d) && d != r ==> EvenDouble(r))
  {
    var half, rest := n / 2, sticky || n % 2 == 1;
    var r := Round53(half, rest);
    LargeHasEvenHalf(d);
    RoundedLargeEven(half, rest);
    var p, q := r / 2, d / 4;
    assert r == 2 * p && d / 2 == 2 * q && Round53(n, sticky) == 4 * p && d == 4 * q;
    HalfNearest(n, sticky, p, q);
    if EvenDouble(r) {
      TwiceEven(r);
    }
  }

  /** No number with 53 significant bits is nearer, and of two as near the even one is taken. */
  lemma {:induction false} Round53Nearest(n: nat, sticky: bool, d: nat)
    requires HasDouble(d) && (sticky ==> n >= TWO_53)
    ensures var r := Round53(n, sticky);
      && HalvesOff(n, sticky, r) <= HalvesOff(n, sticky, d)
      && (HalvesOff(n, sticky, r) == HalvesOff(n, sticky, d) && d != r ==> EvenDouble(r))
    decreases n
  {
    if TWO_53 <= n < 2 * TWO_53 {
      RoundBitNearest(n, sticky, d);
      if RoundBit(n, sticky) % 4 == 0 {
        FourthsEven(RoundBit(n, sticky));
      }
    } else if n >= 2 * TWO_53 {
      TopHasDouble();
      var far := if d < 2 * TWO_53 then 2 * TWO_53 else d;
      LargeHasEvenHalf(far);
      Round53Nearest(n / 2, sticky || n % 2 == 1, far / 2);
      NearestUp(n, sticky, far);
    }
  }

  /** The double of a distance is the nearest there is. */
  lemma Float64Nearest(n: nat, d: nat)
    requires HasDouble(d)
    ensures HasDouble(Float64(n)) && Abs(n - Float64(n)) <= Abs(n - d)
    ensures Abs(n - Float64(n)) == Abs(n - d) && d != Float64(n) ==> EvenDouble(Float64(n))
  {
    RoundedHasDouble(n, false);
    Round53Nearest(n, false, d);
  }

  /** The guard under which a language computes the true distance. */
  predicate Reaches(m: Metric, feature: int, zone: int) {
    match m
    case Exact => true
    case Float64Of64Bit => Abs(feature - zone) <= TWO_63 && HasDouble(Abs(feature - zone))
    case Wrapped32Bit => Abs(feature - zone) < TWO_31
    case ClampedAtMaxsize => Abs(feature - zone) <= MAXSIZE
  }

  /** A difference beyond 64 bits wraps around to one that no rounding brings back. */
  lemma DoubleIsTrue(feature: int, zone: int)
    ensures Distance(Float64Of64Bit, feature, zone) == Abs(feature - zone)
      <==> Reaches(Float64Of64Bit, feature, zone)
  {
    var d := Abs(feature - zone);
    var w := Abs(Wrap64(feature - zone));
    if d > TWO_63 {
      Round53Increases(w, false, TWO_63, false);
      Round53Exact(TWO_63, false);
    } else {
      WrapOnce64(feature - zone);
      assert w == d;
      Round53Exact(d, false);
    }
  }

  /** Each language's distance is the true one exactly where it reaches. */
  lemma DistanceIsTrue(m: Metric, feature: int, zone: int)
    requires m.Wrapped32Bit? ==> Int32(feature) && Int32(zone)
    ensures Distance(m, feature, zone) == Distance(Exact, feature, zone) <==> Reaches(m, feature, zone)
  {
    match m
    case Exact =>
    case Float64Of64Bit => DoubleIsTrue(feature, zone);
    case Wrapped32Bit => WrappedSeen(feature, zone);
    case ClampedAtMaxsize =>
  }

  /** The documented range is within every reach. */
  lemma DocumentedInReach(m: Metric, feature: int, zone: int)
    requires Documented(feature) && Documented(zone)
    ensures Fits(m, feature, zone) && Reaches(m, feature, zone)
  {
  }

  /** A distance of 2^31 is the most negative integer, and one further away wraps to what is
      missing to 2^32. */
  predicate WrapsNoNearer(near: nat, far: nat, first: bool) {
    far < TWO_31 || near == far || near == TWO_31 ||
    (near < TWO_31 < far && (near + far < TWO_32 || (first && near + far == TWO_32)))
  }

  /** Rounding must tell the two apart unless the nearer comes first, and must not if the farther
      wraps around to something nearer. */
  predicate RoundsNoNearer(near: nat, far: nat, first: bool)
    requires near < TWO_64 && far < TWO_64
  {
    var n, f := Wrapped64(near), Wrapped64(far);
    if n <= f then first || Float64(n) != Float64(f) else first && Float64(n) == Float64(f)
  }

  /** Whether the metric still puts a nearest distance before another; `first` says that the
      nearest one comes earlier in the list. */
  predicate KeepsOrder(m: Metric, near: nat, far: nat, first: bool)
    requires Possible(m, near) && Possible(m, far)
  {
    match m
    case Exact => true
    case Float64Of64Bit => RoundsNoNearer(near, far, first)
    case Wrapped32Bit => WrapsNoNearer(near, far, first)
    case ClampedAtMaxsize => first || near < MAXSIZE
  }

  lemma RoundingKept(near: nat, far: nat, first: bool)
    requires near < TWO_64 && far < TWO_64
    ensures var n, f := Float64(Wrapped64(near)), Float64(Wrapped64(far));
      RoundsNoNearer(near, far, first) <==> n < f || (n == f && first)
  {
    var n, f := Wrapped64(near), Wrapped64(far);
    if n <= f {
      Round53Increases(n, false, f, false);
    } else {
      Round53Increases(f, false, n, false);
    }
  }

  lemma OrderKept(m: Metric, near: nat, far: nat, first: bool)
    requires near < far || (near == far && first)
    requires Possible(m, near) && Possible(m, far)
    ensures KeepsOrder(m, near, far, first) <==>
      Seen(m, near) < Seen(m, far) || (Seen(m, near) == Seen(m, far) && first)
  {
    if m.Float64Of64Bit? {
      RoundingKept(near, far, first);
    }
  }

  /** Whether `f` is nearer than `g`, or as near and earlier. */
  predicate Nearer(m: Metric, zone: int, f: int, g: int, first: bool) {
    Distance(m, f, zone) < Distance(m, g, zone) || (Distance(m, f, zone) == Distance(m, g, zone) && first)
  }

  /** Whether the metric keeps `f`, which is truly nearer, before `g`. */
  predicate KeepsNearer(m: Metric, zone: int, f: int, g: int, first: bool) {
    && Possible(m, Abs(f - zone)) && Possible(m, Abs(g - zone))
    && KeepsOrder(m, Abs(f - zone), Abs(g - zone), first)
  }

  /** Which for 32 and 64 bits says this. */
  lemma KeepsNearerIs(zone: int, f: int, g: int, first: bool)
    ensures Int32(zone) && Int32(f) && Int32(g) ==>
      (KeepsNearer(Wrapped32Bit, zone, f, g, first) <==> WrapsNoNearer(Abs(f - zone), Abs(g - zone), first))
    ensures Int64(zone) && Int64(f) && Int64(g) ==>
      && Abs(f - zone) < TWO_64 && Abs(g - zone) < TWO_64
      && (KeepsNearer(Float64Of64Bit, zone, f, g, first) <==> RoundsNoNearer(Abs(f - zone), Abs(g - zone), first))
  {
  }

  lemma NearerKept(m: Metric, zone: int, f: int, g: int, first: bool)
    requires Fits(m, f, zone) && Fits(m, g, zone) && Nearer(Exact, zone, f, g, first)
    ensures KeepsNearer(m, zone, f, g, first) <==> Nearer(m, zone, f, g, first)
  {
    DistanceSeen(m, f, zone);
    DistanceSeen(m, g, zone);
    OrderKept(m, Abs(f - zone), Abs(g - zone), first);
  }
}
