/** internal/tools/powerup_cost.go: the stardust table, the price of a climb, and what the modifier flags do to it.
    Multipliers are exact rationals here. */
module PowerupCost {
  import opened Wrappers
  import opened Arithmetic
  import opened Gamemaster

  const PRE_XL_STEPS := 78
  const XL_STEPS := 20
  const TOTAL_STEPS := PRE_XL_STEPS + XL_STEPS

  /** So many half-level steps at one price. */
  datatype Bucket = Bucket(steps: nat, stardust: nat)

  const PRE_XL := [
    Bucket(4, 200), Bucket(4, 400), Bucket(4, 600), Bucket(4, 800), Bucket(4, 1000),
    Bucket(4, 1300), Bucket(4, 1600), Bucket(4, 1900), Bucket(4, 2200), Bucket(4, 2500),
    Bucket(4, 3000), Bucket(4, 3500), Bucket(4, 4000), Bucket(4, 4500), Bucket(4, 5000),
    Bucket(4, 6000), Bucket(4, 7000), Bucket(4, 8000), Bucket(4, 9000), Bucket(2, 10000)]

  const XL_ERA := [
    Bucket(2, 10000), Bucket(4, 11000), Bucket(4, 12000), Bucket(4, 13000), Bucket(4, 14000), Bucket(2, 15000)]

  // ---------------------------------------------------------------- the table

  function Repeat(n: nat, v: nat): seq<nat> {
    seq(n, _ => v)
  }

  function Expand(buckets: seq<Bucket>, k: nat): seq<nat>
    requires k <= |buckets|
  {
    if k == 0 then [] else Expand(buckets, k - 1) + Repeat(buckets[k - 1].steps, buckets[k - 1].stardust)
  }

  function Table(): seq<nat> {
    Expand(PRE_XL, |PRE_XL|) + Expand(XL_ERA, |XL_ERA|)
  }

  method AppendBuckets(out0: seq<nat>, buckets: seq<Bucket>) returns (out: seq<nat>)
    ensures out == out0 + Expand(buckets, |buckets|)
  {
    out := out0;
    for k := 0 to |buckets|
      invariant out == out0 + Expand(buckets, k)
    {
      var b := buckets[k];
      for n := 0 to b.steps
        invariant out == out0 + Expand(buckets, k) + Repeat(n, b.stardust)
      {
        out := out + [b.stardust];
        assert Repeat(n + 1, b.stardust) == Repeat(n, b.stardust) + [b.stardust];
      }
    }
  }

  method BuildPowerupStardustTable() returns (out: seq<nat>)
    ensures out == Table()
  {
    out := AppendBuckets([], PRE_XL);
    out := AppendBuckets(out, XL_ERA);
  }

  /** Total price of the steps in [from, to). */
  function Sum(xs: seq<nat>, from: nat, to: nat): nat
    requires from <= to <= |xs|
  {
    if from == to then 0 else Sum(xs, from, to - 1) + xs[to - 1]
  }

  function Steps(buckets: seq<Bucket>, k: nat): nat
    requires k <= |buckets|
  {
    if k == 0 then 0 else Steps(buckets, k - 1) + buckets[k - 1].steps
  }

  function Price(buckets: seq<Bucket>, k: nat): nat
    requires k <= |buckets|
  {
    if k == 0 then 0 else Price(buckets, k - 1) + buckets[k - 1].steps * buckets[k - 1].stardust
  }

  /** The first `k` prices are whole hundreds. */
  predicate Hundreds(buckets: seq<Bucket>, k: nat)
    requires k <= |buckets|
  {
    k == 0 || (Hundreds(buckets, k - 1) && buckets[k - 1].stardust % 100 == 0)
  }

  lemma {:induction false} SumOfConcat(a: seq<nat>, b: seq<nat>, k: nat)
    requires k <= |b|
    ensures Sum(a + b, 0, |a| + k) == Sum(a, 0, |a|) + Sum(b, 0, k)
  {
    if k == 0 {
      SumOfPrefix(a, b, |a|);
    } else {
      SumOfConcat(a, b, k - 1);
    }
  }

  lemma {:induction false} SumOfPrefix(a: seq<nat>, b: seq<nat>, k: nat)
    requires k <= |a|
    ensures Sum(a + b, 0, k) == Sum(a, 0, k)
  {
    if k > 0 { SumOfPrefix(a, b, k - 1); }
  }

  lemma {:induction false} SumOfRepeat(n: nat, v: nat, k: nat)
    requires k <= n
    ensures Sum(Repeat(n, v), 0, k) == k * v
  {
    if k > 0 {
      SumOfRepeat(n, v, k - 1);
      Distribute(v, k - 1);
    }
  }

  lemma {:induction false} ExpandTotals(buckets: seq<Bucket>, k: nat)
    requires k <= |buckets|
    ensures |Expand(buckets, k)| == Steps(buckets, k)
    ensures Sum(Expand(buckets, k), 0, |Expand(buckets, k)|) == Price(buckets, k)
    ensures Hundreds(buckets, k) ==> forall x <- Expand(buckets, k) :: x % 100 == 0
  {
    if k > 0 {
      ExpandTotals(buckets, k - 1);
      var b := buckets[k - 1];
      SumOfConcat(Expand(buckets, k - 1), Repeat(b.steps, b.stardust), b.steps);
      SumOfRepeat(b.steps, b.stardust, b.steps);
    }
  }

  lemma PreXlTotals()
    ensures Steps(PRE_XL, 20) == 78 && Price(PRE_XL, 20) == 270_000
  {
    PreXlTwelve();
    assert Steps(PRE_XL, 16) == 64 && Price(PRE_XL, 16) == 154_000;
  }

  lemma PreXlTwelve()
    ensures Steps(PRE_XL, 12) == 48 && Price(PRE_XL, 12) == 76_000
  {
    assert Steps(PRE_XL, 4) == 16 && Price(PRE_XL, 4) == 8_000;
    assert Steps(PRE_XL, 8) == 32 && Price(PRE_XL, 8) == 31_200;
  }

  lemma XlTotals()
    ensures Steps(XL_ERA, 6) == 20 && Price(XL_ERA, 6) == 250_000
  {
    assert Steps(XL_ERA, 3) == 10 && Price(XL_ERA, 3) == 112_000;
  }

  lemma JoinedTotals(pre: seq<Bucket>, xl: seq<Bucket>)
    requires Hundreds(pre, |pre|) && Hundreds(xl, |xl|)
    ensures var a, b := Expand(pre, |pre|), Expand(xl, |xl|);
            && |a| == Steps(pre, |pre|) && |b| == Steps(xl, |xl|)
            && Sum(a + b, 0, |a|) == Price(pre, |pre|) && Sum(a + b, |a|, |a| + |b|) == Price(xl, |xl|)
            && forall x <- a + b :: x % 100 == 0
  {
    var a, b := Expand(pre, |pre|), Expand(xl, |xl|);
    ExpandTotals(pre, |pre|);
    ExpandTotals(xl, |xl|);
    SumOfPrefix(a, b, |a|);
    SumOfConcat(a, b, |b|);
    SumSplits(a + b, 0, |a|, |a| + |b|);
  }

  /** The table has one entry per half-level step, all of them multiples of 100, and the two eras cost what the
      tool's description says. */
  lemma TableTotals()
    ensures |Table()| == TOTAL_STEPS && (forall x <- Table() :: x % 100 == 0)
    ensures Sum(Table(), 0, PRE_XL_STEPS) == 270_000 && Sum(Table(), PRE_XL_STEPS, TOTAL_STEPS) == 250_000
  {
    PreXlTotals();
    XlTotals();
    PreXlHundreds();
    XlHundreds();
    JoinedTotals(PRE_XL, XL_ERA);
  }

  lemma PreXlHundreds()
    ensures Hundreds(PRE_XL, 20)
  {
    assert Hundreds(PRE_XL, 5);
    assert Hundreds(PRE_XL, 10);
    assert Hundreds(PRE_XL, 15);
  }

  lemma XlHundreds()
    ensures Hundreds(XL_ERA, 6)
  {
  }

  /** The price of step `i` in closed form: every four steps it rises by 200 up to 1,000, by 300 up to 2,500, by 500 up
      to 5,000 and by 1,000 from there on. */
  function StepPrice(i: nat): nat {
    TierPrice(i / 4)
  }

  function TierPrice(tier: nat): nat {
    if tier < 5 then 200 * (tier + 1)
    else if tier < 10 then 1000 + 300 * (tier - 4)
    else if tier < 15 then 2500 + 500 * (tier - 9)
    else if tier < 19 then 5000 + 1000 * (tier - 14)
    else 10000 + 1000 * (tier - 19)
  }

  /** The bucket holds the prices of at most four steps, starting with step `at`. */
  predicate Prices(b: Bucket, at: nat) {
    && b.steps <= 4
    && (b.steps > 0 ==> StepPrice(at) == b.stardust) && (b.steps > 1 ==> StepPrice(at + 1) == b.stardust)
    && (b.steps > 2 ==> StepPrice(at + 2) == b.stardust) && (b.steps > 3 ==> StepPrice(at + 3) == b.stardust)
  }

  /** The first `k` buckets hold the prices of the steps from `from` on. */
  predicate Priced(buckets: seq<Bucket>, k: nat, from: nat)
    requires k <= |buckets|
  {
    k == 0 || (Priced(buckets, k - 1, from) && Prices(buckets[k - 1], from + Steps(buckets, k - 1)))
  }

  lemma {:induction false} ExpandIsPriced(buckets: seq<Bucket>, k: nat, from: nat)
    requires k <= |buckets| && Priced(buckets, k, from)
    ensures |Expand(buckets, k)| == Steps(buckets, k)
    ensures forall i :: 0 <= i < |Expand(buckets, k)| ==> Expand(buckets, k)[i] == StepPrice(from + i)
  {
    if k > 0 {
      ExpandIsPriced(buckets, k - 1, from);
      BucketAppends(Expand(buckets, k - 1), buckets[k - 1], from);
    }
  }

  lemma BucketAppends(done: seq<nat>, b: Bucket, from: nat)
    requires Prices(b, from + |done|) && forall i :: 0 <= i < |done| ==> done[i] == StepPrice(from + i)
    ensures var all := done + Repeat(b.steps, b.stardust);
            |all| == |done| + b.steps && forall i :: 0 <= i < |all| ==> all[i] == StepPrice(from + i)
  {
    var all := done + Repeat(b.steps, b.stardust);
    forall i | 0 <= i < |all| ensures all[i] == StepPrice(from + i) {
      if i >= |done| {
        var n := i - |done|;
        assert n == 0 || n == 1 || n == 2 || n == 3;
        assert from + i == from + |done| + n;
      }
    }
  }

  lemma PreXlTier(tier: nat)
    requires tier < |PRE_XL|
    ensures |PRE_XL| == 20 && PRE_XL[tier] == Bucket(if tier < 19 then 4 else 2, TierPrice(tier))
  {
  }

  lemma {:induction false} PreXlPriced(k: nat)
    requires k <= |PRE_XL|
    ensures Steps(PRE_XL, k) == (if k < 20 then 4 * k else 78) && Priced(PRE_XL, k, 0)
  {
    if k > 0 {
      PreXlPriced(k - 1);
      PreXlTier(k - 1);
      SameTier(PRE_XL[k - 1], k - 1, 4 * (k - 1));
    }
  }

  lemma SameTier(b: Bucket, tier: nat, at: nat)
    requires b.steps <= 4 && b.stardust == TierPrice(tier) && 4 * tier <= at && at + b.steps <= 4 * tier + 4
    ensures Prices(b, at)
  {
    if b.steps > 0 { InTier(at, tier); }
    if b.steps > 1 { InTier(at + 1, tier); }
    if b.steps > 2 { InTier(at + 2, tier); }
    if b.steps > 3 { InTier(at + 3, tier); }
  }

  lemma InTier(i: nat, tier: nat)
    requires 4 * tier <= i < 4 * tier + 4
    ensures StepPrice(i) == TierPrice(tier)
  {
    assert i / 4 == tier;
  }

  lemma XlTier(tier: nat)
    requires tier < |XL_ERA|
    ensures |XL_ERA| == 6 && XL_ERA[tier] == Bucket(if tier == 0 || tier == 5 then 2 else 4, TierPrice(tier + 19))
  {
  }

  lemma {:induction false} XlPriced(k: nat)
    requires k <= |XL_ERA|
    ensures Steps(XL_ERA, k) == (if k == 0 then 0 else if k < 6 then 4 * k - 2 else 20) && Priced(XL_ERA, k, 78)
  {
    if k > 0 {
      XlPriced(k - 1);
      XlTier(k - 1);
      SameTier(XL_ERA[k - 1], k + 18, 78 + Steps(XL_ERA, k - 1));
    }
  }

  /** Every step has the price of its level. */
  lemma TableIsClosedForm()
    ensures |Table()| == TOTAL_STEPS && forall i :: 0 <= i < TOTAL_STEPS ==> Table()[i] == StepPrice(i)
  {
    var m, n := |PRE_XL|, |XL_ERA|;
    PreXlPriced(m);
    XlPriced(n);
    ErasPriced(PRE_XL, XL_ERA);
  }

  lemma ErasPriced(pre: seq<Bucket>, xl: seq<Bucket>)
    requires Priced(pre, |pre|, 0) && Steps(pre, |pre|) == PRE_XL_STEPS
    requires Priced(xl, |xl|, PRE_XL_STEPS) && Steps(xl, |xl|) == XL_STEPS
    ensures var all := Expand(pre, |pre|) + Expand(xl, |xl|);
            |all| == TOTAL_STEPS && forall i :: 0 <= i < TOTAL_STEPS ==> all[i] == StepPrice(i)
  {
    ExpandIsPriced(pre, |pre|, 0);
    ExpandIsPriced(xl, |xl|, PRE_XL_STEPS);
    var a, b := Expand(pre, |pre|), Expand(xl, |xl|);
    forall i | 0 <= i < TOTAL_STEPS ensures (a + b)[i] == StepPrice(i) {
      if i < PRE_XL_STEPS {
        assert a[i] == StepPrice(0 + i);
      } else {
        var n := i - PRE_XL_STEPS;
        assert b[n] == StepPrice(PRE_XL_STEPS + n);
      }
    }
  }

  /** The first `k` buckets get dearer one after the other. */
  predicate Ascending(buckets: seq<Bucket>, k: nat)
    requires k <= |buckets|
  {
    k <= 1 || (Ascending(buckets, k - 1) && buckets[k - 2].stardust <= buckets[k - 1].stardust)
  }

  ghost predicate NonDecreasing(xs: seq<nat>) {
    forall i, j :: 0 <= i < j < |xs| ==> xs[i] <= xs[j]
  }

  lemma {:induction false} ExpandAscends(buckets: seq<Bucket>, k: nat)
    requires 0 < k <= |buckets| && Ascending(buckets, k)
    ensures forall x <- Expand(buckets, k) :: buckets[0].stardust <= x <= buckets[k - 1].stardust
    ensures NonDecreasing(Expand(buckets, k))
    ensures buckets[0].stardust <= buckets[k - 1].stardust
  {
    if k > 1 {
      ExpandAscends(buckets, k - 1);
      var b := buckets[k - 1];
      JoinAscending(Expand(buckets, k - 1), Repeat(b.steps, b.stardust), b.stardust);
    }
  }

  /** A later step never costs less. */
  lemma PricesNeverFall()
    ensures NonDecreasing(Table())
  {
    PreXlAscends();
    XlAscends();
    JoinedAscends(PRE_XL, XL_ERA);
  }

  lemma JoinedAscends(pre: seq<Bucket>, xl: seq<Bucket>)
    requires pre != [] && xl != [] && Ascending(pre, |pre|) && Ascending(xl, |xl|)
    requires pre[|pre| - 1].stardust <= xl[0].stardust
    ensures NonDecreasing(Expand(pre, |pre|) + Expand(xl, |xl|))
  {
    ExpandAscends(pre, |pre|);
    ExpandAscends(xl, |xl|);
    JoinAscending(Expand(pre, |pre|), Expand(xl, |xl|), xl[0].stardust);
  }

  lemma XlAscends()
    ensures Ascending(XL_ERA, 6)
  {
  }

  lemma PreXlAscends()
    ensures Ascending(PRE_XL, 20)
  {
    assert Ascending(PRE_XL, 5);
    assert Ascending(PRE_XL, 10);
    assert Ascending(PRE_XL, 15);
  }

  lemma JoinAscending(a: seq<nat>, b: seq<nat>, v: nat)
    requires NonDecreasing(a) && NonDecreasing(b)
    requires (forall x <- a :: x <= v) && (forall x <- b :: v <= x)
    ensures NonDecreasing(a + b)
  {
    assert forall i :: 0 <= i < |a| ==> a[i] in a;
    assert forall i :: 0 <= i < |b| ==> b[i] in b;
  }

  lemma {:induction false} SumSplits(xs: seq<nat>, a: nat, b: nat, c: nat)
    requires a <= b <= c <= |xs|
    ensures Sum(xs, a, c) == Sum(xs, a, b) + Sum(xs, b, c)
  {
    if b < c { SumSplits(xs, a, b, c - 1); }
  }

  lemma {:induction false} SumOfHundreds(xs: seq<nat>, a: nat, b: nat) returns (n: nat)
    requires a <= b <= |xs| && forall x <- xs :: x % 100 == 0
    ensures Sum(xs, a, b) == 100 * n
  {
    n := 0;
    if a < b {
      n := SumOfHundreds(xs, a, b - 1);
      assert xs[b - 1] in xs;
      n := n + xs[b - 1] / 100;
    }
  }

  // ---------------------------------------------------------------- the range

  datatype RangeError = InvalidLevel | LevelRangeEmpty

  const MAX_DOUBLED := 100
  const MIN_DOUBLED := 2
  const HALF_GRID_TOLERANCE := 0.000000001

  /** math.Round: half away from zero. */
  function Round(x: real): int {
    if x >= 0.0 then (x + 0.5).Floor else -((0.5 - x).Floor)
  }

  function Distance(x: real, y: real): real {
    if x >= y then x - y else y - x
  }

  function DoubleLevelOnHalfGrid(level: real): Option<nat> {
    var doubled := Round(level * 2.0);
    if Distance(level * 2.0, doubled as real) > HALF_GRID_TOLERANCE || doubled < MIN_DOUBLED then None
    else Some(doubled)
  }

  function ValidatePowerupRange(fromLevel: real, toLevel: real): Result<(int, int), RangeError> {
    match DoubleLevelOnHalfGrid(fromLevel)
    case None => Err(InvalidLevel)
    case Some(fromDoubled) =>
      match DoubleLevelOnHalfGrid(toLevel)
      case None => Err(InvalidLevel)
      case Some(toDoubled) =>
        if fromDoubled > MAX_DOUBLED || toDoubled > MAX_DOUBLED then Err(InvalidLevel)
        else if toDoubled <= fromDoubled then Err(LevelRangeEmpty)
        else Ok((fromDoubled - MIN_DOUBLED, toDoubled - MIN_DOUBLED))
  }

  /** Twice the level is within the tolerance of the grid point `doubled`. */
  predicate NearGrid(level: real, doubled: int) {
    -0.000000001 <= level * 2.0 - doubled as real <= 0.000000001
  }

  predicate OnTable(doubled: int) {
    2 <= doubled <= 100
  }

  /** A climb is priced exactly when its ends are near grid levels a < b in 1..50, and then it runs over the steps
      between them, all of which the table has. It is called empty exactly when its ends are near grid levels of
      that range and do not ascend. */
  lemma RangeIsExact(fromLevel: real, toLevel: real)
    ensures var r := ValidatePowerupRange(fromLevel, toLevel);
            && (r.Ok? <==>
                  exists a, b :: OnTable(a) && OnTable(b) && NearGrid(fromLevel, a) && NearGrid(toLevel, b) && a < b)
            && (r == Err(LevelRangeEmpty) <==>
                  exists a, b :: OnTable(a) && OnTable(b) && NearGrid(fromLevel, a) && NearGrid(toLevel, b) && b <= a)
    ensures forall a, b :: OnTable(a) && OnTable(b) && NearGrid(fromLevel, a) && NearGrid(toLevel, b) && a < b ==>
              && ValidatePowerupRange(fromLevel, toLevel) == Ok((a - MIN_DOUBLED, b - MIN_DOUBLED))
              && 0 <= a - MIN_DOUBLED < b - MIN_DOUBLED <= TOTAL_STEPS
  {
    forall a, b | OnTable(a) && OnTable(b) && NearGrid(fromLevel, a) && NearGrid(toLevel, b)
      ensures ValidatePowerupRange(fromLevel, toLevel) ==
              if a < b then Ok((a - MIN_DOUBLED, b - MIN_DOUBLED)) else Err(LevelRangeEmpty)
    {
      RoundNear(fromLevel * 2.0, a);
      RoundNear(toLevel * 2.0, b);
    }
    var r := ValidatePowerupRange(fromLevel, toLevel);
    if r.Ok? || r == Err(LevelRangeEmpty) { RangeNeedsGrid(fromLevel, toLevel); }
  }

  lemma RangeNeedsGrid(fromLevel: real, toLevel: real)
    requires var r := ValidatePowerupRange(fromLevel, toLevel); r.Ok? || r == Err(LevelRangeEmpty)
    ensures var a, b := Round(fromLevel * 2.0), Round(toLevel * 2.0);
            && OnTable(a) && OnTable(b) && NearGrid(fromLevel, a) && NearGrid(toLevel, b)
            && (ValidatePowerupRange(fromLevel, toLevel).Ok? <==> a < b)
  {
  }

  lemma RoundNear(x: real, n: int)
    requires Distance(x, n as real) <= HALF_GRID_TOLERANCE
    ensures Round(x) == n
  {
    if x >= 0.0 {
      assert n as real <= x + 0.5 < n as real + 1.0;
    } else {
      assert (-n) as real <= 0.5 - x < (-n) as real + 1.0;
    }
  }

  lemma RangeIsSafe(fromLevel: real, toLevel: real)
    requires ValidatePowerupRange(fromLevel, toLevel).Ok?
    ensures var (f, t) := ValidatePowerupRange(fromLevel, toLevel).value; 0 <= f < t <= TOTAL_STEPS
  {
  }

  // ---------------------------------------------------------------- the flags

  const SHADOW := 1.2
  const PURIFIED := 0.9
  const LUCKY := 0.5

  function Multiplier(o: Options): real {
    (if o.shadow then SHADOW else 1.0) * (if o.purified then PURIFIED else 1.0) * (if o.lucky then LUCKY else 1.0)
  }

  function ScaleStardust(baseline: nat, multiplier: real): int {
    if multiplier == 1.0 then baseline
    else if multiplier == SHADOW then baseline * 12 / 10
    else if multiplier == PURIFIED then baseline * 9 / 10
    else if multiplier == LUCKY then baseline / 2
    else Round(baseline as real * multiplier)
  }

  /** The multiplier in hundredths. */
  function Percent(o: Options): nat {
    if o.shadow then
      if o.purified then if o.lucky then 54 else 108 else if o.lucky then 60 else 120
    else
      if o.purified then if o.lucky then 45 else 90 else if o.lucky then 50 else 100
  }

  lemma MultiplierIsPercent(o: Options)
    ensures Multiplier(o) == Percent(o) as real / 100.0
  {
  }

  /** On whole hundreds no flag combination needs rounding. */
  lemma ScalingIsExact(n: nat, o: Options)
    ensures ScaleStardust(100 * n, Multiplier(o)) == Percent(o) * n
  {
    MultiplierIsPercent(o);
    match (o.shadow, o.purified, o.lucky)
    case (true, true, true) => RoundInteger(54 * n);
    case (true, true, false) => RoundInteger(108 * n);
    case (true, false, true) => RoundInteger(60 * n);
    case (false, true, true) => RoundInteger(45 * n);
    case _ =>
  }

  lemma RoundInteger(n: nat)
    ensures Round(n as real) == n
  {
  }

  // ---------------------------------------------------------------- a climb

  /** Steps at or above level 40 among those in [from, to). */
  function XlStepsIn(from: nat, to: nat): nat
    requires from <= to
  {
    if from == to then 0 else XlStepsIn(from, to - 1) + (if to - 1 >= PRE_XL_STEPS then 1 else 0)
  }

  function CountXlSteps(from: int, to: int): int {
    if to <= PRE_XL_STEPS then 0
    else if from >= PRE_XL_STEPS then to - from
    else to - PRE_XL_STEPS
  }

  lemma {:induction false} CountXlStepsCounts(from: nat, to: nat)
    requires from <= to
    ensures CountXlSteps(from, to) == XlStepsIn(from, to)
  {
    if from < to { CountXlStepsCounts(from, to - 1); }
  }

  datatype Climb = Climb(steps: nat, stardust: int, baseline: nat, xlSteps: int)

  function ClimbOf(table: seq<nat>, from: nat, to: nat, o: Options): Climb
    requires from <= to <= |table|
  {
    var baseline := Sum(table, from, to);
    Climb(to - from, ScaleStardust(baseline, Multiplier(o)), baseline, CountXlSteps(from, to))
  }

  method PriceClimb(table: seq<nat>, fromLevel: real, toLevel: real, o: Options) returns (r: Result<Climb, RangeError>)
    requires |table| == TOTAL_STEPS
    ensures match ValidatePowerupRange(fromLevel, toLevel)
            case Err(e) => r == Err(e)
            case Ok((from, to)) => 0 <= from <= to <= TOTAL_STEPS && r == Ok(ClimbOf(table, from, to, o))
  {
    var range := ValidatePowerupRange(fromLevel, toLevel);
    if range.Err? { return Err(range.error); }
    RangeIsSafe(fromLevel, toLevel);
    var (from, to) := range.value;
    var baseline := 0;
    for i := from to to
      invariant baseline == Sum(table, from, i)
    {
      baseline := baseline + table[i];
    }
    r := Ok(Climb(to - from, ScaleStardust(baseline, Multiplier(o)), baseline, CountXlSteps(from, to)));
  }

  /** Climbing in two stages costs what climbing at once costs, under every combination of flags, and takes the same
      steps, of which the same number are XL steps. */
  lemma ClimbsAdd(table: seq<nat>, from: nat, mid: nat, to: nat, o: Options)
    requires from <= mid <= to <= |table| && forall x <- table :: x % 100 == 0
    ensures var first, second, whole := ClimbOf(table, from, mid, o), ClimbOf(table, mid, to, o),
              ClimbOf(table, from, to, o);
            whole == Climb(first.steps + second.steps, first.stardust + second.stardust,
                           first.baseline + second.baseline, first.xlSteps + second.xlSteps)
  {
    SumSplits(table, from, mid, to);
    var a := SumOfHundreds(table, from, mid);
    var b := SumOfHundreds(table, mid, to);
    ScalesAdd(a, b, o);
  }

  lemma ScalesAdd(a: nat, b: nat, o: Options)
    ensures ScaleStardust(100 * a + 100 * b, Multiplier(o)) ==
            ScaleStardust(100 * a, Multiplier(o)) + ScaleStardust(100 * b, Multiplier(o))
  {
    ScalingIsExact(a, o);
    ScalingIsExact(b, o);
    ScalingIsExact(a + b, o);
    AddProducts(Percent(o), a, b);
    assert 100 * (a + b) == 100 * a + 100 * b;
  }
}
