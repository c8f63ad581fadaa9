/** internal/tools/cplimits.go, rank.go and evolution_target.go: the downward scans of the half-level grid, and the
    sweep over all IV spreads, for an arbitrary engine. */
module LevelSearch {
  import opened Wrappers
  import opened Gamemaster

  // ---------------------------------------------------------------- the level grid

  /** Levels are counted in halves: level 1 is 2, level 40 is 80, level 51 is 102. */
  const LOWEST := 2
  const NO_XL_HIGHEST := 80
  const XL_HIGHEST := 102

  function Highest(xl: bool): nat {
    if xl then XL_HIGHEST else NO_XL_HIGHEST
  }

  function Level(doubled: nat): real {
    doubled as real / 2.0
  }

  /** CP at a grid level, None off the multiplier table. */
  function CpAt(engine: Engine, base: BaseStats, iv: IV, doubled: nat): Option<int> {
    match engine.cpm(Level(doubled))
    case None => None
    case Some(cpm) => Some(engine.cp(base, iv, cpm))
  }

  predicate FitsAt(engine: Engine, base: BaseStats, iv: IV, cap: int, doubled: nat) {
    var cpm := engine.cpm(doubled as real / 2.0);
    cpm.Some? && engine.cp(base, iv, cpm.value) <= cap
  }

  /** `d` is the greatest grid level up to `highest` whose CP fits the cap. */
  ghost predicate GreatestFit(engine: Engine, base: BaseStats, iv: IV, cap: int, highest: nat, d: nat) {
    && 2 <= d <= highest && FitsAt(engine, base, iv, cap, d)
    && forall e :: d < e <= highest ==> !FitsAt(engine, base, iv, cap, e)
  }

  ghost predicate NoFit(engine: Engine, base: BaseStats, iv: IV, cap: int, highest: nat) {
    forall e :: 2 <= e <= highest ==> !FitsAt(engine, base, iv, cap, e)
  }

  ghost predicate IsCpAt(engine: Engine, base: BaseStats, iv: IV, level: real, cp: int) {
    engine.cpm(level).Some? && cp == engine.cp(base, iv, engine.cpm(level).value)
  }

  datatype LeagueLimit = LeagueLimit(fits: bool, maxCp: int, maxLevel: real)

  /** Fits reports the greatest level that fits; without one the fields describe level 1. */
  method ComputeLeagueLimit(engine: Engine, base: BaseStats, iv: IV, cap: int, xl: bool)
        returns (out: LeagueLimit, ghost d: nat)
    ensures out.fits ==> GreatestFit(engine, base, iv, cap, if xl then 102 else 80, d)
                         && out.maxLevel == d as real / 2.0
                         && IsCpAt(engine, base, iv, d as real / 2.0, out.maxCp) && out.maxCp <= cap
    ensures !out.fits ==> NoFit(engine, base, iv, cap, if xl then 102 else 80) && out.maxLevel == MIN_LEVEL
                          && (engine.cpm(MIN_LEVEL).Some? ==>
                                out.maxCp == engine.cp(base, iv, engine.cpm(MIN_LEVEL).value) > cap)
  {
    d := 0;
    for doubled := Highest(xl) + 1 downto LOWEST
      invariant forall e :: doubled <= e <= Highest(xl) ==> !FitsAt(engine, base, iv, cap, e)
    {
      var cpm := engine.cpm(Level(doubled));
      if cpm.None? { continue; }
      var cp := engine.cp(base, iv, cpm.value);
      if cp > cap { continue; }
      return LeagueLimit(true, cp, Level(doubled)), doubled;
    }
    assert Level(LOWEST) == MIN_LEVEL && !FitsAt(engine, base, iv, cap, LOWEST);
    var cpm := match engine.cpm(MIN_LEVEL) case None => 0.0 case Some(c) => c;
    out := LeagueLimit(false, engine.cp(base, iv, cpm), MIN_LEVEL);
  }

  datatype Spread = Spread(iv: IV, level: real, cp: int, statProduct: real)

  method FindSpreadForSpecies(engine: Engine, statProduct: (BaseStats, IV, real) -> real, base: BaseStats, iv: IV,
                              cap: int, xl: bool)
    returns (spread: Option<Spread>, ghost d: nat)
    ensures spread.Some? ==> GreatestFit(engine, base, iv, cap, if xl then 102 else 80, d)
                             && spread.value.iv == iv && spread.value.level == d as real / 2.0
                             && IsCpAt(engine, base, iv, d as real / 2.0, spread.value.cp)
                             && spread.value.statProduct == statProduct(base, iv, engine.cpm(d as real / 2.0).value)
    ensures spread.None? ==> NoFit(engine, base, iv, cap, if xl then 102 else 80)
  {
    d := 0;
    for doubled := Highest(xl) + 1 downto LOWEST
      invariant forall e :: doubled <= e <= Highest(xl) ==> !FitsAt(engine, base, iv, cap, e)
    {
      var level := Level(doubled);
      var cpm := engine.cpm(level);
      if cpm.None? { continue; }
      if engine.cp(base, iv, cpm.value) > cap { continue; }
      return Some(Spread(iv, level, engine.cp(base, iv, cpm.value), statProduct(base, iv, cpm.value))), doubled;
    }
    spread := None;
  }

  /** The two tools answer alike: the same level and CP, or no level at all in either. */
  method BothScans(engine: Engine, statProduct: (BaseStats, IV, real) -> real, base: BaseStats, iv: IV, cap: int,
                   xl: bool)
    returns (limit: LeagueLimit, spread: Option<Spread>)
    ensures limit.fits <==> spread.Some?
    ensures spread.Some? ==> spread.value.level == limit.maxLevel && spread.value.cp == limit.maxCp
  {
    ghost var d, e;
    limit, d := ComputeLeagueLimit(engine, base, iv, cap, xl);
    spread, e := FindSpreadForSpecies(engine, statProduct, base, iv, cap, xl);
  }

  /** A larger cap, or a longer grid, never lowers the level. */
  lemma GreatestFitIsMonotone(engine: Engine, base: BaseStats, iv: IV, cap1: int, cap2: int, xl1: bool, xl2: bool,
                              d1: nat) returns (d2: nat)
    requires cap1 <= cap2 && (xl1 ==> xl2) && GreatestFit(engine, base, iv, cap1, Highest(xl1), d1)
    ensures GreatestFit(engine, base, iv, cap2, Highest(xl2), d2) && d1 <= d2
  {
    d2 := Highest(xl2);
    while !FitsAt(engine, base, iv, cap2, d2)
      invariant d1 <= d2 <= Highest(xl2)
      invariant forall e :: d2 < e <= Highest(xl2) ==> !FitsAt(engine, base, iv, cap2, e)
      decreases d2
    {
      d2 := d2 - 1;
    }
  }

  /** On an engine whose CP never falls with the level, the level found separates the levels that fit from those
      that do not. */
  lemma GreatestFitIsThreshold(engine: Engine, base: BaseStats, iv: IV, cap: int, highest: nat, d: nat)
    requires GreatestFit(engine, base, iv, cap, highest, d)
    requires forall e :: LOWEST <= e <= highest ==> CpAt(engine, base, iv, e).Some?
    requires forall e, f :: LOWEST <= e <= f <= highest ==>
               CpAt(engine, base, iv, e).value <= CpAt(engine, base, iv, f).value
    ensures forall e :: LOWEST <= e <= highest ==> (FitsAt(engine, base, iv, cap, e) <==> e <= d)
  {
    forall e | LOWEST <= e <= d ensures FitsAt(engine, base, iv, cap, e) {
      assert CpAt(engine, base, iv, e).value <= CpAt(engine, base, iv, d).value;
    }
  }

  // ---------------------------------------------------------------- the sweep over IV spreads

  /** One more than the largest component, where the loops stop. */
  const IV_COUNT := MAX_IV + 1

  /** What one spread needs: the engine's best level for the target form with its stat product, the multiplier
      there, and the CP of the root form. `bestProduct` is that of the optimal spread. */
  datatype Sweep = Sweep(
    fit: IV -> Option<(real, real)>,
    cpm: real -> Option<real>,
    rootCp: (IV, real) -> int,
    bestProduct: real,
    threshold: real)

  datatype Found = Found(rootCp: int, level: real, percent: real)

  /** The candidate that a spread offers, if it fits and clears the threshold. */
  function Offer(s: Sweep, iv: IV): Option<Found>
    requires s.bestProduct != 0.0
  {
    if !ValidIV(iv) then None
    else
      match s.fit(iv)
      case None => None
      case Some((level, product)) =>
        var percent := product / s.bestProduct * 100.0;
        if percent < s.threshold then None
        else
          match s.cpm(level)
          case None => None
          case Some(cpm) => Some(Found(s.rootCp(iv, cpm), level, percent))
  }

  /** The spread lies in 0..15, the target form fits at some level with some stat product, that product is at least the
      threshold in percent of the best one, and the root form has a CP at the same level. */
  ghost predicate IsOffer(s: Sweep, iv: IV, f: Found) {
    && 0 <= iv.atk <= 15 && 0 <= iv.def <= 15 && 0 <= iv.sta <= 15
    && (exists product :: s.fit(iv) == Some((f.level, product)) && f.percent * s.bestProduct == 100.0 * product)
    && f.percent >= s.threshold
    && s.cpm(f.level).Some? && f.rootCp == s.rootCp(iv, s.cpm(f.level).value)
  }

  lemma OfferIsExact(s: Sweep, iv: IV)
    requires s.bestProduct != 0.0
    ensures forall f :: Offer(s, iv) == Some(f) <==> IsOffer(s, iv, f)
  {
    if s.fit(iv).Some? {
      var (level, product) := s.fit(iv).value;
      var percent := product / s.bestProduct * 100.0;
      assert percent * s.bestProduct == 100.0 * product;
      forall f | IsOffer(s, iv, f) ensures f.percent == percent {
        SameQuotient(f.percent, percent, s.bestProduct);
      }
    }
  }

  lemma SameQuotient(x: real, y: real, c: real)
    requires c != 0.0 && x * c == y * c
    ensures x == y
  {
    assert (x - y) * c == 0.0;
  }

  /** The running best of the sweep. */
  class SearchCandidate {
    var maxRootCp: int
    var evolvedLevel: real
    var percentOfBest: real

    constructor ()
      ensures Value() == Found(0, 0.0, 0.0)
    {
      maxRootCp, evolvedLevel, percentOfBest := 0, 0.0, 0.0;
    }

    function Value(): Found
      reads this
    {
      Found(maxRootCp, evolvedLevel, percentOfBest)
    }
  }

  /** Spreads that the three loops visit before (atk, def, sta). */
  predicate Seen(atk: int, def: int, sta: int, iv: IV) {
    ValidIV(iv) && (iv.atk < atk || (iv.atk == atk && (iv.def < def || (iv.def == def && iv.sta < sta))))
  }

  predicate Earlier(a: IV, b: IV) {
    a.atk < b.atk || (a.atk == b.atk && (a.def < b.def || (a.def == b.def && a.sta < b.sta)))
  }

  /** `f` is the offer of the first seen spread with the largest root CP, or nothing when no seen spread offers a
      positive one. */
  ghost predicate IsBest(s: Sweep, atk: int, def: int, sta: int, f: Found)
    requires s.bestProduct != 0.0
  {
    && f.rootCp >= 0
    && (forall iv: IV :: Seen(atk, def, sta, iv) && Offer(s, iv).Some? ==> Offer(s, iv).value.rootCp <= f.rootCp)
    && (f.rootCp == 0 ==> f == Found(0, 0.0, 0.0))
    && (f.rootCp > 0 ==> exists w: IV :: Seen(atk, def, sta, w) && FirstOffer(s, atk, def, sta, w, f))
  }

  ghost predicate FirstOffer(s: Sweep, atk: int, def: int, sta: int, w: IV, f: Found)
    requires s.bestProduct != 0.0
  {
    && Offer(s, w) == Some(f)
    && forall iv: IV | Seen(atk, def, sta, iv) && iv != w ::
         Offer(s, iv).Some? && Offer(s, iv).value.rootCp == f.rootCp ==> Earlier(w, iv)
  }

  lemma BestStep(s: Sweep, atk: int, def: int, sta: int, f: Found)
    requires s.bestProduct != 0.0 && ValidIV(IV(atk, def, sta)) && IsBest(s, atk, def, sta, f)
    ensures var o := Offer(s, IV(atk, def, sta));
            IsBest(s, atk, def, sta + 1, if o.Some? && o.value.rootCp > f.rootCp then o.value else f)
  {
    var here := IV(atk, def, sta);
    var o := Offer(s, here);
    forall iv: IV ensures Seen(atk, def, sta + 1, iv) <==> Seen(atk, def, sta, iv) || iv == here {
      if iv.atk == atk && iv.def == def && iv.sta == sta { assert iv == here; }
    }
    if o.Some? && o.value.rootCp > f.rootCp {
      assert FirstOffer(s, atk, def, sta + 1, here, o.value);
    } else if f.rootCp > 0 {
      var w: IV :| Seen(atk, def, sta, w) && FirstOffer(s, atk, def, sta, w, f);
      assert FirstOffer(s, atk, def, sta + 1, w, f);
    }
  }

  lemma SameSeen(s: Sweep, a1: int, d1: int, s1: int, a2: int, d2: int, s2: int, f: Found)
    requires s.bestProduct != 0.0 && IsBest(s, a1, d1, s1, f)
    requires forall iv: IV :: Seen(a1, d1, s1, iv) <==> Seen(a2, d2, s2, iv)
    ensures IsBest(s, a2, d2, s2, f)
  {
    if f.rootCp > 0 {
      var w: IV :| Seen(a1, d1, s1, w) && FirstOffer(s, a1, d1, s1, w, f);
      assert Seen(a2, d2, s2, w) && FirstOffer(s, a2, d2, s2, w, f);
    }
  }

  method EvaluateIvCandidate(s: Sweep, atk: int, def: int, sta: int, candidate: SearchCandidate)
    requires s.bestProduct != 0.0
    modifies candidate
    ensures var o := Offer(s, IV(atk, def, sta));
            candidate.Value() ==
              if o.Some? && o.value.rootCp > old(candidate.maxRootCp) then o.value else old(candidate.Value())
  {
    var iv := IV(atk, def, sta);
    if !ValidIV(iv) { return; }
    var fit := s.fit(iv);
    if fit.None? { return; }
    var (level, product) := fit.value;
    var percent := product / s.bestProduct * 100.0;
    if percent < s.threshold { return; }
    var cpm := s.cpm(level);
    if cpm.None? { return; }
    var rootCp := s.rootCp(iv, cpm.value);
    if rootCp <= candidate.maxRootCp { return; }
    candidate.maxRootCp := rootCp;
    candidate.evolvedLevel := level;
    candidate.percentOfBest := percent;
  }

  /** The answer is the largest root CP among all spreads that clear the threshold, with the level and percentage of
      the first spread that reaches it, and it is zero exactly when no such spread has a positive root CP. */
  method SearchEvolutionTargetCeiling(s: Sweep) returns (found: Found)
    requires s.bestProduct != 0.0
    ensures forall iv: IV :: Offer(s, iv).Some? ==> Offer(s, iv).value.rootCp <= found.rootCp
    ensures found.rootCp > 0 ==> exists w: IV :: FirstOffer(s, IV_COUNT, 0, 0, w, found)
    ensures found.rootCp >= 0
    ensures found == Found(0, 0.0, 0.0) <==> forall iv: IV :: Offer(s, iv).Some? ==> Offer(s, iv).value.rootCp <= 0
  {
    var candidate := new SearchCandidate();
    for atk := 0 to IV_COUNT
      invariant IsBest(s, atk, 0, 0, candidate.Value())
    {
      for def := 0 to IV_COUNT
        invariant IsBest(s, atk, def, 0, candidate.Value())
      {
        for sta := 0 to IV_COUNT
          invariant IsBest(s, atk, def, sta, candidate.Value())
        {
          BestStep(s, atk, def, sta, candidate.Value());
          EvaluateIvCandidate(s, atk, def, sta, candidate);
        }
        SameSeen(s, atk, def, IV_COUNT, atk, def + 1, 0, candidate.Value());
      }
      SameSeen(s, atk, IV_COUNT, 0, atk + 1, 0, 0, candidate.Value());
    }
    found := candidate.Value();
    assert forall iv: IV :: Offer(s, iv).Some? ==> Seen(IV_COUNT, 0, 0, iv);
  }
}
