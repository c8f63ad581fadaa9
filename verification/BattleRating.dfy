/** internal/tools/team_analysis.go: the 0..1000 rating of one simulated battle. The simulator is a black box that
    is deterministic and may fail. */
module BattleRating {
  import opened Wrappers
  import opened Arithmetic
  import opened RestrictedMoves

  const RATING_MIDPOINT := 500

  /** `winner` is 0 for the attacker, 1 for the defender, anything else for a timeout. */
  datatype BattleResult = BattleResult(winner: int, attackerHp: int, defenderHp: int)
  {
    /** The same battle told from the other side. */
    function Swapped(): BattleResult {
      BattleResult(if winner == 0 then 1 else if winner == 1 then 0 else winner, defenderHp, attackerHp)
    }
  }

  datatype Arena = Arena(maxHp: Fighter -> int, simulate: (Fighter, Fighter, int) -> Option<BattleResult>)

  function ScaleHp(hp: int, maxHp: int): int {
    if maxHp <= 0 then 0 else Quotient(RATING_MIDPOINT * hp, maxHp)
  }

  function RatingFromResult(attackerMax: int, defenderMax: int, result: BattleResult): int {
    if result.winner == 0 then RATING_MIDPOINT + ScaleHp(result.attackerHp, attackerMax)
    else if result.winner == 1 then RATING_MIDPOINT - ScaleHp(result.defenderHp, defenderMax)
    else RATING_MIDPOINT
  }

  /** None when the simulation fails. Both sides get the same number of shields. */
  function RatingFor(arena: Arena, attacker: Fighter, defender: Fighter, shields: int): Option<int> {
    match arena.simulate(attacker, defender, shields)
    case None => None
    case Some(result) => Some(RatingFromResult(arena.maxHp(attacker), arena.maxHp(defender), result))
  }

  /** What a result is worth to the attacker: the winner's share of its hit points in 500ths, cut off, above or below
      the midpoint; a timeout, or a winner without hit points to begin with, is worth the midpoint. */
  ghost predicate Grades(attackerMax: int, defenderMax: int, result: BattleResult, r: int) {
    if result.winner == 0 && attackerMax > 0 then Truncates(500 * result.attackerHp, attackerMax, r - 500)
    else if result.winner == 1 && defenderMax > 0 then Truncates(500 * result.defenderHp, defenderMax, 500 - r)
    else r == 500
  }

  /** The rating of a battle grades the one simulation of these two fighters with these shields. */
  lemma RatingIsExact(arena: Arena, attacker: Fighter, defender: Fighter, shields: int)
    ensures var simulated := arena.simulate(attacker, defender, shields);
            var r := RatingFor(arena, attacker, defender, shields);
            && (r.Some? <==> simulated.Some?)
            && (r.Some? ==> Grades(arena.maxHp(attacker), arena.maxHp(defender), simulated.value, r.value))
  {
    var simulated := arena.simulate(attacker, defender, shields);
    if simulated.Some? {
      var result := simulated.value;
      if result.winner == 0 && arena.maxHp(attacker) > 0 {
        QuotientTruncates(500 * result.attackerHp, arena.maxHp(attacker));
      } else if result.winner == 1 && arena.maxHp(defender) > 0 {
        QuotientTruncates(500 * result.defenderHp, arena.maxHp(defender));
      }
    }
  }

  /** The two sides of one battle share 1000 points. */
  lemma RatingsOfBothSidesSumTo1000(attackerMax: int, defenderMax: int, result: BattleResult)
    ensures RatingFromResult(attackerMax, defenderMax, result) +
              RatingFromResult(defenderMax, attackerMax, result.Swapped()) == 1000
  {
  }

  /** Hit points left over, when the winner has at most its maximum. */
  predicate Plausible(attackerMax: int, defenderMax: int, result: BattleResult) {
    && (result.winner == 0 ==> 0 <= result.attackerHp <= attackerMax)
    && (result.winner == 1 ==> 0 <= result.defenderHp <= defenderMax)
  }

  /** A rating lies in 0..1000, and it leaves the midpoint exactly when the winner keeps at least a 500th of its
      hit points, towards the winner. */
  lemma RatingNamesTheWinner(attackerMax: int, defenderMax: int, result: BattleResult)
    requires Plausible(attackerMax, defenderMax, result)
    ensures var r := RatingFromResult(attackerMax, defenderMax, result);
            && 0 <= r <= 1000
            && (r > RATING_MIDPOINT <==>
                  result.winner == 0 && attackerMax > 0 && 500 * result.attackerHp >= attackerMax)
            && (r < RATING_MIDPOINT <==>
                  result.winner == 1 && defenderMax > 0 && 500 * result.defenderHp >= defenderMax)
  {
    if result.winner == 0 && attackerMax > 0 {
      ScaleBounds(result.attackerHp, attackerMax);
    } else if result.winner == 1 && defenderMax > 0 {
      ScaleBounds(result.defenderHp, defenderMax);
    }
  }

  lemma ScaleBounds(hp: int, maxHp: int)
    requires 0 <= hp <= maxHp && maxHp > 0
    ensures 0 <= ScaleHp(hp, maxHp) <= 500
    ensures ScaleHp(hp, maxHp) > 0 <==> 500 * hp >= maxHp
  {
    QuotientBelow(500 * hp, maxHp, 500);
    QuotientAbove(500 * hp, maxHp, 0);
    if 500 * hp >= maxHp {
      QuotientAbove(500 * hp, maxHp, 1);
    } else {
      QuotientSmall(500 * hp, maxHp);
    }
  }

  /** The simulator never reports more hit points than there were. */
  ghost predicate Sound(arena: Arena) {
    forall a: Fighter, d: Fighter, shields: int :: arena.simulate(a, d, shields).Some? ==>
      Plausible(arena.maxHp(a), arena.maxHp(d), arena.simulate(a, d, shields).value)
  }

  lemma RatingsInRange(arena: Arena, attacker: Fighter, defender: Fighter, shields: int)
    requires Sound(arena)
    ensures RatingFor(arena, attacker, defender, shields).Some? ==>
              0 <= RatingFor(arena, attacker, defender, shields).value <= 1000
  {
    if arena.simulate(attacker, defender, shields).Some? {
      RatingNamesTheWinner(arena.maxHp(attacker), arena.maxHp(defender),
          arena.simulate(attacker, defender, shields).value);
    }
  }
}
