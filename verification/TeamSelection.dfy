/** internal/tools/team_builder.go and team_builder_budget.go: which scored teams are kept and in which order, that is
    the stable sort, the budget gates and the window of the results. */
module TeamSelection {
  import opened Wrappers
  import opened Gamemaster
  import opened Arithmetic
  import opened Sorting
  import opened TeamEnumeration

  /** The stardust part of one member's cost estimate. */
  datatype Breakdown = Breakdown(powerup: int, secondMove: int)
  {
    function Total(): int { powerup + secondMove }
  }

  datatype Budget = Budget(stardustLimit: int, stardustTolerance: real, eliteChargedTm: int, eliteFastTm: int)

  /** A scored team with the fields that the selection fills in. */
  datatype Candidate = Candidate(team: Team, aggregateCost: int, exceeded: bool, excess: int, costs: seq<Breakdown>)
  {
    function Score(): real { team.score }

    function Indices(): Indices { team.poolIndices }
  }

  /** What the enumeration hands over. */
  function Unpriced(team: Team): Candidate {
    Candidate(team, 0, false, 0, [])
  }

  const BY_SCORE := (c: Candidate) => c.Score()

  // ---------------------------------------------------------------- the budget gates

  /** What the filter consults: the snapshot, the filtered pool, its cost estimates and the caller's budget. */
  datatype Costing = Costing(dex: Pokedex, pool: seq<Combatant>, breakdowns: seq<Breakdown>, budget: Option<Budget>)
  {
    predicate StardustGate() {
      budget.Some? && budget.value.stardustLimit > 0
    }

    predicate EtmGate() {
      budget.Some? && (budget.value.eliteChargedTm > 0 || budget.value.eliteFastTm > 0)
    }
  }

  /** Stardust of the listed members; an index without an estimate contributes nothing. */
  function CostOf(breakdowns: seq<Breakdown>, indices: seq<nat>): int {
    if indices == [] then 0
    else
      var n := |indices| - 1;
      CostOf(breakdowns, indices[..n]) + (if indices[n] < |breakdowns| then breakdowns[indices[n]].Total() else 0)
  }

  lemma ThreeTotals(breakdowns: seq<Breakdown>, at: Indices)
    requires at[0] < |breakdowns| && at[1] < |breakdowns| && at[2] < |breakdowns|
    ensures CostOf(breakdowns, at) == breakdowns[at[0]].Total() + breakdowns[at[1]].Total() + breakdowns[at[2]].Total()
  {
    var a, b, c := at[0], at[1], at[2];
    assert at == [a, b, c] && [a, b, c][..2] == [a, b] && [a, b][..1] == [a] && [a][..0] == [];
    assert CostOf(breakdowns, [a]) == breakdowns[a].Total();
    assert CostOf(breakdowns, [a, b]) == breakdowns[a].Total() + breakdowns[b].Total();
  }

  /** Power-ups and second moves of all three members. */
  lemma CostIsExact(breakdowns: seq<Breakdown>, at: Indices)
    requires at[0] < |breakdowns| && at[1] < |breakdowns| && at[2] < |breakdowns|
    ensures CostOf(breakdowns, at) ==
            breakdowns[at[0]].powerup + breakdowns[at[0]].secondMove + breakdowns[at[1]].powerup
            + breakdowns[at[1]].secondMove + breakdowns[at[2]].powerup + breakdowns[at[2]].secondMove
  {
    ThreeTotals(breakdowns, at);
  }

  method AggregateTeamStardustCost(breakdowns: seq<Breakdown>, indices: seq<nat>) returns (total: int)
    ensures total == CostOf(breakdowns, indices)
  {
    total := 0;
    for i := 0 to |indices|
      invariant total == CostOf(breakdowns, indices[..i])
    {
      assert indices[..i + 1][..i] == indices[..i];
      if indices[i] >= |breakdowns| { continue; }
      total := total + breakdowns[indices[i]].powerup;
      total := total + breakdowns[indices[i]].secondMove;
    }
    assert indices[..|indices|] == indices;
  }

  function LookupId(member: Combatant): string {
    if member.resolvedSpeciesId == "" then member.species else member.resolvedSpeciesId
  }

  predicate IsElite(dex: Pokedex, member: Combatant, move: string) {
    LookupId(member) in dex && move in dex[LookupId(member)].eliteMoves
  }

  function CountElite(dex: Pokedex, member: Combatant, moves: seq<string>): nat {
    if moves == [] then 0
    else CountElite(dex, member, moves[..|moves| - 1]) + (if IsElite(dex, member, moves[|moves| - 1]) then 1 else 0)
  }

  function EliteCharged(dex: Pokedex, members: seq<Combatant>): nat {
    if members == [] then 0
    else
      var n := |members| - 1;
      EliteCharged(dex, members[..n]) + CountElite(dex, members[n], members[n].chargedMoves)
  }

  function EliteFast(dex: Pokedex, members: seq<Combatant>): nat {
    if members == [] then 0
    else
      var n := |members| - 1;
      EliteFast(dex, members[..n]) +
      (if members[n].fastMove != "" && IsElite(dex, members[n], members[n].fastMove) then 1 else 0)
  }

  method CountTeamEliteMoves(dex: Pokedex, members: seq<Combatant>) returns (charged: nat, fast: nat)
    ensures charged == EliteCharged(dex, members) && fast == EliteFast(dex, members)
  {
    charged, fast := 0, 0;
    for i := 0 to |members|
      invariant charged == EliteCharged(dex, members[..i]) && fast == EliteFast(dex, members[..i])
    {
      var member := members[i];
      assert members[..i + 1][..i] == members[..i];
      if LookupId(member) !in dex {
        NoneElite(dex, member, member.chargedMoves);
        continue;
      }
      if member.fastMove != "" && IsElite(dex, member, member.fastMove) {
        fast := fast + 1;
      }
      for c := 0 to |member.chargedMoves|
        invariant charged == EliteCharged(dex, members[..i]) + CountElite(dex, member, member.chargedMoves[..c])
      {
        assert member.chargedMoves[..c + 1][..c] == member.chargedMoves[..c];
        if IsElite(dex, member, member.chargedMoves[c]) {
          charged := charged + 1;
        }
      }
      assert member.chargedMoves[..|member.chargedMoves|] == member.chargedMoves;
    }
    assert members[..|members|] == members;
  }

  lemma {:induction false} NoneElite(dex: Pokedex, member: Combatant, moves: seq<string>)
    requires LookupId(member) !in dex
    ensures CountElite(dex, member, moves) == 0
  {
    if moves != [] { NoneElite(dex, member, moves[..|moves| - 1]); }
  }

  /** Learning the move takes an elite item: it is on the elite list of the species as resolved. */
  ghost predicate NeedsItem(dex: Pokedex, member: Combatant, move: string) {
    exists id ::
      && id == (if member.resolvedSpeciesId != "" then member.resolvedSpeciesId else member.species)
      && id in dex && move in dex[id].eliteMoves
  }

  /** The charged slots that need an item. */
  ghost function ChargedItems(dex: Pokedex, member: Combatant, moves: seq<string>): set<nat> {
    set j: nat | j < |moves| && NeedsItem(dex, member, moves[j])
  }

  /** How many charged items each member needs. */
  ghost function ChargedNeed(dex: Pokedex, members: seq<Combatant>): nat -> int {
    (m: nat) => if m < |members| then |ChargedItems(dex, members[m], members[m].chargedMoves)| else 0
  }

  ghost function FastItems(dex: Pokedex, members: seq<Combatant>): set<nat> {
    set m: nat | m < |members| && members[m].fastMove != "" && NeedsItem(dex, members[m], members[m].fastMove)
  }

  /** One charged item per elite charged slot of every member, one fast item per elite fast move. */
  lemma EliteCountsAreExact(dex: Pokedex, members: seq<Combatant>)
    ensures EliteCharged(dex, members) == Sigma(|members|, ChargedNeed(dex, members))
    ensures EliteFast(dex, members) == |FastItems(dex, members)|
  {
    ChargedCount(dex, members, |members|);
    assert members[..|members|] == members;
    FastCount(dex, members);
  }

  lemma {:induction false} ChargedCount(dex: Pokedex, members: seq<Combatant>, n: nat)
    requires n <= |members|
    ensures EliteCharged(dex, members[..n]) == Sigma(n, ChargedNeed(dex, members))
  {
    if n > 0 {
      ChargedCount(dex, members, n - 1);
      assert members[..n][..n - 1] == members[..n - 1];
      SlotCount(dex, members[n - 1], members[n - 1].chargedMoves);
    }
  }

  lemma {:induction false} SlotCount(dex: Pokedex, member: Combatant, moves: seq<string>)
    ensures CountElite(dex, member, moves) == |ChargedItems(dex, member, moves)|
  {
    if moves != [] {
      var n := |moves| - 1;
      SlotCount(dex, member, moves[..n]);
      assert ChargedItems(dex, member, moves) ==
             ChargedItems(dex, member, moves[..n]) + (if NeedsItem(dex, member, moves[n]) then {n} else {});
    } else {
      assert ChargedItems(dex, member, moves) == {};
    }
  }

  lemma {:induction false} FastCount(dex: Pokedex, members: seq<Combatant>)
    ensures EliteFast(dex, members) == |FastItems(dex, members)|
  {
    if members != [] {
      var n := |members| - 1;
      var before, last := FastItems(dex, members[..n]), members[n];
      FastCount(dex, members[..n]);
      assert FastItems(dex, members) ==
             before + (if last.fastMove != "" && NeedsItem(dex, last, last.fastMove) then {n} else {});
    } else {
      assert FastItems(dex, members) == {};
    }
  }

  function Chosen(pool: seq<Combatant>, indices: Indices): seq<Combatant>
    requires forall m :: 0 <= m < 3 ==> indices[m] < |pool|
  {
    [pool[indices[0]], pool[indices[1]], pool[indices[2]]]
  }

  predicate FitsEtm(dex: Pokedex, members: seq<Combatant>, budget: Budget) {
    && !(budget.eliteChargedTm > 0 && EliteCharged(dex, members) > budget.eliteChargedTm)
    && !(budget.eliteFastTm > 0 && EliteFast(dex, members) > budget.eliteFastTm)
  }

  /** limit + int(limit * tolerance), a negative tolerance counting as none. */
  function HardCap(limit: int, tolerance: real): int {
    limit + (limit as real * (if tolerance < 0.0 then 0.0 else tolerance)).Floor
  }

  function ApplyStardustGate(c: Candidate, budget: Budget): Option<Candidate> {
    if c.aggregateCost <= budget.stardustLimit then Some(c)
    else if c.aggregateCost > HardCap(budget.stardustLimit, budget.stardustTolerance) then None
    else Some(c.(exceeded := true, excess := c.aggregateCost - budget.stardustLimit))
  }

  predicate Placed(pool: seq<Combatant>, c: Candidate) {
    c.Indices()[0] < c.Indices()[1] < c.Indices()[2] < |pool|
  }

  /** evaluateTeamBudget; None drops the team. */
  function Evaluate(k: Costing, c: Candidate): Option<Candidate>
    requires Placed(k.pool, c) && (k.StardustGate() || k.EtmGate())
  {
    var priced := c.(aggregateCost := CostOf(k.breakdowns, c.Indices()));
    if k.EtmGate() && !FitsEtm(k.dex, Chosen(k.pool, c.Indices()), k.budget.value) then None
    else if !k.StardustGate() then Some(priced)
    else ApplyStardustGate(priced, k.budget.value)
  }

  ghost predicate AllPlaced(pool: seq<Combatant>, xs: seq<Candidate>) {
    forall x <- xs :: Placed(pool, x)
  }

  function Passing(k: Costing, c: Candidate): seq<Candidate>
    requires Placed(k.pool, c) && (k.StardustGate() || k.EtmGate())
  {
    match Evaluate(k, c) case None => [] case Some(e) => [e]
  }

  /** The teams that the filter keeps, in the order in which they come. */
  function Kept(k: Costing, xs: seq<Candidate>): seq<Candidate>
    requires AllPlaced(k.pool, xs)
  {
    if xs == [] || !(k.StardustGate() || k.EtmGate()) then xs
    else
      var n := |xs| - 1;
      Kept(k, xs[..n]) + Passing(k, xs[n])
  }

  method ApplyBudgetFilter(k: Costing, xs: seq<Candidate>) returns (out: seq<Candidate>)
    requires AllPlaced(k.pool, xs)
    ensures out == Kept(k, xs)
  {
    if !k.StardustGate() && !k.EtmGate() {
      return xs;
    }
    out := [];
    for i := 0 to |xs|
      invariant out == Kept(k, xs[..i])
    {
      assert xs[..i + 1][..i] == xs[..i] && xs[..i + 1][i] == xs[i];
      var kept, updated := EvaluateTeamBudget(k, xs[i]);
      if !kept { continue; }
      out := out + [updated];
    }
    assert xs[..|xs|] == xs;
  }

  method EvaluateTeamBudget(k: Costing, c: Candidate) returns (kept: bool, updated: Candidate)
    requires Placed(k.pool, c) && (k.StardustGate() || k.EtmGate())
    ensures Evaluate(k, c) == if kept then Some(updated) else None
  {
    var cost := AggregateTeamStardustCost(k.breakdowns, c.Indices());
    updated := c.(aggregateCost := cost);
    if k.EtmGate() {
      var charged, fast := CountTeamEliteMoves(k.dex, Chosen(k.pool, c.Indices()));
      if k.budget.value.eliteChargedTm > 0 && charged > k.budget.value.eliteChargedTm { return false, updated; }
      if k.budget.value.eliteFastTm > 0 && fast > k.budget.value.eliteFastTm { return false, updated; }
    }
    if !k.StardustGate() { return true, updated; }
    var gated := ApplyStardustGate(updated, k.budget.value);
    if gated.None? { return false, updated; }
    return true, gated.value;
  }

  /** A team is kept exactly when it needs no more elite items than each positive inventory holds and, under a
      positive stardust limit, costs at most limit * (1 + tolerance); it is flagged with the overrun exactly when
      it costs more than the limit. */
  lemma GatesAreExact(k: Costing, team: Team)
    requires Placed(k.pool, Unpriced(team)) && (k.StardustGate() || k.EtmGate())
    ensures var b, cost, members := k.budget.value, CostOf(k.breakdowns, team.poolIndices),
              Chosen(k.pool, team.poolIndices);
            var kept := Evaluate(k, Unpriced(team));
            && (kept.Some? <==>
                  && (b.eliteChargedTm > 0 ==> EliteCharged(k.dex, members) <= b.eliteChargedTm)
                  && (b.eliteFastTm > 0 ==> EliteFast(k.dex, members) <= b.eliteFastTm)
                  && (b.stardustLimit > 0 ==> cost as real <= Band(b.stardustLimit, b.stardustTolerance)))
            && (kept.Some? ==>
                  && kept.value.team == team && kept.value.aggregateCost == cost
                  && (kept.value.exceeded <==> b.stardustLimit > 0 && cost > b.stardustLimit)
                  && kept.value.excess == (if kept.value.exceeded then cost - b.stardustLimit else 0))
  {
    if k.StardustGate() {
      HardCapIsBand(CostOf(k.breakdowns, team.poolIndices), k.budget.value.stardustLimit,
                    k.budget.value.stardustTolerance);
    }
  }

  /** limit * (1 + tolerance), not rounded. */
  ghost function Band(limit: int, tolerance: real): real {
    limit as real * (1.0 + (if tolerance < 0.0 then 0.0 else tolerance))
  }

  lemma HardCapIsBand(cost: int, limit: int, tolerance: real)
    requires limit > 0
    ensures cost <= HardCap(limit, tolerance) <==> cost as real <= Band(limit, tolerance)
    ensures limit <= HardCap(limit, tolerance)
  {
    var l, t := limit as real, if tolerance < 0.0 then 0.0 else tolerance;
    var extra := l * t;
    NonNegativeProduct(l, t);
    assert Band(limit, tolerance) == l + extra;
    FloorBound(cost - limit, extra);
    FloorBound(0, extra);
  }

  lemma NonNegativeProduct(x: real, y: real)
    requires x >= 0.0 && y >= 0.0
    ensures x * y >= 0.0
  {
  }

  lemma FloorBound(d: int, band: real)
    ensures d <= band.Floor <==> d as real <= band
  {
  }

  /** Every positive limit of `a` is at least as large in `b`, every inactive one is inactive in `b`. */
  predicate Relaxes(a: Budget, b: Budget) {
    && (if a.stardustLimit > 0 then b.stardustLimit >= a.stardustLimit else b.stardustLimit <= 0)
    && a.stardustTolerance <= b.stardustTolerance
    && (if a.eliteChargedTm > 0 then b.eliteChargedTm >= a.eliteChargedTm else b.eliteChargedTm <= 0)
    && (if a.eliteFastTm > 0 then b.eliteFastTm >= a.eliteFastTm else b.eliteFastTm <= 0)
  }

  /** Raising limits and tolerance never drops a team that passed. */
  lemma RaisingLimitsKeepsTeams(k: Costing, b: Budget, c: Candidate)
    requires Placed(k.pool, c) && (k.StardustGate() || k.EtmGate()) && Relaxes(k.budget.value, b)
    ensures Evaluate(k, c).Some? ==> Evaluate(k.(budget := Some(b)), c).Some?
  {
    var a := k.budget.value;
    if a.stardustLimit > 0 {
      HardCapMonotone(a.stardustLimit, b.stardustLimit, a.stardustTolerance, b.stardustTolerance);
    }
  }

  lemma HardCapMonotone(l1: int, l2: int, t1: real, t2: real)
    requires 0 < l1 <= l2 && t1 <= t2
    ensures HardCap(l1, t1) <= HardCap(l2, t2)
  {
    var u1, u2 := if t1 < 0.0 then 0.0 else t1, if t2 < 0.0 then 0.0 else t2;
    assert l1 as real * u1 <= l2 as real * u1 <= l2 as real * u2;
  }

  // ---------------------------------------------------------------- sorting and filtering commute

  lemma {:induction false} KeptFacts(k: Costing, xs: seq<Candidate>)
    requires AllPlaced(k.pool, xs)
    ensures forall y <- Kept(k, xs) :: exists x <- xs :: y.team == x.team
    ensures AllPlaced(k.pool, Kept(k, xs))
  {
    if xs != [] && (k.StardustGate() || k.EtmGate()) {
      KeptFacts(k, xs[..|xs| - 1]);
    }
  }

  lemma {:induction false} KeptDescending(k: Costing, xs: seq<Candidate>)
    requires AllPlaced(k.pool, xs) && Descending(xs, BY_SCORE)
    ensures Descending(Kept(k, xs), BY_SCORE)
  {
    if xs != [] && (k.StardustGate() || k.EtmGate()) {
      var n := |xs| - 1;
      var rest, x := xs[..n], xs[n];
      assert xs == rest + [x];
      KeptDescending(k, rest);
      KeptAppend(k, rest, x);
      forall y | y in Kept(k, rest) ensures BY_SCORE(y) >= BY_SCORE(x) {
        KeptFacts(k, rest);
        var z :| z in rest && y.team == z.team;
      }
      if Evaluate(k, x).Some? {
        EvaluateKeepsTeam(k, x);
        DescendingAppend(Kept(k, rest), BY_SCORE, Evaluate(k, x).value);
      }
    }
  }

  lemma KeptAppend(k: Costing, xs: seq<Candidate>, x: Candidate)
    requires AllPlaced(k.pool, xs + [x]) && (k.StardustGate() || k.EtmGate())
    ensures AllPlaced(k.pool, xs) && Placed(k.pool, x)
    ensures Kept(k, xs + [x]) == Kept(k, xs) + Passing(k, x)
  {
    assert (xs + [x])[..|xs|] == xs && (xs + [x])[|xs|] == x;
    forall y | y in xs ensures Placed(k.pool, y) { assert y in xs + [x]; }
  }

  lemma {:induction false} KeptByScore(k: Costing, xs: seq<Candidate>, v: real)
    requires AllPlaced(k.pool, xs)
    ensures AllPlaced(k.pool, WithKey(xs, v, BY_SCORE))
    ensures WithKey(Kept(k, xs), v, BY_SCORE) == Kept(k, WithKey(xs, v, BY_SCORE))
  {
    WithKeySubset(xs, v, BY_SCORE);
    if xs != [] && (k.StardustGate() || k.EtmGate()) {
      var rest, x := xs[..|xs| - 1], xs[|xs| - 1];
      var same := WithKey(rest, v, BY_SCORE);
      KeptByScore(k, rest, v);
      PassingByScore(k, Kept(k, rest), x, v);
      assert WithKey(Kept(k, xs), v, BY_SCORE) == Kept(k, same) + (if x.Score() == v then Passing(k, x) else []);
      if x.Score() == v {
        assert WithKey(xs, v, BY_SCORE) == same + [x];
        KeptAppend(k, same, x);
      } else {
        assert WithKey(xs, v, BY_SCORE) == same;
      }
    }
  }

  lemma PassingByScore(k: Costing, kept: seq<Candidate>, x: Candidate, v: real)
    requires Placed(k.pool, x) && (k.StardustGate() || k.EtmGate())
    ensures WithKey(kept + Passing(k, x), v, BY_SCORE) ==
            WithKey(kept, v, BY_SCORE) + (if x.Score() == v then Passing(k, x) else [])
  {
    match Evaluate(k, x)
    case None =>
      assert kept + Passing(k, x) == kept;
    case Some(c) =>
      EvaluateKeepsTeam(k, x);
      WithKeyAppend(kept, c, v, BY_SCORE);
  }

  lemma EvaluateKeepsTeam(k: Costing, c: Candidate)
    requires Placed(k.pool, c) && (k.StardustGate() || k.EtmGate()) && Evaluate(k, c).Some?
    ensures Evaluate(k, c).value.team == c.team
  {
  }

  lemma SortKeepsPlaced(pool: seq<Combatant>, xs: seq<Candidate>)
    requires AllPlaced(pool, xs)
    ensures AllPlaced(pool, StableSort(xs, BY_SCORE))
  {
    StableSortIsStable(xs, BY_SCORE);
    forall x | x in StableSort(xs, BY_SCORE) ensures Placed(pool, x) {
      SortedMember(xs, BY_SCORE, x);
    }
  }

  /** What the filter makes of one team: None drops it. */
  function Gate(k: Costing, c: Candidate): Option<Candidate>
    requires Placed(k.pool, c)
  {
    if k.StardustGate() || k.EtmGate() then Evaluate(k, c) else Some(c)
  }

  lemma {:induction false} KeptComplete(k: Costing, xs: seq<Candidate>, x: Candidate)
    requires AllPlaced(k.pool, xs) && x in xs && Gate(k, x).Some?
    ensures Gate(k, x).value in Kept(k, xs)
  {
    if k.StardustGate() || k.EtmGate() {
      var n := |xs| - 1;
      if x != xs[n] { KeptComplete(k, xs[..n], x); }
    }
  }

  lemma {:induction false} KeptSound(k: Costing, xs: seq<Candidate>, y: Candidate) returns (x: Candidate)
    requires AllPlaced(k.pool, xs) && y in Kept(k, xs)
    ensures x in xs && Gate(k, x) == Some(y)
  {
    if k.StardustGate() || k.EtmGate() {
      var n := |xs| - 1;
      if y in Kept(k, xs[..n]) { x := KeptSound(k, xs[..n], y); } else { x := xs[n]; }
    } else {
      x := y;
    }
  }

  /** A team that passes the gates is among the first `window` kept ones, or those are all at least as good. */
  lemma NothingBetterIsCut(k: Costing, xs: seq<Candidate>, x: Candidate, window: nat) returns (n: nat)
    requires AllPlaced(k.pool, xs) && AllPlaced(k.pool, StableSort(xs, BY_SCORE)) && x in xs && Gate(k, x).Some?
    ensures var kept := Kept(k, StableSort(xs, BY_SCORE));
            && n < |kept| && kept[n] == Gate(k, x).value
            && (n >= window ==> forall m :: 0 <= m < window ==> kept[m].Score() >= x.Score())
  {
    var sorted := StableSort(xs, BY_SCORE);
    var kept := Kept(k, sorted);
    SortedMember(xs, BY_SCORE, x);
    KeptComplete(k, sorted, x);
    StableSortIsStable(xs, BY_SCORE);
    KeptDescending(k, sorted);
    n :| 0 <= n < |kept| && kept[n] == Gate(k, x).value;
    GateKeepsTeam(k, x);
    DescendingFrom(kept, n);
  }

  lemma GateKeepsTeam(k: Costing, c: Candidate)
    requires Placed(k.pool, c) && Gate(k, c).Some?
    ensures Gate(k, c).value.team == c.team
  {
  }

  lemma DescendingFrom(xs: seq<Candidate>, n: nat)
    requires Descending(xs, BY_SCORE) && n < |xs|
    ensures forall m :: 0 <= m < n ==> xs[m].Score() >= xs[n].Score()
  {
    assert forall m :: 0 <= m < n ==> BY_SCORE(xs[m]) >= BY_SCORE(xs[n]);
  }

  // ---------------------------------------------------------------- which teams stay in the window

  /** A passing team is kept at the position given by the passing teams before it. */
  lemma {:induction false} KeptAt(k: Costing, xs: seq<Candidate>, i: nat)
    requires AllPlaced(k.pool, xs) && i < |xs| && Gate(k, xs[i]).Some?
    ensures AllPlaced(k.pool, xs[..i])
    ensures var at := |Kept(k, xs[..i])|; at < |Kept(k, xs)| && Kept(k, xs)[at] == Gate(k, xs[i]).value
  {
    if k.StardustGate() || k.EtmGate() {
      var n := |xs| - 1;
      assert Kept(k, xs) == Kept(k, xs[..n]) + Passing(k, xs[n]);
      if i < n {
        assert xs[..n][..i] == xs[..i];
        KeptAt(k, xs[..n], i);
      }
    }
  }

  /** Every kept team comes from one position. */
  lemma {:induction false} KeptFrom(k: Costing, xs: seq<Candidate>, at: nat) returns (i: nat)
    requires AllPlaced(k.pool, xs) && at < |Kept(k, xs)|
    ensures i < |xs| && AllPlaced(k.pool, xs[..i]) && at == |Kept(k, xs[..i])| &&
              Gate(k, xs[i]) == Some(Kept(k, xs)[at])
  {
    i := at;
    if k.StardustGate() || k.EtmGate() {
      var n := |xs| - 1;
      if at < |Kept(k, xs[..n])| {
        i := KeptFrom(k, xs[..n], at);
        assert xs[..n][..i] == xs[..i];
      } else {
        i := n;
      }
    }
  }

  /** The team is among the first `window` kept ones. */
  ghost predicate InWindow(k: Costing, xs: seq<Candidate>, window: nat, team: Team)
    requires AllPlaced(k.pool, xs)
  {
    exists at :: 0 <= at < window && at < |Kept(k, xs)| && Kept(k, xs)[at].team == team
  }

  ghost predicate DistinctTeams(xs: seq<Candidate>) {
    forall i, j :: 0 <= i < j < |xs| ==> xs[i].team != xs[j].team
  }

  /** A passing team is in the window exactly when fewer than `window` teams before it pass. */
  lemma WindowIsExact(k: Costing, xs: seq<Candidate>, window: nat, i: nat)
    requires AllPlaced(k.pool, xs) && DistinctTeams(xs) && i < |xs| && Gate(k, xs[i]).Some?
    ensures AllPlaced(k.pool, xs[..i])
    ensures InWindow(k, xs, window, xs[i].team) <==> |Kept(k, xs[..i])| < window
  {
    KeptAt(k, xs, i);
    GateKeepsTeam(k, xs[i]);
    if at :| 0 <= at < window && at < |Kept(k, xs)| && Kept(k, xs)[at].team == xs[i].team {
      var j := KeptFrom(k, xs, at);
      GateKeepsTeam(k, xs[j]);
      assert j == i;
    }
  }

  /** Teams that the raised budget lets in and the old one did not. */
  function Admitted(k: Costing, raised: Costing, xs: seq<Candidate>): nat
    requires AllPlaced(k.pool, xs) && raised.pool == k.pool
  {
    if xs == [] then 0
    else
      var n := |xs| - 1;
      Admitted(k, raised, xs[..n]) + (if Gate(k, xs[n]).None? && Gate(raised, xs[n]).Some? then 1 else 0)
  }

  lemma {:induction false} KeptGrows(k: Costing, raised: Costing, xs: seq<Candidate>)
    requires AllPlaced(k.pool, xs) && Raises(k, raised)
    ensures |Kept(raised, xs)| == |Kept(k, xs)| + Admitted(k, raised, xs)
  {
    if xs != [] {
      var n := |xs| - 1;
      KeptGrows(k, raised, xs[..n]);
      RaisingLimitsKeepsTeams(k, raised.budget.value, xs[n]);
    }
  }

  /** The same request with every active limit at least as large. */
  ghost predicate Raises(k: Costing, raised: Costing) {
    && (k.StardustGate() || k.EtmGate()) && raised.budget.Some? && raised == k.(budget := raised.budget)
    && Relaxes(k.budget.value, raised.budget.value)
  }

  /** Raising a budget never drops a team at the gate. A team that was returned is still returned exactly when the
      better-ranked teams newly let in leave it a place in the window. */
  lemma RaisedBudgetKeepsExactly(k: Costing, raised: Costing, xs: seq<Candidate>, window: nat, i: nat)
    requires AllPlaced(k.pool, xs) && DistinctTeams(xs) && Raises(k, raised)
    requires i < |xs| && Gate(k, xs[i]).Some? && InWindow(k, xs, window, xs[i].team)
    ensures AllPlaced(k.pool, xs[..i]) && Gate(raised, xs[i]).Some?
    ensures InWindow(raised, xs, window, xs[i].team) <==>
            |Kept(k, xs[..i])| + Admitted(k, raised, xs[..i]) < window
  {
    RaisingLimitsKeepsTeams(k, raised.budget.value, xs[i]);
    WindowIsExact(raised, xs, window, i);
    KeptGrows(k, raised, xs[..i]);
  }

  /** Two budgets, the second raised from the first, and two teams in descending order: with room for one team, the
      one returned under the first budget is lost under the second. */
  lemma RaisedBudgetExample() returns (k: Costing, raised: Costing, xs: seq<Candidate>)
    ensures AllPlaced(k.pool, xs) && DistinctTeams(xs) && Descending(xs, BY_SCORE) && Raises(k, raised) && |xs| == 2
    ensures InWindow(k, xs, 1, xs[1].team) && !InWindow(raised, xs, 1, xs[1].team)
  {
    var c := Combatant("a", IV(0, 0, 0), 1.0, "", [], Options(false, false, false), "", false, "", NoSkip, [], 0);
    var free, small, large := Breakdown(0, 0), Breakdown(10, 0), Breakdown(20, 0);
    k := Costing(map[], [c, c, c, c], [free, free, small, large], Some(Budget(10, 0.0, 0, 0)));
    raised := k.(budget := Some(Budget(20, 0.0, 0, 0)));
    var cheap, dear := Team([], [0, 1, 2], 1.0, ""), Team([], [0, 1, 3], 2.0, "");
    xs := [Unpriced(dear), Unpriced(cheap)];
    ThreeTotals(k.breakdowns, cheap.poolIndices);
    ThreeTotals(k.breakdowns, dear.poolIndices);
    PlainLimit(k, dear, 10);
    PlainLimit(k, cheap, 10);
    PlainLimit(raised, dear, 20);
    SecondInWindow(k, raised, xs);
  }

  /** A stardust limit alone, without tolerance. */
  lemma PlainLimit(k: Costing, team: Team, limit: int)
    requires Placed(k.pool, Unpriced(team)) && k.budget == Some(Budget(limit, 0.0, 0, 0)) && limit > 0
    ensures Gate(k, Unpriced(team)).Some? <==> CostOf(k.breakdowns, team.poolIndices) <= limit
  {
    GatesAreExact(k, team);
    assert Band(limit, 0.0) == limit as real;
  }

  lemma SecondInWindow(k: Costing, raised: Costing, xs: seq<Candidate>)
    requires |xs| == 2 && AllPlaced(k.pool, xs) && DistinctTeams(xs) && Raises(k, raised)
    requires Gate(k, xs[0]).None? && Gate(raised, xs[0]).Some? && Gate(k, xs[1]).Some?
    ensures InWindow(k, xs, 1, xs[1].team) && !InWindow(raised, xs, 1, xs[1].team)
  {
    var first := xs[..1];
    assert first[..0] == [] && first[0] == xs[0] && Placed(k.pool, xs[0]);
    assert Admitted(k, raised, first[..0]) == 0 && Kept(k, first[..0]) == [];
    assert Kept(k, first) == [] && Admitted(k, raised, first) == 1;
    WindowIsExact(k, xs, 1, 1);
    RaisedBudgetKeepsExactly(k, raised, xs, 1, 1);
  }

  /** Filtering the sorted list is sorting the filtered list: what is returned are the first teams of the passing
      ones in the one stable descending order. */
  lemma SelectionIsTopOfPassing(k: Costing, xs: seq<Candidate>)
    requires AllPlaced(k.pool, xs)
    ensures AllPlaced(k.pool, StableSort(xs, BY_SCORE))
    ensures Kept(k, StableSort(xs, BY_SCORE)) == StableSort(Kept(k, xs), BY_SCORE)
    ensures IsStableSort(Kept(k, xs), Kept(k, StableSort(xs, BY_SCORE)), BY_SCORE)
  {
    SortKeepsPlaced(k.pool, xs);
    StableSortIsStable(xs, BY_SCORE);
    StableSortIsStable(Kept(k, xs), BY_SCORE);
    var a, b := Kept(k, StableSort(xs, BY_SCORE)), StableSort(Kept(k, xs), BY_SCORE);
    KeptDescending(k, StableSort(xs, BY_SCORE));
    forall v: real
      ensures WithKey(a, v, BY_SCORE) == WithKey(b, v, BY_SCORE) == WithKey(Kept(k, xs), v, BY_SCORE)
    {
      KeptByScore(k, StableSort(xs, BY_SCORE), v);
      KeptByScore(k, xs, v);
    }
    StableSortIsUnique(a, b, BY_SCORE);
  }
}
