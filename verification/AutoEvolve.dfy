/** internal/tools/team_builder_evolve.go: promoting pool members along linear evolution chains. */
module AutoEvolve {
  import opened Wrappers
  import opened Gamemaster

  const AUTO_EVOLVE_MAX_DEPTH := 5

  /** What one walk is about: the snapshot, the curated item table, the member's IVs and the league cap. */
  datatype Walk = Walk(engine: Engine, dex: Pokedex, table: map<string, Requirement>, iv: IV, cpm: real, cap: int)
  {
    predicate Fits(s: Species) {
      engine.cp(s.baseStats, iv, cpm) <= cap
    }
  }

  datatype StepOutcome = Stop | Skip | OverCapAhead | Advance(next: Species)

  function AdvanceEvolveStep(w: Walk, current: Species): StepOutcome {
    if |current.evolutions| == 0 then Stop
    else if |current.evolutions| > 1 then Skip
    else if current.evolutions[0] !in w.dex then Stop
    else
      var next := w.dex[current.evolutions[0]];
      if w.Fits(next) then Advance(next) else OverCapAhead
  }

  // ---------------------------------------------------------------- what is being computed

  /** `b` is the only child of `a`, is known, and fits the cap at level 1. */
  ghost predicate Hop(w: Walk, a: Species, b: Species) {
    |a.evolutions| == 1 && a.evolutions[0] in w.dex && b == w.dex[a.evolutions[0]] && w.Fits(b)
  }

  /** A run of hops from `base`. */
  ghost predicate IsRun(w: Walk, base: Species, run: seq<Species>) {
    && run != [] && run[0] == base
    && forall i :: 0 < i < |run| ==> Hop(w, run[i - 1], run[i])
  }

  /** The run of at most `hops` hops that cannot be prolonged. */
  function Climb(w: Walk, s: Species, hops: nat): seq<Species>
    decreases hops
  {
    var step := AdvanceEvolveStep(w, s);
    if hops > 0 && step.Advance? then [s] + Climb(w, step.next, hops - 1) else [s]
  }

  lemma {:induction false} ClimbIsRun(w: Walk, s: Species, hops: nat)
    ensures IsRun(w, s, Climb(w, s, hops)) && |Climb(w, s, hops)| <= hops + 1
    decreases hops
  {
    var step := AdvanceEvolveStep(w, s);
    if hops > 0 && step.Advance? {
      ClimbIsRun(w, step.next, hops - 1);
      var run, rest := Climb(w, s, hops), Climb(w, step.next, hops - 1);
      forall i | 0 < i < |run| ensures Hop(w, run[i - 1], run[i]) {
        assert i > 1 ==> Hop(w, rest[i - 2], rest[i - 1]);
      }
    }
  }

  /** Every run of at most that many hops is a prefix of it: it is the longest. */
  lemma {:induction false} ClimbIsLongest(w: Walk, s: Species, hops: nat, run: seq<Species>)
    requires IsRun(w, s, run) && |run| <= hops + 1
    ensures run <= Climb(w, s, hops)
    decreases hops
  {
    if |run| > 1 {
      assert Hop(w, run[0], run[1]);
      var rest := run[1..];
      forall i | 0 < i < |rest| ensures Hop(w, rest[i - 1], rest[i]) {
        assert Hop(w, run[i], run[i + 1]);
      }
      ClimbIsLongest(w, run[1], hops - 1, rest);
      assert run == [s] + rest;
    }
  }

  /** The table entries of the species of a run, in order; species outside the table leave no trace. */
  function Requirements(table: map<string, Requirement>, run: seq<Species>): seq<Requirement> {
    if run == [] then []
    else
      var s := run[|run| - 1];
      Requirements(table, run[..|run| - 1]) + (if s.id in table then [table[s.id]] else [])
  }

  /** Why the very first hop failed, if that has a name. */
  function FirstHopReason(w: Walk, base: Species): SkipReason {
    match AdvanceEvolveStep(w, base)
    case Skip => SkippedBranching
    case OverCapAhead => OverCap
    case _ => NoSkip
  }

  // ---------------------------------------------------------------- the walk

  datatype Ending = Ending(terminal: Option<Species>, reason: SkipReason, requirements: seq<Requirement>)

  /** processEvolveStep: None to go on; a promotion already made outranks every reason to stop. */
  function ProcessEvolveStep(step: StepOutcome, lastFit: Option<Species>, reqs: seq<Requirement>): Option<Ending> {
    if step.Advance? then None
    else if lastFit.Some? then Some(Ending(lastFit, NoSkip, reqs))
    else
      match step
      case Skip => Some(Ending(None, SkippedBranching, []))
      case OverCapAhead => Some(Ending(None, OverCap, []))
      case _ => Some(Ending(None, NoSkip, []))
  }

  /** The result in terms of the longest run. */
  function EndingOf(w: Walk, base: Species): Ending {
    var run := Climb(w, base, AUTO_EVOLVE_MAX_DEPTH);
    if |run| == 1 then Ending(None, FirstHopReason(w, base), [])
    else Ending(Some(run[|run| - 1]), NoSkip, Requirements(w.table, run[1..]))
  }

  lemma {:induction false} ClimbSplit(w: Walk, s: Species, run: seq<Species>, hops: nat)
    requires IsRun(w, s, run)
    ensures Climb(w, s, |run| - 1 + hops) == run[..|run| - 1] + Climb(w, run[|run| - 1], hops)
    decreases |run|
  {
    if |run| == 1 {
      assert run[..0] + Climb(w, s, hops) == Climb(w, s, hops);
    } else {
      assert Hop(w, run[0], run[1]);
      var rest := run[1..];
      forall i | 0 < i < |rest| ensures Hop(w, rest[i - 1], rest[i]) {
        assert Hop(w, run[i], run[i + 1]);
      }
      ClimbSplit(w, run[1], rest, hops);
      assert run[..|run| - 1] == [s] + rest[..|rest| - 1];
    }
  }

  /** After `hop` hops: the run taken, its last form, and what the loop variables say about it. */
  ghost predicate Walked(w: Walk, base: Species, hop: nat, run: seq<Species>, current: Species,
                         lastFit: Option<Species>, requirements: seq<Requirement>)
  {
    && IsRun(w, base, run) && |run| == hop + 1 && current == run[hop]
    && lastFit == (if hop == 0 then None else Some(current))
    && requirements == Requirements(w.table, run[1..])
  }

  lemma WalkedOn(w: Walk, base: Species, hop: nat, run: seq<Species>, current: Species, lastFit: Option<Species>,
                 requirements: seq<Requirement>, next: Species)
    requires Walked(w, base, hop, run, current, lastFit, requirements) && Hop(w, current, next)
    ensures Walked(w, base, hop + 1, run + [next], next, Some(next),
                   requirements + (if next.id in w.table then [w.table[next.id]] else []))
  {
    var longer := run + [next];
    forall i | 0 < i < |longer| ensures Hop(w, longer[i - 1], longer[i]) {
      if i < |run| { assert Hop(w, run[i - 1], run[i]); }
    }
    assert longer[1..][..hop] == run[1..];
  }

  /** A run that cannot be prolonged, or is as long as allowed, is the whole climb. */
  lemma ClimbEnds(w: Walk, base: Species, hop: nat, run: seq<Species>)
    requires IsRun(w, base, run) && |run| == hop + 1 && hop <= AUTO_EVOLVE_MAX_DEPTH
    requires hop == AUTO_EVOLVE_MAX_DEPTH || !AdvanceEvolveStep(w, run[hop]).Advance?
    ensures Climb(w, base, AUTO_EVOLVE_MAX_DEPTH) == run
  {
    ClimbSplit(w, base, run, AUTO_EVOLVE_MAX_DEPTH - hop);
    assert run == run[..hop] + [run[hop]];
  }

  lemma WalkStopped(w: Walk, base: Species, hop: nat, run: seq<Species>, current: Species, lastFit: Option<Species>,
                    requirements: seq<Requirement>)
    requires Walked(w, base, hop, run, current, lastFit, requirements) && hop < AUTO_EVOLVE_MAX_DEPTH
    ensures var stopped := ProcessEvolveStep(AdvanceEvolveStep(w, current), lastFit, requirements);
            stopped.Some? ==> stopped.value == EndingOf(w, base)
  {
    if !AdvanceEvolveStep(w, current).Advance? { ClimbEnds(w, base, hop, run); }
  }

  method WalkEvolutionChain(w: Walk, base: Species) returns (ending: Ending)
    ensures ending == EndingOf(w, base)
  {
    var current, lastFit, requirements := base, None, [];
    ghost var run := [base];
    for hop := 0 to AUTO_EVOLVE_MAX_DEPTH
      invariant Walked(w, base, hop, run, current, lastFit, requirements)
    {
      var step := AdvanceEvolveStep(w, current);
      var stopped := ProcessEvolveStep(step, lastFit, requirements);
      WalkStopped(w, base, hop, run, current, lastFit, requirements);
      if stopped.Some? {
        return stopped.value;
      }
      WalkedOn(w, base, hop, run, current, lastFit, requirements, step.next);
      if step.next.id in w.table {
        requirements := requirements + [w.table[step.next.id]];
      }
      run := run + [step.next];
      lastFit, current := Some(step.next), step.next;
    }
    ClimbEnds(w, base, AUTO_EVOLVE_MAX_DEPTH, run);
    ending := Ending(lastFit, NoSkip, requirements);
  }

  // ---------------------------------------------------------------- pool members

  /** What auto-evolve makes of one pool entry. */
  function Evolved(engine: Engine, dex: Pokedex, table: map<string, Requirement>, cap: int,
                   spec: Combatant): Combatant {
    if spec.species !in dex || dex[spec.species].evolutions == [] || !ValidIV(spec.iv) then spec
    else
      match engine.cpm(MIN_LEVEL)
      case None => spec
      case Some(cpm) =>
        var ending := EndingOf(Walk(engine, dex, table, spec.iv, cpm, cap), dex[spec.species]);
        if ending.reason != NoSkip then spec.(autoEvolvedFrom := spec.species, autoEvolveSkip := ending.reason)
        else if ending.terminal.None? || ending.terminal.value.id == spec.species then spec
        else spec.(
          species := ending.terminal.value.id,
          autoEvolvedFrom := spec.species,
          autoEvolveRequirements := ending.requirements,
          fastMove := "",
          chargedMoves := [])
  }

  function EvolvedPool(engine: Engine, dex: Pokedex, table: map<string, Requirement>, cap: int,
                       specs: seq<Combatant>): seq<Combatant> {
    seq(|specs|, i requires 0 <= i < |specs| => Evolved(engine, dex, table, cap, specs[i]))
  }

  method AutoEvolvePool(engine: Engine, dex: Pokedex, table: map<string, Requirement>, cap: int, pool: array<Combatant>)
    modifies pool
    ensures pool[..] == EvolvedPool(engine, dex, table, cap, old(pool[..]))
  {
    ghost var before := pool[..];
    for i := 0 to pool.Length
      invariant forall j :: 0 <= j < pool.Length ==>
        pool[j] == if j < i then Evolved(engine, dex, table, cap, before[j]) else before[j]
    {
      var evolved := AutoEvolveMember(engine, dex, table, cap, pool[i]);
      pool[i] := evolved;
    }
  }

  method AutoEvolveMember(engine: Engine, dex: Pokedex, table: map<string, Requirement>, cap: int, spec: Combatant)
      returns (result: Combatant)
    ensures result == Evolved(engine, dex, table, cap, spec)
  {
    result := spec;
    if spec.species !in dex || dex[spec.species].evolutions == [] || !ValidIV(spec.iv) || engine.cpm(MIN_LEVEL).None? {
      return;
    }
    var w := Walk(engine, dex, table, spec.iv, engine.cpm(MIN_LEVEL).value, cap);
    var ending := WalkEvolutionChain(w, dex[spec.species]);
    if ending.reason != NoSkip {
      result := result.(autoEvolvedFrom := spec.species, autoEvolveSkip := ending.reason);
      return;
    }
    if ending.terminal.None? || ending.terminal.value.id == spec.species {
      return;
    }
    result := result.(species := ending.terminal.value.id, autoEvolvedFrom := spec.species,
                      autoEvolveRequirements := ending.requirements, fastMove := "", chargedMoves := []);
  }

  // ---------------------------------------------------------------- consequences

  /** validatePoolForLeague for one member: known, well-formed IVs, and level-1 CP within the cap. */
  predicate LeagueValid(engine: Engine, dex: Pokedex, cap: int, spec: Combatant) {
    var r := ResolveSpeciesLookup(dex, spec.species, spec.options);
    && r.Some? && ValidIV(spec.iv) && engine.cpm(MIN_LEVEL).Some?
    && engine.cp(r.value.species.baseStats, spec.iv, engine.cpm(MIN_LEVEL).value) <= cap
  }

  /** The promoted form is the end of the longest run of at most five hops, the requirements are those of the hops
      taken, the moveset is cleared, and everything else, the level and the IVs among it, stays. */
  lemma PromotionIsLongestRun(engine: Engine, dex: Pokedex, table: map<string, Requirement>, cap: int, spec: Combatant)
      returns (run: seq<Species>)
    requires Evolved(engine, dex, table, cap, spec).species != spec.species
    ensures var after := Evolved(engine, dex, table, cap, spec);
            && spec.species in dex && engine.cpm(MIN_LEVEL).Some?
            && var w := Walk(engine, dex, table, spec.iv, engine.cpm(MIN_LEVEL).value, cap);
            && IsRun(w, dex[spec.species], run) && 2 <= |run| <= 6
            && (forall other :: IsRun(w, dex[spec.species], other) && |other| <= 6 ==>
                  other <= run)
            && engine.cp(run[|run| - 1].baseStats, spec.iv, w.cpm) <= cap
            && after == spec.(
                 species := run[|run| - 1].id,
                 autoEvolvedFrom := spec.species,
                 autoEvolveRequirements := Requirements(table, run[1..]),
                 fastMove := "",
                 chargedMoves := [])
  {
    var w := Walk(engine, dex, table, spec.iv, engine.cpm(MIN_LEVEL).value, cap);
    var base := dex[spec.species];
    run := Climb(w, base, AUTO_EVOLVE_MAX_DEPTH);
    ClimbIsRun(w, base, AUTO_EVOLVE_MAX_DEPTH);
    assert Hop(w, run[|run| - 2], run[|run| - 1]);
    forall other | IsRun(w, base, other) && |other| <= 6 ensures other <= run {
      ClimbIsLongest(w, base, AUTO_EVOLVE_MAX_DEPTH, other);
    }
  }

  /** A member that is not promoted keeps its species and its moves; what it gets is a skip reason and its own id,
      exactly when the first hop branches or busts the cap. */
  lemma SkipReasonIsFirstHop(engine: Engine, dex: Pokedex, table: map<string, Requirement>, cap: int, spec: Combatant)
    requires Evolved(engine, dex, table, cap, spec).species == spec.species
    ensures var after := Evolved(engine, dex, table, cap, spec);
            if Unready(engine, dex, spec) then after == spec
            else
              var children, cpm := dex[spec.species].evolutions, engine.cpm(MIN_LEVEL).value;
              if |children| > 1 then after == spec.(autoEvolvedFrom := spec.species, autoEvolveSkip := SkippedBranching)
              else if children[0] in dex && engine.cp(dex[children[0]].baseStats, spec.iv, cpm) > cap then
                after == spec.(autoEvolvedFrom := spec.species, autoEvolveSkip := OverCap)
              else after == spec
  {
  }

  /** The walk does not start: an unknown or fully evolved species, impossible IVs, or no multiplier at level 1. */
  ghost predicate Unready(engine: Engine, dex: Pokedex, spec: Combatant) {
    spec.species !in dex || dex[spec.species].evolutions == [] || !ValidIV(spec.iv) || engine.cpm(MIN_LEVEL).None?
  }

  /** The species of a run leave their table entries behind one after the other. */
  lemma {:induction false} RequirementsAreAdditive(table: map<string, Requirement>, a: seq<Species>, b: seq<Species>,
                                                   s: Species)
    ensures Requirements(table, a + b) == Requirements(table, a) + Requirements(table, b)
    ensures Requirements(table, [s]) == if s.id in table then [table[s.id]] else []
  {
    assert [s][..0] == [];
    if b == [] {
      assert a + b == a;
    } else {
      assert (a + b)[..|a + b| - 1] == a + b[..|b| - 1];
      RequirementsAreAdditive(table, a, b[..|b| - 1], s);
    }
  }

  // ---------------------------------------------------------------- does promotion keep a member valid?

  /** The single-child chain of known forms, whether they fit or not. */
  function Chain(dex: Pokedex, s: Species, hops: nat): seq<Species>
    decreases hops
  {
    if hops > 0 && |s.evolutions| == 1 && s.evolutions[0] in dex then [s] + Chain(dex, dex[s.evolutions[0]], hops - 1)
    else [s]
  }

  /** A climb stops along the chain exactly before the first form that does not fit. */
  lemma {:induction false} ClimbAlongChain(w: Walk, s: Species, hops: nat)
    ensures var chain, climb := Chain(w.dex, s, hops), Climb(w, s, hops);
            && climb <= chain
            && (forall i :: 0 < i < |climb| ==> w.Fits(climb[i]))
            && (|climb| < |chain| ==> !w.Fits(chain[|climb|]))
    decreases hops
  {
    if hops > 0 && |s.evolutions| == 1 && s.evolutions[0] in w.dex {
      ClimbAlongChain(w, w.dex[s.evolutions[0]], hops - 1);
    }
  }

  lemma {:induction false} ChainIsKnown(dex: Pokedex, s: Species, hops: nat)
    ensures var chain := Chain(dex, s, hops);
            chain[0] == s && forall i :: 0 < i < |chain| ==> chain[i] in dex.Values
    decreases hops
  {
    if hops > 0 && |s.evolutions| == 1 && s.evolutions[0] in dex {
      var next := dex[s.evolutions[0]];
      ChainIsKnown(dex, next, hops - 1);
      assert Chain(dex, s, hops) == [s] + Chain(dex, next, hops - 1);
    }
  }

  /** The stats that the league check reads for a species id, under the member's options. */
  function LeagueStats(dex: Pokedex, id: string, options: Options): Option<BaseStats> {
    match ResolveSpeciesLookup(dex, id, options)
    case None => None
    case Some(r) => Some(r.species.baseStats)
  }

  /** Stats that are known to fit when the member is valid and the walk has got to form `n`. */
  ghost predicate Covered(before: BaseStats, chain: seq<Species>, n: nat, stats: BaseStats)
    requires n < |chain|
  {
    stats == before || exists i :: 0 < i <= n && chain[i].baseStats == stats
  }

  /** Ending at form `n` is harmless: it is the base again, or the league check reads stats that are known to fit,
      or the walk cannot end there because the next form is known to fit. */
  ghost predicate Harmless(dex: Pokedex, options: Options, before: BaseStats, chain: seq<Species>, n: nat)
    requires n < |chain|
  {
    || chain[n].id == chain[0].id
    || (exists stats :: LeagueStats(dex, chain[n].id, options) == Some(stats) && Covered(before, chain, n, stats))
    || (n + 1 < |chain| && Covered(before, chain, n, chain[n + 1].baseStats))
  }

  /** For every engine, item table and cap: a league-valid member is league-valid after promotion. */
  ghost predicate StaysInLeague(dex: Pokedex, spec: Combatant) {
    forall engine: Engine, table: map<string, Requirement>, cap: int ::
      LeagueValid(engine, dex, cap, spec) ==> LeagueValid(engine, dex, cap, Evolved(engine, dex, table, cap, spec))
  }

  /** A condition on the published data alone. */
  ghost predicate HarmlessChain(dex: Pokedex, spec: Combatant) {
    var before := LeagueStats(dex, spec.species, spec.options);
    before.Some? && ValidIV(spec.iv) && spec.species in dex ==>
      var chain := Chain(dex, dex[spec.species], AUTO_EVOLVE_MAX_DEPTH);
      forall n :: 0 < n < |chain| ==> Harmless(dex, spec.options, before.value, chain, n)
  }

  /** Promotion keeps every valid member valid, under every engine, item table and cap, exactly when each form of its
      chain is harmless to end at. */
  lemma PromotionStaysInLeague(dex: Pokedex, spec: Combatant)
    requires WellKeyed(dex)
    ensures StaysInLeague(dex, spec) <==> HarmlessChain(dex, spec)
    ensures !spec.options.shadow ==> StaysInLeague(dex, spec)
  {
    if !spec.options.shadow { WithoutShadowHarmless(dex, spec); }
    if HarmlessChain(dex, spec) {
      forall engine: Engine, table: map<string, Requirement>, cap: int | LeagueValid(engine, dex, cap, spec)
        ensures LeagueValid(engine, dex, cap, Evolved(engine, dex, table, cap, spec))
      {
        HarmlessPromotion(engine, dex, table, cap, spec);
      }
    } else {
      var chain := Chain(dex, dex[spec.species], AUTO_EVOLVE_MAX_DEPTH);
      var before := LeagueStats(dex, spec.species, spec.options).value;
      var n: nat :| 0 < n < |chain| && !Harmless(dex, spec.options, before, chain, n);
      var engine := ShadowPromotionCanBustCap(dex, spec, n, 0);
      assert !LeagueValid(engine, dex, 0, Evolved(engine, dex, map[], 0, spec));
    }
  }

  lemma HarmlessPromotion(engine: Engine, dex: Pokedex, table: map<string, Requirement>, cap: int, spec: Combatant)
    requires WellKeyed(dex) && HarmlessChain(dex, spec) && LeagueValid(engine, dex, cap, spec)
    ensures LeagueValid(engine, dex, cap, Evolved(engine, dex, table, cap, spec))
  {
    var after := Evolved(engine, dex, table, cap, spec);
    if after.species != spec.species {
      var w := Walk(engine, dex, table, spec.iv, engine.cpm(MIN_LEVEL).value, cap);
      var base := dex[spec.species];
      var n := |Climb(w, base, AUTO_EVOLVE_MAX_DEPTH)| - 1;
      var chain := Chain(dex, base, AUTO_EVOLVE_MAX_DEPTH);
      ClimbAlongChain(w, base, AUTO_EVOLVE_MAX_DEPTH);
      ChainIsKnown(dex, base, AUTO_EVOLVE_MAX_DEPTH);
      var before := LeagueStats(dex, spec.species, spec.options).value;
      CoveredFits(w, before, chain, n);
      assert Harmless(dex, spec.options, before, chain, n);
    }
  }

  lemma CoveredFits(w: Walk, before: BaseStats, chain: seq<Species>, n: nat)
    requires n < |chain| && w.engine.cp(before, w.iv, w.cpm) <= w.cap && forall i :: 0 < i <= n ==> w.Fits(chain[i])
    ensures forall stats :: Covered(before, chain, n, stats) ==> w.engine.cp(stats, w.iv, w.cpm) <= w.cap
  {
  }

  lemma WithoutShadowHarmless(dex: Pokedex, spec: Combatant)
    requires WellKeyed(dex) && !spec.options.shadow
    ensures HarmlessChain(dex, spec)
  {
    if spec.species in dex {
      var chain := Chain(dex, dex[spec.species], AUTO_EVOLVE_MAX_DEPTH);
      ChainIsKnown(dex, dex[spec.species], AUTO_EVOLVE_MAX_DEPTH);
      forall n | 0 < n < |chain| ensures LeagueStats(dex, chain[n].id, spec.options) == Some(chain[n].baseStats) {
        assert chain[n] in dex.Values;
      }
    }
  }

  /** The form of the chain that is not harmless is reached, and fails the league check, on the engine on which
      exactly the stats known to fit do fit. */
  lemma ShadowPromotionCanBustCap(dex: Pokedex, spec: Combatant, n: nat, cap: int) returns (engine: Engine)
    requires WellKeyed(dex) && ValidIV(spec.iv) && spec.species in dex
    requires LeagueStats(dex, spec.species, spec.options).Some?
    requires var chain := Chain(dex, dex[spec.species], AUTO_EVOLVE_MAX_DEPTH);
             var before := LeagueStats(dex, spec.species, spec.options).value;
             0 < n < |chain| && !Harmless(dex, spec.options, before, chain, n)
    ensures LeagueValid(engine, dex, cap, spec)
    ensures forall table :: Evolved(engine, dex, table, cap, spec).species ==
                            Chain(dex, dex[spec.species], AUTO_EVOLVE_MAX_DEPTH)[n].id
    ensures forall table :: !LeagueValid(engine, dex, cap, Evolved(engine, dex, table, cap, spec))
  {
    engine := Frugal(dex, spec, n, cap);
    forall table ensures Evolved(engine, dex, table, cap, spec).species ==
                         Chain(dex, dex[spec.species], AUTO_EVOLVE_MAX_DEPTH)[n].id
                         && !LeagueValid(engine, dex, cap, Evolved(engine, dex, table, cap, spec))
    {
      FrugalBusts(dex, spec, n, cap, table);
    }
  }

  /** The engine on which exactly the stats known to fit at form `n` fit the cap. */
  ghost function Frugal(dex: Pokedex, spec: Combatant, n: nat, cap: int): Engine
    requires spec.species in dex && n < |Chain(dex, dex[spec.species], AUTO_EVOLVE_MAX_DEPTH)|
    requires LeagueStats(dex, spec.species, spec.options).Some?
  {
    var chain := Chain(dex, dex[spec.species], AUTO_EVOLVE_MAX_DEPTH);
    var before := LeagueStats(dex, spec.species, spec.options).value;
    Engine(_ => Some(1.0), (b, _, _) => if Covered(before, chain, n, b) then cap else cap + 1)
  }

  lemma FrugalBusts(dex: Pokedex, spec: Combatant, n: nat, cap: int, table: map<string, Requirement>)
    requires WellKeyed(dex) && ValidIV(spec.iv) && spec.species in dex
    requires LeagueStats(dex, spec.species, spec.options).Some?
    requires var chain := Chain(dex, dex[spec.species], AUTO_EVOLVE_MAX_DEPTH);
             var before := LeagueStats(dex, spec.species, spec.options).value;
             0 < n < |chain| && !Harmless(dex, spec.options, before, chain, n)
    ensures var after := Evolved(Frugal(dex, spec, n, cap), dex, table, cap, spec);
            && after.species == Chain(dex, dex[spec.species], AUTO_EVOLVE_MAX_DEPTH)[n].id
            && !LeagueValid(Frugal(dex, spec, n, cap), dex, cap, after)
  {
    var base, engine := dex[spec.species], Frugal(dex, spec, n, cap);
    var chain := Chain(dex, base, AUTO_EVOLVE_MAX_DEPTH);
    var before := LeagueStats(dex, spec.species, spec.options).value;
    var w := Walk(engine, dex, table, spec.iv, 1.0, cap);
    FrugalClimb(w, base, before, n);
    EvolvedByClimb(engine, dex, table, cap, spec, 1.0, n);
    BustedAt(engine, dex, cap, Evolved(engine, dex, table, cap, spec), chain, before, n);
  }

  lemma FrugalClimb(w: Walk, base: Species, before: BaseStats, n: nat)
    requires n < |Chain(w.dex, base, AUTO_EVOLVE_MAX_DEPTH)|
    requires forall s: Species :: w.Fits(s) <==>
               Covered(before, Chain(w.dex, base, AUTO_EVOLVE_MAX_DEPTH), n, s.baseStats)
    requires var chain := Chain(w.dex, base, AUTO_EVOLVE_MAX_DEPTH);
             n + 1 < |chain| ==> !Covered(before, chain, n, chain[n + 1].baseStats)
    ensures Climb(w, base, AUTO_EVOLVE_MAX_DEPTH) == Chain(w.dex, base, AUTO_EVOLVE_MAX_DEPTH)[..n + 1]
  {
    ClimbStopsAt(w, base, AUTO_EVOLVE_MAX_DEPTH, n);
  }

  lemma EvolvedByClimb(engine: Engine, dex: Pokedex, table: map<string, Requirement>, cap: int, spec: Combatant,
                       cpm: real, n: nat)
    requires spec.species in dex && ValidIV(spec.iv) && engine.cpm(MIN_LEVEL) == Some(cpm) && WellKeyed(dex)
    requires var chain := Chain(dex, dex[spec.species], AUTO_EVOLVE_MAX_DEPTH);
             && 0 < n < |chain| && chain[n].id != chain[0].id
             && Climb(Walk(engine, dex, table, spec.iv, cpm, cap), dex[spec.species], AUTO_EVOLVE_MAX_DEPTH) ==
                chain[..n + 1]
    ensures var after := Evolved(engine, dex, table, cap, spec);
            && after.species == Chain(dex, dex[spec.species], AUTO_EVOLVE_MAX_DEPTH)[n].id
            && after.options == spec.options && after.iv == spec.iv
  {
    ChainIsKnown(dex, dex[spec.species], AUTO_EVOLVE_MAX_DEPTH);
  }

  lemma ClimbStopsAt(w: Walk, s: Species, hops: nat, n: nat)
    requires var chain := Chain(w.dex, s, hops);
             n < |chain| && (forall i :: 0 < i <= n ==> w.Fits(chain[i])) && (n + 1 < |chain| ==> !w.Fits(chain[n + 1]))
    ensures Climb(w, s, hops) == Chain(w.dex, s, hops)[..n + 1]
  {
    ClimbAlongChain(w, s, hops);
  }

  lemma BustedAt(engine: Engine, dex: Pokedex, cap: int, after: Combatant, chain: seq<Species>, before: BaseStats,
                 n: nat)
    requires 0 < n < |chain| && !Harmless(dex, after.options, before, chain, n) && after.species == chain[n].id
    requires engine.cpm(MIN_LEVEL).Some?
    requires forall stats :: !Covered(before, chain, n, stats) ==>
               engine.cp(stats, after.iv, engine.cpm(MIN_LEVEL).value) > cap
    ensures !LeagueValid(engine, dex, cap, after)
  {
    var stats := LeagueStats(dex, after.species, after.options);
    if stats.Some? { assert !Covered(before, chain, n, stats.value); }
  }

  /** An input on which promotion of a shadow member costs it its league. */
  lemma ShadowPromotionExample() returns (dex: Pokedex, spec: Combatant)
    ensures WellKeyed(dex) && !StaysInLeague(dex, spec)
  {
    var child := Species("b", BaseStats(2, 2, 2), [], {}, {});
    var shadow := Species("b_shadow", BaseStats(3, 3, 3), [], {}, {});
    var base := Species("a", BaseStats(1, 1, 1), ["b"], {}, {});
    dex := map["a" := base, "b" := child, "b_shadow" := shadow];
    spec := Combatant("a", IV(0, 0, 0), 1.0, "", [], Options(true, false, false), "", false, "", NoSkip, [], 0);
    assert "b" + SHADOW_SUFFIX == "b_shadow" && !HasSuffix("a", SHADOW_SUFFIX) && !HasSuffix("b", SHADOW_SUFFIX);
    assert "a" + SHADOW_SUFFIX !in dex by { assert ("a" + SHADOW_SUFFIX)[0] == 'a' && |"a" + SHADOW_SUFFIX| == 8; }
    assert Chain(dex, child, 4) == [child];
    assert Chain(dex, base, AUTO_EVOLVE_MAX_DEPTH) == [base, child];
    assert LeagueStats(dex, "b", spec.options) == Some(shadow.baseStats);
    PromotionStaysInLeague(dex, spec);
    assert !Harmless(dex, spec.options, base.baseStats, [base, child], 1);
  }
}
