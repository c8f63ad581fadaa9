/** internal/tools/team_builder.go: the whole request, from the caller's pool to the returned teams, without
    cancellation. The source reads the current snapshot three times, and a refresh may come in between. */
module TeamPipeline {
  import opened Wrappers
  import opened Gamemaster
  import opened AutoEvolve
  import opened RestrictedMoves
  import RatingMatrix
  import opened Sorting
  import opened TeamEnumeration
  import ParetoFrontier
  import opened TeamSelection
  import opened PoolCoordinates

  const MAX_POOL_SIZE := 50
  const TEAM_SIZE := 3
  const DEFAULT_MAX_RESULTS := 5

  /** Everything that a request reads and does not choose. Gate, evolution and building use `dex`, the moveset fill
      uses `fillDex`, league check, costs and budget use `lateDex`. */
  datatype Environment = Environment(
    engine: Engine,
    dex: Pokedex,
    fillDex: Pokedex,
    lateDex: Pokedex,
    moves: Moves,
    table: map<string, Requirement>,
    ranks: Ranks,
    cap: int,
    meta: seq<Fighter>,
    simulate: (Fighter, Fighter, nat) -> RatingMatrix.Cell,
    price: Combatant -> Breakdown)

  datatype Request = Request(
    pool: seq<Combatant>,
    banned: seq<string>,
    required: seq<string>,
    flags: Flags,
    autoEvolve: bool,
    optimizeFor: string,
    maxResults: int,
    budget: Option<Budget>)
  {
    function Window(): int {
      if maxResults == 0 then DEFAULT_MAX_RESULTS else maxResults
    }
  }

  datatype Failure =
    | MaxResultsInvalid
    | TooManyRequired
    | BadMember(error: MoveError)
    | PoolTooLarge
    | PoolTooSmall
    | RequiredNotInPool
    | MemberInvalidForLeague

  datatype Report = Report(teams: seq<Candidate>, evaluated: nat, failures: nat, members: seq<PoolMemberStatus>)

  // ---------------------------------------------------------------- scoring mode

  function SelectScenario(optimizeFor: string): nat {
    if optimizeFor == "0s" then 0 else if optimizeFor == "2s" then 2 else 1
  }

  function ScenarioTitle(optimizeFor: string): string {
    if optimizeFor in ["0s", "1s", "2s"] then ParetoFrontier.SCENARIO_LABELS[SelectScenario(optimizeFor)]
        else "best overall"
  }

  ghost predicate FromSearch(pool: seq<string>, required: set<string>, team: Team) {
    TripleOf(team) in Qualifying(pool, required) && team.members == Members(pool, TripleOf(team))
  }

  /** What the search offers: with one scenario to optimise for, every qualifying triple with a score, in
      lexicographic order; in the `all_pareto` mode, the frontier of the champions over all qualifying triples. */
  ghost predicate Offered(pool: seq<string>, matrix: Matrix, required: set<string>, optimizeFor: string,
                          teams: seq<Team>)
    requires |matrix| == |pool|
  {
    if optimizeFor == "all_pareto" then
      exists slots ::
        && ParetoFrontier.Champions(pool, matrix, Qualifying(pool, required), slots)
        && teams == ParetoFrontier.Frontier(slots, ParetoFrontier.AXES)
    else
      exists s, title ::
        && Mode(optimizeFor, s, title)
        && Emitted(pool, Scores(matrix, s), title, Qualifying(pool, required), teams)
  }

  /** The scenario that decides, by its number of shields, and the label of the teams: "0s", "1s" and "2s" name theirs,
      everything else means one shield and says "best overall". */
  ghost predicate Mode(optimizeFor: string, s: nat, title: string) {
    && s < RatingMatrix.SCENARIO_COUNT
    && (optimizeFor == "0s" ==> s == 0 && title == "best 0-shield")
    && (optimizeFor == "1s" ==> s == 1 && title == "best 1-shield")
    && (optimizeFor == "2s" ==> s == 2 && title == "best 2-shield")
    && (optimizeFor !in ["0s", "1s", "2s"] ==> s == 1 && title == "best overall")
  }

  /** Either mode counts every qualifying triple once and offers teams of qualifying triples only. */
  method EvaluateTeams(pool: seq<string>, matrix: Matrix, required: set<string>, optimizeFor: string)
    returns (teams: seq<Team>, evaluated: nat)
    requires |matrix| == |pool|
    ensures evaluated == |Qualifying(pool, required)|
    ensures forall team <- teams :: FromSearch(pool, required, team)
    ensures Offered(pool, matrix, required, optimizeFor, teams)
  {
    if optimizeFor == "all_pareto" {
      teams, evaluated := ParetoFrontier.BuildParetoFrontier(pool, matrix, required);
      ghost var slots :| ParetoFrontier.Champions(pool, matrix, Qualifying(pool, required), slots)
        && teams == ParetoFrontier.Frontier(slots, ParetoFrontier.AXES);
      forall n | 0 <= n < |teams| ensures FromSearch(pool, required, teams[n]) {
        var a := ParetoFrontier.FrontierMembers(slots, ParetoFrontier.AXES, n);
        assert ParetoFrontier.IsChampion(pool, ParetoFrontier.Merits(matrix, a), ParetoFrontier.Title(a),
                                         Qualifying(pool, required), slots[a]);
      }
      return;
    }
    teams, evaluated := EnumerateTeams(pool, matrix, required, SelectScenario(optimizeFor), ScenarioTitle(optimizeFor));
    assert Mode(optimizeFor, SelectScenario(optimizeFor), ScenarioTitle(optimizeFor));
  }

  // ---------------------------------------------------------------- preparing the pool

  function Stamp(pool: seq<Combatant>): (out: seq<Combatant>)
    ensures |out| == |pool| && Stamped(out)
  {
    seq(|pool|, i requires 0 <= i < |pool| => pool[i].(originalIndex := i))
  }

  /** The caller's entries after auto-evolve and moveset defaulting. */
  function FinalPool(env: Environment, request: Request): Result<seq<Combatant>, MoveError> {
    var stamped := Stamp(request.pool);
    FilledPool(env.fillDex, env.ranks, request.flags,
               if request.autoEvolve then EvolvedPool(env.engine, env.dex, env.table, env.cap, stamped) else stamped)
  }

  lemma FinalEntry(env: Environment, request: Request, i: nat)
    requires FinalPool(env, request).Ok? && i < |request.pool|
    ensures var final, spec := FinalPool(env, request).value, request.pool[i].(originalIndex := i);
            && |final| == |request.pool| && final[i].originalIndex == i
            && var evolved :=
                 if request.autoEvolve then Evolved(env.engine, env.dex, env.table, env.cap, spec) else spec;
            && WithMoves(env.fillDex, env.ranks, request.flags, evolved) == Ok(final[i])
  {
    var stamped := Stamp(request.pool);
    var specs := if request.autoEvolve then EvolvedPool(env.engine, env.dex, env.table, env.cap, stamped) else stamped;
    FilledOneByOne(env.fillDex, env.ranks, request.flags, specs, i);
  }

  /** An entry of the final pool: stamped, promoted if asked for, and filled with the recommended moves of its key
      unless it brought its own. */
  lemma FinalEntryIsFilled(env: Environment, request: Request, i: nat)
    requires FinalPool(env, request).Ok? && i < |request.pool|
    ensures var final, spec := FinalPool(env, request).value, request.pool[i].(originalIndex := i);
            var evolved :=
              if request.autoEvolve then Evolved(env.engine, env.dex, env.table, env.cap, spec) else spec;
            |final| == |request.pool| && FillsTo(env.fillDex, env.ranks, request.flags, evolved, Ok(final[i]))
  {
    FinalEntry(env, request, i);
    var spec := request.pool[i].(originalIndex := i);
    FillIsExact(env.fillDex, env.ranks, request.flags,
                if request.autoEvolve then Evolved(env.engine, env.dex, env.table, env.cap, spec) else spec);
  }

  /** A ban hits an entry exactly when it names the species as the caller wrote it or as it ended up. Callers cannot set
      `autoEvolvedFrom`. */
  lemma BanNamesEitherSpecies(env: Environment, request: Request, i: nat)
    requires FinalPool(env, request).Ok? && i < |request.pool|
    requires request.pool[i].autoEvolvedFrom == "" && request.pool[i].species != ""
    ensures var final := FinalPool(env, request).value;
            && |final| == |request.pool|
            && (IsBanned(final[i], SetOf(request.banned)) <==>
                  request.pool[i].species in request.banned || final[i].species in request.banned)
    ensures OriginalSpecies(FinalPool(env, request).value[i]) == request.pool[i].species
  {
    FinalEntry(env, request, i);
  }

  /** resolveSpeciesForSpec: the bookkeeping that building a combatant leaves on its entry. */
  function Annotated(dex: Pokedex, spec: Combatant): Combatant {
    match ResolveSpeciesLookup(dex, spec.species, spec.options)
    case None => spec
    case Some(r) => spec.(resolvedSpeciesId := r.id, shadowVariantMissing := r.shadowMissing)
  }

  /** Building notes the resolved id and whether the shadow entry was missing, on a known species, and nothing else. */
  lemma AnnotatedIsExact(dex: Pokedex, spec: Combatant, stem: string)
    requires IsStem(spec.species, stem)
    ensures var a := Annotated(dex, spec);
            && a == spec.(resolvedSpeciesId := a.resolvedSpeciesId, shadowVariantMissing := a.shadowVariantMissing)
            && (!spec.options.shadow && spec.species in dex ==>
                  a.resolvedSpeciesId == spec.species && !a.shadowVariantMissing)
            && (spec.options.shadow && stem + SHADOW_SUFFIX in dex ==>
                  a.resolvedSpeciesId == stem + SHADOW_SUFFIX && !a.shadowVariantMissing)
            && (spec.options.shadow && stem + SHADOW_SUFFIX !in dex && stem in dex ==>
                  a.resolvedSpeciesId == stem && a.shadowVariantMissing)
  {
    ResolveIsExact(dex, spec.species, spec.options, stem);
  }

  function AnnotatedPool(dex: Pokedex, specs: seq<Combatant>): seq<Combatant> {
    seq(|specs|, i requires 0 <= i < |specs| => Annotated(dex, specs[i]))
  }

  method ResolveRequired(pool: seq<Combatant>, required: seq<string>) returns (r: Option<set<string>>)
    ensures r.Some? <==> forall id <- required :: exists i :: 0 <= i < |pool| && pool[i].species == id
    ensures r.Some? ==> r.value == SetOf(required)
  {
    var present := set i | 0 <= i < |pool| :: pool[i].species;
    var out := {};
    for n := 0 to |required|
      invariant out == SetOf(required[..n]) && forall id <- required[..n] :: id in present
    {
      if required[n] !in present {
        assert required[n] in required && !exists i :: 0 <= i < |pool| && pool[i].species == required[n];
        return None;
      }
      out := out + {required[n]};
    }
    assert required[..|required|] == required;
    r := Some(out);
  }

  method ValidatePoolForLeague(engine: Engine, dex: Pokedex, cap: int, pool: seq<Combatant>) returns (valid: bool)
    ensures valid <==> forall i :: 0 <= i < |pool| ==> LeagueValid(engine, dex, cap, pool[i])
  {
    for i := 0 to |pool|
      invariant forall j :: 0 <= j < i ==> LeagueValid(engine, dex, cap, pool[j])
    {
      if !LeagueValid(engine, dex, cap, pool[i]) { return false; }
    }
    return true;
  }

  function JobOf(env: Environment, fighters: seq<Fighter>): RatingMatrix.Job {
    RatingMatrix.Job(|fighters|, |env.meta|, 1,
      (i: nat, o: nat, s: nat) =>
        if i < |fighters| && o < |env.meta| then env.simulate(fighters[i], env.meta[o], s)
            else RatingMatrix.Cell(0, false),
      (_, _, _) => true)
  }

  function MatrixOf(env: Environment, fighters: seq<Fighter>): (matrix: Matrix)
    ensures |matrix| == |fighters|
  {
    seq(|fighters|, i requires 0 <= i < |fighters| => RatingMatrix.SequentialRow(JobOf(env, fighters), i))
  }

  /** Every cell is the battle of that pool member, attacking, against that meta member with that many shields. */
  ghost predicate Simulated(env: Environment, fighters: seq<Fighter>, matrix: Matrix) {
    && |matrix| == |fighters|
    && forall i, o, s :: 0 <= i < |fighters| && 0 <= o < |env.meta| && 0 <= s < RatingMatrix.SCENARIO_COUNT ==>
         && |matrix[i]| == |env.meta| && |matrix[i][o]| == RatingMatrix.SCENARIO_COUNT
         && matrix[i][o][s] == env.simulate(fighters[i], env.meta[o], s)
  }

  method PrecomputeRatingMatrix(env: Environment, fighters: seq<Fighter>) returns (matrix: Matrix, failures: nat)
    ensures matrix == MatrixOf(env, fighters) && Simulated(env, fighters, matrix)
    ensures failures == RatingMatrix.TotalFails(JobOf(env, fighters), |fighters|)
  {
    var rows;
    rows, failures := RatingMatrix.FillSequentially(JobOf(env, fighters));
    matrix := rows;
  }

  // ---------------------------------------------------------------- the request

  /** What a successful answer guarantees. */
  ghost predicate Correct(env: Environment, request: Request, report: Report) {
    && FinalPool(env, request).Ok?
    && var final, banned, required := FinalPool(env, request).value, SetOf(request.banned), SetOf(request.required);
    && |final| == |request.pool|
    // teams: in the caller's coordinates, without a banned entry, with every required species
    && |report.teams| <= (if request.maxResults == 0 then 5 else request.maxResults)
    && (forall c <- report.teams :: Coordinates(final, banned, Quote(env), c))
    && (forall c <- report.teams, id <- required :: id in c.team.members)
    // counting
    && report.evaluated == |Qualifying(SpeciesIds(Unbanned(final, banned)), required)|
    // one status per entry
    && StatusesAgree(final, banned, report.teams, report.members)
    // what was simulated: every entry that is not banned, league-valid and, when the fill's snapshot rejects what the
    // gate's forbids, without a disallowed move
    && (forall i :: 0 <= i < |final| && !IsBanned(final[i], banned) ==> Admissible(env, request.flags, final[i]))
  }

  /** Which requests are answered at all. */
  ghost predicate Accepted(env: Environment, request: Request) {
    && request.maxResults >= 0 && |request.required| <= 3 && |request.pool| <= 50
    && RejectTeamRestricted(env.dex, Stamp(request.pool), request.flags).None?
    && FinalPool(env, request).Ok?
    && var specs := Unbanned(FinalPool(env, request).value, SetOf(request.banned));
    && |specs| >= 3
    && (forall i :: 0 <= i < |specs| ==> Build(env.dex, env.moves, specs[i]).Ok?)
    && (forall id <- request.required :: exists i :: 0 <= i < |specs| && specs[i].species == id)
    && (forall i :: 0 <= i < |specs| ==> LeagueValid(env.engine, env.lateDex, env.cap, specs[i]))
  }

  ghost predicate Admissible(env: Environment, flags: Flags, spec: Combatant) {
    && LeagueValid(env.engine, env.lateDex, env.cap, spec)
    && Build(env.dex, env.moves, spec).Ok?
    && (FillAgrees(env.dex, env.fillDex, flags) ==> Clean(flags, Build(env.dex, env.moves, spec).value))
  }

  ghost function Quote(env: Environment): Combatant -> Breakdown {
    c => env.price(Annotated(env.dex, c))
  }

  function SpecsOf(env: Environment, request: Request): seq<Combatant>
    requires FinalPool(env, request).Ok?
  {
    Unbanned(FinalPool(env, request).value, SetOf(request.banned))
  }

  function FightersOf(env: Environment, specs: seq<Combatant>): seq<Fighter>
    requires forall i :: 0 <= i < |specs| ==> Build(env.dex, env.moves, specs[i]).Ok?
  {
    seq(|specs|, i requires 0 <= i < |specs| => Build(env.dex, env.moves, specs[i]).value)
  }

  function CostingOf(env: Environment, request: Request, specs: seq<Combatant>): Costing {
    var pool := AnnotatedPool(env.dex, specs);
    Costing(env.lateDex, pool, seq(|pool|, i requires 0 <= i < |pool| => env.price(pool[i])), request.budget)
  }

  /** The form in which a kept team is returned. */
  function Returned(k: Costing, c: Candidate): Candidate {
    Remapped(k.pool, Attached(k.breakdowns, c))
  }

  /** A team that passes the gates is returned, or the window is full of teams at least as good. */
  ghost predicate ReturnedOrBeaten(k: Costing, window: int, team: Team, returned: seq<Candidate>)
    requires Placed(k.pool, Unpriced(team))
  {
    Gate(k, Unpriced(team)).Some? ==>
      || Returned(k, Gate(k, Unpriced(team)).value) in returned
      || (|returned| == window && forall c <- returned :: c.Score() >= team.score)
  }

  function Candidates(teams: seq<Team>): seq<Candidate> {
    seq(|teams|, n requires 0 <= n < |teams| => Unpriced(teams[n]))
  }

  /** What is returned: the first passing teams in the stable descending order, as many as the window holds. */
  ghost predicate Selected(k: Costing, window: int, teams: seq<Team>, returned: seq<Candidate>) {
    var sorted := StableSort(Candidates(teams), BY_SCORE);
    && AllPlaced(k.pool, sorted)
    && var kept := Kept(k, sorted);
    && |returned| == (if window < |kept| then window else |kept|)
    && forall n :: 0 <= n < |returned| ==> returned[n] == Returned(k, kept[n])
  }

  ghost predicate Optimal(k: Costing, window: int, teams: seq<Team>, returned: seq<Candidate>) {
    && Descending(returned, BY_SCORE)
    && (forall team <- teams :: Placed(k.pool, Unpriced(team)) && ReturnedOrBeaten(k, window, team, returned))
    && (forall c <- returned :: exists team <- teams ::
          && Placed(k.pool, Unpriced(team)) && Gate(k, Unpriced(team)).Some?
          && c == Returned(k, Gate(k, Unpriced(team)).value))
  }

  /** Beyond Correct: the failures are those of the simulated table, and what is returned is exactly the selection,
      and so the best in descending order, of what the search offers. */
  ghost predicate BestOffered(env: Environment, request: Request, report: Report)
    requires Accepted(env, request)
  {
    var specs := SpecsOf(env, request);
    var fighters, k, ids := FightersOf(env, specs), CostingOf(env, request, specs), SpeciesIds(specs);
    var window := if request.maxResults == 0 then 5 else request.maxResults;
    && report.failures == RatingMatrix.TotalFails(JobOf(env, fighters), |fighters|)
    && Consults(env, request, specs, k)
    && exists teams ::
         && Offered(ids, MatrixOf(env, fighters), SetOf(request.required), request.optimizeFor, teams)
         && Selected(k, window, teams, report.teams) && Optimal(k, window, teams, report.teams)
  }

  /** The budget filter looks at the caller's budget, the late snapshot and the annotated pool with its prices. */
  ghost predicate Consults(env: Environment, request: Request, specs: seq<Combatant>, k: Costing) {
    && k.budget == request.budget && k.dex == env.lateDex && |k.pool| == |k.breakdowns| == |specs|
    && forall i :: 0 <= i < |specs| ==>
         k.pool[i] == Annotated(env.dex, specs[i]) && k.breakdowns[i] == env.price(Annotated(env.dex, specs[i]))
  }

  /** The entries the request works on pass the gate on explicit moves, so nothing disallowed gets to the simulator. */
  lemma SimulatedIsClean(env: Environment, request: Request, i: nat)
    requires WellKeyedMoves(env.moves) && FinalPool(env, request).Ok? && i < |request.pool|
    requires |FinalPool(env, request).value| == |request.pool|
    requires RejectTeamRestricted(env.dex, Stamp(request.pool), request.flags).None?
    requires Build(env.dex, env.moves, FinalPool(env, request).value[i]).Ok?
    requires FillAgrees(env.dex, env.fillDex, request.flags)
    ensures Clean(request.flags, Build(env.dex, env.moves, FinalPool(env, request).value[i]).value)
  {
    FinalEntry(env, request, i);
    TeamGate(env.dex, Stamp(request.pool), request.flags, i);
    MemberIsClean(env.engine, env.dex, env.fillDex, env.table, env.moves, env.ranks, env.cap, request.autoEvolve,
                  request.flags, Stamp(request.pool)[i]);
  }

  /** The error names a check that the request fails. */
  ghost predicate Refuses(env: Environment, request: Request, failure: Failure) {
    var final := FinalPool(env, request);
    match failure
    case MaxResultsInvalid => request.maxResults < 0
    case TooManyRequired => |request.required| > 3
    case PoolTooLarge => |request.pool| > 50
    case BadMember(error) => MemberFails(env, request, error)
    case PoolTooSmall => final.Ok? && |SpecsOf(env, request)| < 3
    case RequiredNotInPool =>
      final.Ok? && exists id <- request.required :: forall c <- SpecsOf(env, request) :: c.species != id
    case MemberInvalidForLeague =>
      final.Ok? && exists c <- SpecsOf(env, request) :: !LeagueValid(env.engine, env.lateDex, env.cap, c)
  }

  /** The error comes from the gate, from the moveset fill or from building a member that is not banned. */
  ghost predicate MemberFails(env: Environment, request: Request, error: MoveError) {
    || RejectTeamRestricted(env.dex, Stamp(request.pool), request.flags) == Some(error)
    || FinalPool(env, request) == Err(error)
    || (FinalPool(env, request).Ok? && exists c <- SpecsOf(env, request) :: Build(env.dex, env.moves, c) == Err(error))
  }

  datatype Inputs = Inputs(original: seq<Combatant>, specs: seq<Combatant>, fighters: seq<Fighter>,
                           required: set<string>)

  /** What `PreHandleValidation` hands over. */
  ghost predicate Prepared(env: Environment, request: Request, inputs: Inputs) {
    && Accepted(env, request)
    && Ok(inputs.original) == FinalPool(env, request)
    && |inputs.original| == |request.pool| && Stamped(inputs.original)
    && inputs.specs == Unbanned(inputs.original, SetOf(request.banned))
    && inputs.specs == SpecsOf(env, request) && inputs.fighters == FightersOf(env, inputs.specs)
    && inputs.required == SetOf(request.required)
  }

  /** preHandleValidation: every check that can refuse the request. */
  method PreHandleValidation(env: Environment, request: Request) returns (r: Result<Inputs, Failure>)
    ensures r.Ok? <==> Accepted(env, request)
    ensures r.Err? ==> Refuses(env, request, r.error)
    ensures r.Ok? ==> Prepared(env, request, r.value)
  {
    if request.maxResults < 0 { return Err(MaxResultsInvalid); }
    if |request.required| > TEAM_SIZE { return Err(TooManyRequired); }
    var original := ResolvePool(env, request);
    if original.Err? { return Err(BadMember(original.error)); }
    if |request.pool| > MAX_POOL_SIZE { return Err(PoolTooLarge); }
    var specs := FilterPool(original.value, request.banned);
    if |specs| < TEAM_SIZE { return Err(PoolTooSmall); }
    var fighters := BuildFighters(env.dex, env.moves, specs);
    if fighters.Err? { return Err(BadMember(fighters.error)); }
    var required := ResolveRequired(specs, request.required);
    if required.None? { return Err(RequiredNotInPool); }
    var valid := ValidatePoolForLeague(env.engine, env.lateDex, env.cap, specs);
    if !valid { return Err(MemberInvalidForLeague); }
    r := Ok(Inputs(original.value, specs, fighters.value, required.value));
  }

  /** handle. */
  method Handle(env: Environment, request: Request) returns (r: Result<Report, Failure>)
    requires WellKeyedMoves(env.moves)
    ensures r.Ok? <==> Accepted(env, request)
    ensures r.Err? ==> Refuses(env, request, r.error)
    ensures r.Ok? ==> Correct(env, request, r.value) && BestOffered(env, request, r.value)
  {
    var prepared := PreHandleValidation(env, request);
    if prepared.Err? { return Err(prepared.error); }
    var report := Answer(env, request, prepared.value);
    r := Ok(report);
  }

  /** The part of handle that cannot fail. */
  method Answer(env: Environment, request: Request, inputs: Inputs) returns (report: Report)
    requires WellKeyedMoves(env.moves) && Prepared(env, request, inputs)
    ensures Correct(env, request, report) && BestOffered(env, request, report)
  {
    AllAdmissible(env, request);
    AnnotatedMirrors(env.dex, inputs.specs);
    CostingConsults(env, request, inputs.specs);
    var matrix, failures := PrecomputeRatingMatrix(env, inputs.fighters);
    var pool := AnnotatedPool(env.dex, inputs.specs);
    var teams, evaluated := EvaluateTeams(SpeciesIds(pool), matrix, inputs.required, request.optimizeFor);
    var returned, statuses := Finalise(env, request, inputs.original, pool, teams);
    report := Report(returned, evaluated, failures, statuses);
  }

  lemma CostingConsults(env: Environment, request: Request, specs: seq<Combatant>)
    ensures Consults(env, request, specs, CostingOf(env, request, specs))
  {
  }

  /** Clone and stamp the pool, gate the explicit moves, auto-evolve and fill in movesets in place. */
  method ResolvePool(env: Environment, request: Request) returns (r: Result<seq<Combatant>, MoveError>)
    ensures r.Ok? <==>
              FinalPool(env, request).Ok? && RejectTeamRestricted(env.dex, Stamp(request.pool), request.flags).None?
    ensures r.Ok? ==> FinalPool(env, request) == r
    ensures r.Err? ==> MemberFails(env, request, r.error)
    ensures r.Ok? ==> |r.value| == |request.pool| && Stamped(r.value)
  {
    var pool := new Combatant[|request.pool|](i requires 0 <= i < |request.pool| => request.pool[i]);
    for i := 0 to pool.Length
      invariant forall j :: 0 <= j < pool.Length ==>
                  pool[j] == if j < i then request.pool[j].(originalIndex := j) else request.pool[j]
    {
      pool[i] := pool[i].(originalIndex := i);
    }
    assert pool[..] == Stamp(request.pool);
    var gate := RejectTeamRestricted(env.dex, pool[..], request.flags);
    if gate.Some? { return Err(gate.value); }
    if request.autoEvolve {
      AutoEvolvePool(env.engine, env.dex, env.table, env.cap, pool);
    }
    var error := DefaultPoolMovesets(env.fillDex, env.ranks, request.flags, pool);
    if error.Some? { return Err(error.value); }
    r := Ok(pool[..]);
    forall i | 0 <= i < |request.pool| ensures |r.value| == |request.pool| && r.value[i].originalIndex == i {
      FinalEntry(env, request, i);
    }
  }

  method Finalise(env: Environment, request: Request, original: seq<Combatant>, pool: seq<Combatant>, teams: seq<Team>)
    returns (returned: seq<Candidate>, statuses: seq<PoolMemberStatus>)
    requires request.maxResults >= 0 && Stamped(original)
    requires pool == AnnotatedPool(env.dex, Unbanned(original, SetOf(request.banned)))
    requires forall team <- teams :: FromSearch(SpeciesIds(pool), SetOf(request.required), team)
    ensures |returned| <= request.Window()
    ensures forall c <- returned :: Coordinates(original, SetOf(request.banned), Quote(env), c)
    ensures forall c <- returned :: ContainsAll(c.team.members, SetOf(request.required))
    ensures StatusesAgree(original, SetOf(request.banned), returned, statuses)
    ensures var k := CostingOf(env, request, Unbanned(original, SetOf(request.banned)));
            Selected(k, request.Window(), teams, returned) && Optimal(k, request.Window(), teams, returned)
  {
    var k := CostingOf(env, request, Unbanned(original, SetOf(request.banned)));
    var candidates := Candidates(teams);
    AnnotatedMirrors(env.dex, Unbanned(original, SetOf(request.banned)));
    CandidatesAreEnumerated(pool, SetOf(request.required), teams, candidates);
    returned, statuses := FinaliseTeams(k, original, request.banned, request.Window(), candidates, Quote(env));
    ReturnedFromCandidates(k, candidates);
    forall n | 0 <= n < |returned| ensures ContainsAll(returned[n].team.members, SetOf(request.required)) {
      var kept := Kept(k, StableSort(candidates, BY_SCORE));
      assert kept[n] in kept && returned[n].team.members == kept[n].team.members;
      var x :| x in candidates && x.team == kept[n].team;
    }
    SelectionIsOptimal(k, request.Window(), teams, candidates, returned);
  }

  lemma SelectionIsOptimal(k: Costing, window: nat, teams: seq<Team>, candidates: seq<Candidate>,
                           returned: seq<Candidate>)
    requires |candidates| == |teams| && forall n :: 0 <= n < |teams| ==> candidates[n] == Unpriced(teams[n])
    requires AllPlaced(k.pool, candidates) && AllPlaced(k.pool, StableSort(candidates, BY_SCORE))
    requires var kept := Kept(k, StableSort(candidates, BY_SCORE));
             && |returned| == (if window < |kept| then window else |kept|)
             && forall n :: 0 <= n < |returned| ==> returned[n] == Returned(k, kept[n])
    ensures Optimal(k, window, teams, returned)
  {
    var sorted := StableSort(candidates, BY_SCORE);
    var kept := Kept(k, sorted);
    StableSortIsStable(candidates, BY_SCORE);
    KeptDescending(k, sorted);
    forall m, n | 0 <= m < n < |returned| ensures BY_SCORE(returned[m]) >= BY_SCORE(returned[n]) {
      assert BY_SCORE(kept[m]) >= BY_SCORE(kept[n]);
    }
    forall i | 0 <= i < |teams|
      ensures Placed(k.pool, Unpriced(teams[i])) && ReturnedOrBeaten(k, window, teams[i], returned)
    {
      assert candidates[i] in candidates;
      OneReturnedOrBeaten(k, window, teams[i], candidates, returned);
    }
    forall n | 0 <= n < |returned|
      ensures exists team <- teams :: Placed(k.pool, Unpriced(team)) && Gate(k, Unpriced(team)).Some?
                                      && returned[n] == Returned(k, Gate(k, Unpriced(team)).value)
    {
      OneOffered(k, teams, candidates, kept[n]);
    }
  }

  lemma OneReturnedOrBeaten(k: Costing, window: nat, team: Team, candidates: seq<Candidate>, returned: seq<Candidate>)
    requires AllPlaced(k.pool, candidates) && AllPlaced(k.pool, StableSort(candidates, BY_SCORE)) &&
               Unpriced(team) in candidates
    requires var kept := Kept(k, StableSort(candidates, BY_SCORE));
             && |returned| == (if window < |kept| then window else |kept|)
             && forall n :: 0 <= n < |returned| ==> returned[n] == Returned(k, kept[n])
    ensures ReturnedOrBeaten(k, window, team, returned)
  {
    if Gate(k, Unpriced(team)).Some? {
      var n := NothingBetterIsCut(k, candidates, Unpriced(team), window);
      if n < |returned| { assert returned[n] in returned; }
    }
  }

  lemma OneOffered(k: Costing, teams: seq<Team>, candidates: seq<Candidate>, y: Candidate)
    requires |candidates| == |teams| && forall n :: 0 <= n < |teams| ==> candidates[n] == Unpriced(teams[n])
    requires AllPlaced(k.pool, candidates) && AllPlaced(k.pool, StableSort(candidates, BY_SCORE))
    requires y in Kept(k, StableSort(candidates, BY_SCORE))
    ensures exists team <- teams :: Placed(k.pool, Unpriced(team)) && Gate(k, Unpriced(team)) == Some(y)
  {
    var x := KeptSound(k, StableSort(candidates, BY_SCORE), y);
    SortedMember(candidates, BY_SCORE, x);
    var i :| 0 <= i < |candidates| && candidates[i] == x;
    assert teams[i] in teams;
  }

  lemma AnnotatedMirrors(dex: Pokedex, specs: seq<Combatant>)
    ensures Mirrors(AnnotatedPool(dex, specs), specs)
    ensures SpeciesIds(AnnotatedPool(dex, specs)) == SpeciesIds(specs)
  {
  }

  lemma CandidatesAreEnumerated(pool: seq<Combatant>, required: set<string>, teams: seq<Team>,
                                candidates: seq<Candidate>)
    requires |candidates| == |teams| && forall n :: 0 <= n < |teams| ==> candidates[n] == Unpriced(teams[n])
    requires forall team <- teams :: FromSearch(SpeciesIds(pool), required, team)
    ensures AllEnumerated(pool, candidates) && AllPlaced(pool, candidates)
    ensures forall c <- candidates :: ContainsAll(c.team.members, required)
  {
    forall n | 0 <= n < |candidates|
      ensures Enumerated(pool, candidates[n]) && ContainsAll(candidates[n].team.members, required)
    {
      assert FromSearch(SpeciesIds(pool), required, teams[n]);
      assert Qualifies(SpeciesIds(pool), required, TripleOf(teams[n]));
    }
  }

  lemma ReturnedFromCandidates(k: Costing, xs: seq<Candidate>)
    requires AllPlaced(k.pool, xs)
    ensures AllPlaced(k.pool, StableSort(xs, BY_SCORE))
    ensures forall y <- Kept(k, StableSort(xs, BY_SCORE)) :: exists x <- xs :: x.team == y.team
  {
    SortKeepsPlaced(k.pool, xs);
    KeptFacts(k, StableSort(xs, BY_SCORE));
    StableSortIsStable(xs, BY_SCORE);
    forall y | y in Kept(k, StableSort(xs, BY_SCORE)) ensures exists x <- xs :: x.team == y.team {
      var x :| x in StableSort(xs, BY_SCORE) && y.team == x.team;
      SortedMember(xs, BY_SCORE, x);
    }
  }

  /** Nothing that is not banned escapes validation. */
  lemma AllAdmissible(env: Environment, request: Request)
    requires WellKeyedMoves(env.moves) && Accepted(env, request)
    requires |FinalPool(env, request).value| == |request.pool| && Stamped(FinalPool(env, request).value)
    ensures var final := FinalPool(env, request).value;
            forall i :: 0 <= i < |final| && !IsBanned(final[i], SetOf(request.banned)) ==>
                Admissible(env, request.flags, final[i])
  {
    var final := FinalPool(env, request).value;
    forall i | 0 <= i < |final| && !IsBanned(final[i], SetOf(request.banned))
      ensures Admissible(env, request.flags, final[i])
    {
      NoneLost(final, SetOf(request.banned), i);
      if FillAgrees(env.dex, env.fillDex, request.flags) { SimulatedIsClean(env, request, i); }
    }
  }
}
