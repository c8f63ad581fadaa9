/** internal/tools/legacy.go, moveset.go and matchup.go: from a caller's combatant to the combatant that
    the simulator sees, under the flags that disallow legacy and elite moves. */
module RestrictedMoves {
  import opened Wrappers
  import opened Gamemaster
  import opened Rankings
  import opened AutoEvolve

  datatype Category = Legacy | Elite

  /** disallow_legacy and disallow_elite. */
  datatype Flags = Flags(legacy: bool, elite: bool)
  {
    predicate Disallow(c: Category) {
      match c
      case Legacy => legacy
      case Elite => elite
    }
  }

  datatype MoveError =
    | LegacyConflict
    | EliteConflict
    | UnknownSpecies
    | InvalidIV
    | UnknownMove
    | MoveCategoryMismatch
    | NoRecommendedMoveset
    | RankingsFetch

  function Sentinel(c: Category): MoveError {
    match c
    case Legacy => LegacyConflict
    case Elite => EliteConflict
  }

  /** IsLegacyMove and IsEliteMove. */
  predicate InCategory(s: Species, c: Category, move: string) {
    match c
    case Legacy => move in s.legacyMoves
    case Elite => move in s.eliteMoves
  }

  predicate AnyIn(s: Species, c: Category, moves: seq<string>) {
    moves != [] && (InCategory(s, c, moves[0]) || AnyIn(s, c, moves[1..]))
  }

  // ---------------------------------------------------------------- the gate on explicit moves

  function AssertNoRestrictedInCategory(dex: Pokedex, spec: Combatant, disallow: bool, c: Category): Option<MoveError> {
    if !disallow then None
    else
      match ResolveSpeciesLookup(dex, spec.species, spec.options)
      case None => None
      case Some(r) =>
        if spec.fastMove != "" && InCategory(r.species, c, spec.fastMove) then Some(Sentinel(c))
        else if AnyIn(r.species, c, spec.chargedMoves) then Some(Sentinel(c))
        else None
  }

  function AssertNoRestricted(dex: Pokedex, spec: Combatant, flags: Flags): Option<MoveError> {
    match AssertNoRestrictedInCategory(dex, spec, flags.legacy, Legacy)
    case Some(e) => Some(e)
    case None => AssertNoRestrictedInCategory(dex, spec, flags.elite, Elite)
  }

  function RejectTeamRestricted(dex: Pokedex, team: seq<Combatant>, flags: Flags): Option<MoveError> {
    if team == [] || (!flags.legacy && !flags.elite) then None
    else
      match AssertNoRestricted(dex, team[0], flags)
      case Some(e) => Some(e)
      case None => RejectTeamRestricted(dex, team[1..], flags)
  }

  // ---------------------------------------------------------------- recommended movesets

  type Ranks = Result<seq<RankingEntry>, MoveError>

  datatype Moveset = Moveset(fast: string, charged: seq<string>)

  /** The first entry for the species decides, even if its moveset is empty. */
  function FindMoveset(entries: seq<RankingEntry>, species: string): Result<Moveset, MoveError> {
    if entries == [] then Err(NoRecommendedMoveset)
    else if entries[0].speciesId != species then FindMoveset(entries[1..], species)
    else if entries[0].moveset == [] then Err(NoRecommendedMoveset)
    else Ok(Moveset(entries[0].moveset[0], entries[0].moveset[1..]))
  }

  function ResolveMoveset(ranks: Ranks, species: string): Result<Moveset, MoveError> {
    match ranks
    case Err(_) => Err(RankingsFetch)
    case Ok(entries) => FindMoveset(entries, species)
  }

  function RejectResolvedCategory(dex: Pokedex, id: string, m: Moveset, disallow: bool,
                                  c: Category): Option<MoveError> {
    if !disallow || id !in dex then None
    else if InCategory(dex[id], c, m.fast) || AnyIn(dex[id], c, m.charged) then Some(Sentinel(c))
    else None
  }

  function RejectResolvedRestricted(dex: Pokedex, id: string, m: Moveset, flags: Flags): Option<MoveError> {
    match RejectResolvedCategory(dex, id, m, flags.legacy, Legacy)
    case Some(e) => Some(e)
    case None => RejectResolvedCategory(dex, id, m, flags.elite, Elite)
  }

  /** resolvedSpeciesIDForMoveset. */
  function MovesetId(dex: Pokedex, species: string, options: Options): string {
    if !options.shadow then species
    else
      match ResolveSpeciesLookup(dex, species, options)
      case None => species
      case Some(r) => r.id
  }

  /** applyMovesetDefaults. */
  function WithMoves(dex: Pokedex, ranks: Ranks, flags: Flags, spec: Combatant): Result<Combatant, MoveError> {
    if spec.fastMove != "" then Ok(spec)
    else
      var id := MovesetId(dex, spec.species, spec.options);
      match ResolveMoveset(ranks, id)
      case Err(e) => Err(e)
      case Ok(m) =>
        match RejectResolvedRestricted(dex, id, m, flags)
        case Some(e) => Err(e)
        case None => Ok(spec.(fastMove := m.fast, chargedMoves := m.charged))
  }

  // ---------------------------------------------------------------- the simulator's combatant

  datatype MoveKind = Fast | Charged

  datatype Move = Move(id: string, kind: MoveKind)

  type Moves = map<string, Move>

  datatype Fighter = Fighter(species: Species, iv: IV, level: real, fast: Move, charged: seq<Move>, isShadow: bool)

  /** Every entry is stored under its own id. */
  ghost predicate WellKeyedMoves(moves: Moves) {
    forall id <- moves :: moves[id].id == id
  }

  function ChargedMoves(moves: Moves, ids: seq<string>): Result<seq<Move>, MoveError> {
    if ids == [] then Ok([])
    else
      match ChargedMoves(moves, ids[..|ids| - 1])
      case Err(e) => Err(e)
      case Ok(earlier) =>
        var id := ids[|ids| - 1];
        if id !in moves then Err(UnknownMove)
        else if moves[id].kind != Charged then Err(MoveCategoryMismatch)
        else Ok(earlier + [moves[id]])
  }

  /** buildEngineCombatant; the shield count is set per simulation. */
  function Build(dex: Pokedex, moves: Moves, spec: Combatant): Result<Fighter, MoveError> {
    match ResolveSpeciesLookup(dex, spec.species, spec.options)
    case None => Err(UnknownSpecies)
    case Some(r) =>
      if !ValidIV(spec.iv) then Err(InvalidIV)
      else if spec.fastMove !in moves then Err(UnknownMove)
      else if moves[spec.fastMove].kind != Fast then Err(MoveCategoryMismatch)
      else
        match ChargedMoves(moves, spec.chargedMoves)
        case Err(e) => Err(e)
        case Ok(charged) => Ok(Fighter(r.species, spec.iv, spec.level, moves[spec.fastMove], charged,
                                       spec.options.shadow || HasSuffix(r.id, SHADOW_SUFFIX)))
  }

  // ---------------------------------------------------------------- what is promised

  predicate Forbidden(flags: Flags, s: Species, move: string) {
    (flags.legacy && move in s.legacyMoves) || (flags.elite && move in s.eliteMoves)
  }

  ghost predicate NoneForbidden(flags: Flags, s: Species, fast: string, charged: seq<string>) {
    !Forbidden(flags, s, fast) && forall m <- charged :: !Forbidden(flags, s, m)
  }

  /** The fighter carries no move that the flags disallow for its species. */
  ghost predicate Clean(flags: Flags, f: Fighter) {
    !Forbidden(flags, f.species, f.fast.id) && forall m <- f.charged :: !Forbidden(flags, f.species, m.id)
  }

  lemma {:induction false} AnyInMeans(s: Species, c: Category, moves: seq<string>)
    ensures AnyIn(s, c, moves) <==> exists m <- moves :: InCategory(s, c, m)
  {
    if moves != [] {
      AnyInMeans(s, c, moves[1..]);
      assert forall m :: m in moves <==> m == moves[0] || m in moves[1..];
    }
  }

  /** An explicit move of the combatant is on the list. */
  ghost predicate Carries(spec: Combatant, listed: set<string>) {
    (spec.fastMove != "" && spec.fastMove in listed) || exists m <- spec.chargedMoves :: m in listed
  }

  /** The gate rejects exactly the combatants of a known species that carry an explicit move from a disallowed list of
      the species, and names that list, the legacy one first: each flag alone never rejects on the other. */
  lemma GateIsExact(dex: Pokedex, spec: Combatant, flags: Flags)
    ensures var e, r := AssertNoRestricted(dex, spec, flags), ResolveSpeciesLookup(dex, spec.species, spec.options);
            if r.None? then e == None
            else
              var legacy := flags.legacy && Carries(spec, r.value.species.legacyMoves);
              var elite := flags.elite && Carries(spec, r.value.species.eliteMoves);
              e == if legacy then Some(LegacyConflict) else if elite then Some(EliteConflict) else None
  {
    var r := ResolveSpeciesLookup(dex, spec.species, spec.options);
    if r.Some? {
      AnyInMeans(r.value.species, Legacy, spec.chargedMoves);
      AnyInMeans(r.value.species, Elite, spec.chargedMoves);
    }
  }

  lemma {:induction false} TeamGate(dex: Pokedex, team: seq<Combatant>, flags: Flags, i: nat)
    requires i < |team| && RejectTeamRestricted(dex, team, flags).None?
    ensures AssertNoRestricted(dex, team[i], flags).None?
  {
    if i > 0 && (flags.legacy || flags.elite) { TeamGate(dex, team[1..], flags, i - 1); }
  }

  /** The whole pool passes exactly when every member does; the error is that of the first member that does not. */
  lemma {:induction false} TeamGateIsExact(dex: Pokedex, team: seq<Combatant>, flags: Flags)
    ensures var e := RejectTeamRestricted(dex, team, flags);
            if e.None? then forall i :: 0 <= i < |team| ==> AssertNoRestricted(dex, team[i], flags).None?
            else exists i :: 0 <= i < |team| && RejectedFirst(dex, team, flags, i, e.value)
  {
    if team != [] && (flags.legacy || flags.elite) {
      if AssertNoRestricted(dex, team[0], flags).None? {
        TeamGateIsExact(dex, team[1..], flags);
        var e := RejectTeamRestricted(dex, team[1..], flags);
        if e.Some? {
          var i :| 0 <= i < |team| - 1 && RejectedFirst(dex, team[1..], flags, i, e.value);
          RejectedLater(dex, team, flags, i, e.value);
        }
      } else {
        assert RejectedFirst(dex, team, flags, 0, AssertNoRestricted(dex, team[0], flags).value);
      }
    }
  }

  ghost predicate RejectedFirst(dex: Pokedex, team: seq<Combatant>, flags: Flags, i: nat, e: MoveError) {
    && i < |team| && AssertNoRestricted(dex, team[i], flags) == Some(e)
    && forall j :: 0 <= j < i ==> AssertNoRestricted(dex, team[j], flags).None?
  }

  lemma RejectedLater(dex: Pokedex, team: seq<Combatant>, flags: Flags, i: nat, e: MoveError)
    requires team != [] && AssertNoRestricted(dex, team[0], flags).None?
    requires RejectedFirst(dex, team[1..], flags, i, e)
    ensures RejectedFirst(dex, team, flags, i + 1, e)
  {
    forall j | 0 <= j < i + 1 ensures AssertNoRestricted(dex, team[j], flags).None? {
      if j > 0 { assert team[j] == team[1..][j - 1]; }
    }
  }

  lemma {:induction false} ChargedMovesAreLookups(moves: Moves, ids: seq<string>)
    requires WellKeyedMoves(moves) && ChargedMoves(moves, ids).Ok?
    ensures var out := ChargedMoves(moves, ids).value;
            |out| == |ids| && forall i :: 0 <= i < |ids| ==> ids[i] in moves && out[i] == moves[ids[i]]
  {
    if ids != [] { ChargedMovesAreLookups(moves, ids[..|ids| - 1]); }
  }

  lemma BuildKeepsClean(dex: Pokedex, moves: Moves, spec: Combatant, flags: Flags)
    requires WellKeyedMoves(moves) && Build(dex, moves, spec).Ok?
    requires NoneForbidden(flags, ResolveSpeciesLookup(dex, spec.species, spec.options).value.species,
                           spec.fastMove, spec.chargedMoves)
    ensures Clean(flags, Build(dex, moves, spec).value)
  {
    ChargedMovesAreLookups(moves, spec.chargedMoves);
    var f := Build(dex, moves, spec).value;
    forall m <- f.charged ensures m.id in spec.chargedMoves {
      var i :| 0 <= i < |f.charged| && f.charged[i] == m;
      assert spec.chargedMoves[i] == m.id;
    }
  }

  /** One pool member from the gate to the simulator: gate, auto-evolve, moveset fill, build. The moveset
      fill reads the snapshot `fillDex`. */
  function Member(engine: Engine, dex: Pokedex, fillDex: Pokedex, table: map<string, Requirement>, moves: Moves,
                  ranks: Ranks, cap: int, autoEvolve: bool, flags: Flags, spec: Combatant): Result<Fighter, MoveError> {
    match AssertNoRestricted(dex, spec, flags)
    case Some(e) => Err(e)
    case None =>
      match WithMoves(fillDex, ranks, flags, if autoEvolve then Evolved(engine, dex, table, cap, spec) else spec)
      case Err(e) => Err(e)
      case Ok(filled) => Build(dex, moves, filled)
  }

  /** Whatever the flags disallow for a species as resolved in `dex`, the moveset fill, which looks in
      `fillDex`, rejects too. */
  ghost predicate FillAgrees(dex: Pokedex, fillDex: Pokedex, flags: Flags) {
    forall species: string, options: Options, move: string ::
      ForbiddenIn(dex, flags, species, options, move) ==> FillRejects(fillDex, flags, species, options, move)
  }

  ghost predicate ForbiddenIn(dex: Pokedex, flags: Flags, species: string, options: Options, move: string) {
    var r := ResolveSpeciesLookup(dex, species, options);
    r.Some? && Forbidden(flags, r.value.species, move)
  }

  ghost predicate FillRejects(fillDex: Pokedex, flags: Flags, species: string, options: Options, move: string) {
    var id := MovesetId(fillDex, species, options);
    id in fillDex && Forbidden(flags, fillDex[id], move)
  }

  lemma FilledIsClean(dex: Pokedex, fillDex: Pokedex, ranks: Ranks, flags: Flags, spec: Combatant, r: Resolved)
    requires FillAgrees(dex, fillDex, flags) && spec.fastMove == "" && WithMoves(fillDex, ranks, flags, spec).Ok?
    requires ResolveSpeciesLookup(dex, spec.species, spec.options) == Some(r)
    ensures var filled := WithMoves(fillDex, ranks, flags, spec).value;
            NoneForbidden(flags, r.species, filled.fastMove, filled.chargedMoves)
  {
    var filled := WithMoves(fillDex, ranks, flags, spec).value;
    var id := MovesetId(fillDex, spec.species, spec.options);
    if id in fillDex {
      AnyInMeans(fillDex[id], Legacy, filled.chargedMoves);
      AnyInMeans(fillDex[id], Elite, filled.chargedMoves);
    }
    forall m | m == filled.fastMove || m in filled.chargedMoves ensures !Forbidden(flags, r.species, m) {
      assert ForbiddenIn(dex, flags, spec.species, spec.options, m) ==>
               FillRejects(fillDex, flags, spec.species, spec.options, m);
    }
  }

  lemma MemberIsClean(engine: Engine, dex: Pokedex, fillDex: Pokedex, table: map<string, Requirement>, moves: Moves,
                      ranks: Ranks, cap: int, autoEvolve: bool, flags: Flags, spec: Combatant)
    requires WellKeyedMoves(moves) && FillAgrees(dex, fillDex, flags)
    requires Member(engine, dex, fillDex, table, moves, ranks, cap, autoEvolve, flags, spec).Ok?
    ensures Clean(flags, Member(engine, dex, fillDex, table, moves, ranks, cap, autoEvolve, flags, spec).value)
  {
    var evolved := if autoEvolve then Evolved(engine, dex, table, cap, spec) else spec;
    var filled := WithMoves(fillDex, ranks, flags, evolved).value;
    var r := ResolveSpeciesLookup(dex, filled.species, filled.options).value;
    if evolved.fastMove == "" {
      FilledIsClean(dex, fillDex, ranks, flags, evolved, r);
    } else {
      GateIsExact(dex, spec, flags);
    }
    BuildKeepsClean(dex, moves, filled, flags);
  }

  /** For every caller, ranking, item table and engine, whatever reaches the simulator is clean. */
  ghost predicate NothingForbiddenPasses(dex: Pokedex, fillDex: Pokedex, flags: Flags) {
    forall engine: Engine, table: map<string, Requirement>, moves: Moves, ranks: Ranks, cap: int, autoEvolve: bool,
           spec: Combatant ::
      WellKeyedMoves(moves) && Member(engine, dex, fillDex, table, moves, ranks, cap, autoEvolve, flags, spec).Ok? ==>
        Clean(flags, Member(engine, dex, fillDex, table, moves, ranks, cap, autoEvolve, flags, spec).value)
  }

  /** A move that the fill does not know to be forbidden gets through by being recommended. */
  lemma Leak(dex: Pokedex, fillDex: Pokedex, flags: Flags, species: string, options: Options, move: string)
    requires ForbiddenIn(dex, flags, species, options, move) && !FillRejects(fillDex, flags, species, options, move)
    ensures !NothingForbiddenPasses(dex, fillDex, flags)
  {
    var spec := Combatant(species, IV(0, 0, 0), 1.0, "", [], options, "", false, "", NoSkip, [], 0);
    var engine := Engine(_ => None, (_, _, _) => 0);
    var moves: Moves := map[move := Move(move, Fast)];
    var id := MovesetId(fillDex, species, options);
    var ranks: Ranks := Ok([RankingEntry(id, [move])]);
    assert AssertNoRestricted(dex, spec, flags) == None;
    assert [move][1..] == [];
    assert FindMoveset([RankingEntry(id, [move])], id) == Ok(Moveset(move, []));
    assert RejectResolvedRestricted(fillDex, id, Moveset(move, []), flags) == None;
    var filled := spec.(fastMove := move, chargedMoves := []);
    assert WithMoves(fillDex, ranks, flags, spec) == Ok(filled);
    assert ChargedMoves(moves, []) == Ok([]);
    assert Build(dex, moves, filled).Ok?;
    var result := Member(engine, dex, fillDex, map[], moves, ranks, 0, false, flags, spec);
    assert result.Ok? && !Clean(flags, result.value);
  }

  /** The promise holds exactly when the moveset fill agrees with the snapshot used by the gate and the
      builder; in particular under one fixed snapshot. */
  lemma NoForbiddenMoveExactlyWhen(dex: Pokedex, fillDex: Pokedex, flags: Flags)
    ensures NothingForbiddenPasses(dex, fillDex, flags) <==> FillAgrees(dex, fillDex, flags)
    ensures NothingForbiddenPasses(dex, dex, flags)
  {
    if FillAgrees(dex, fillDex, flags) {
      AgreementSuffices(dex, fillDex, flags);
    } else {
      var species: string, options: Options, move: string :|
        ForbiddenIn(dex, flags, species, options, move) && !FillRejects(fillDex, flags, species, options, move);
      Leak(dex, fillDex, flags, species, options, move);
    }
    SameSnapshotAgrees(dex, flags);
    AgreementSuffices(dex, dex, flags);
  }

  lemma SameSnapshotAgrees(dex: Pokedex, flags: Flags)
    ensures FillAgrees(dex, dex, flags)
  {
    forall species: string, options: Options, move: string | ForbiddenIn(dex, flags, species, options, move)
      ensures FillRejects(dex, flags, species, options, move)
    {
      LookupIsStable(dex, species, options);
    }
  }

  lemma AgreementSuffices(dex: Pokedex, fillDex: Pokedex, flags: Flags)
    requires FillAgrees(dex, fillDex, flags)
    ensures NothingForbiddenPasses(dex, fillDex, flags)
  {
    forall engine: Engine, table: map<string, Requirement>, moves: Moves, ranks: Ranks, cap: int, autoEvolve: bool,
           spec: Combatant
      | WellKeyedMoves(moves) && Member(engine, dex, fillDex, table, moves, ranks, cap, autoEvolve, flags, spec).Ok?
      ensures Clean(flags, Member(engine, dex, fillDex, table, moves, ranks, cap, autoEvolve, flags, spec).value)
    {
      MemberIsClean(engine, dex, fillDex, table, moves, ranks, cap, autoEvolve, flags, spec);
    }
  }

  // ---------------------------------------------------------------- which moveset is filled in

  /** The id under which the moveset is looked up: that of the published shadow entry for a shadow, of the ordinary
      entry where there is no such entry, and the given id where neither is known. */
  ghost predicate MovesetKey(dex: Pokedex, species: string, options: Options, id: string) {
    if !options.shadow then id == species
    else
      exists stem :: IsStem(species, stem) && id ==
        if stem + SHADOW_SUFFIX in dex then stem + SHADOW_SUFFIX else if stem in dex then stem else species
  }

  lemma MovesetIdIsKey(dex: Pokedex, species: string, options: Options)
    ensures forall id :: MovesetKey(dex, species, options, id) <==> id == MovesetId(dex, species, options)
  {
    StemIsTrimmed(species);
    var stem := TrimSuffix(species, SHADOW_SUFFIX);
    ResolveIsExact(dex, species, options, stem);
    assert IsStem(species, stem);
  }

  /** Entry `i` is the first one for the species. */
  ghost predicate FirstFor(entries: seq<RankingEntry>, species: string, i: nat) {
    i < |entries| && entries[i].speciesId == species && forall j :: 0 <= j < i ==> entries[j].speciesId != species
  }

  /** The recommendation is the moveset of the first entry for the species, its first move the fast one; without such an
      entry, or when that moveset is empty, there is none. */
  ghost predicate Recommends(entries: seq<RankingEntry>, species: string, r: Result<Moveset, MoveError>) {
    if exists i: nat :: FirstFor(entries, species, i) && entries[i].moveset != [] then
      r.Ok? && exists i: nat :: FirstFor(entries, species, i) && [r.value.fast] + r.value.charged == entries[i].moveset
    else r == Err(NoRecommendedMoveset)
  }

  lemma {:induction false} FindsFirst(entries: seq<RankingEntry>, species: string)
    ensures Recommends(entries, species, FindMoveset(entries, species))
  {
    if entries != [] {
      var rest, r := entries[1..], FindMoveset(entries, species);
      if entries[0].speciesId == species {
        assert FirstFor(entries, species, 0);
        if entries[0].moveset != [] { assert [r.value.fast] + r.value.charged == entries[0].moveset; }
      } else {
        FindsFirst(rest, species);
        FirstLater(entries, species);
        if i: nat :| FirstFor(rest, species, i) && r.Ok? && [r.value.fast] + r.value.charged == rest[i].moveset {
          assert FirstFor(entries, species, i + 1);
        }
      }
    }
  }

  lemma FirstLater(entries: seq<RankingEntry>, species: string)
    requires entries != [] && entries[0].speciesId != species
    ensures forall i: nat :: FirstFor(entries[1..], species, i) <==> FirstFor(entries, species, i + 1)
    ensures forall i: nat :: FirstFor(entries, species, i) ==> i > 0 && FirstFor(entries[1..], species, i - 1)
  {
    var rest := entries[1..];
    forall i: nat | FirstFor(rest, species, i) ensures FirstFor(entries, species, i + 1) {
      forall j | 0 <= j < i + 1 ensures entries[j].speciesId != species {
        if j > 0 { assert entries[j] == rest[j - 1]; }
      }
    }
    forall i: nat | FirstFor(entries, species, i) ensures i > 0 && FirstFor(rest, species, i - 1) {
      forall j | 0 <= j < i - 1 ensures rest[j].speciesId != species { assert rest[j] == entries[j + 1]; }
    }
  }

  /** The flags allow all these moves, as far as the species is known. */
  ghost predicate AllAllowed(dex: Pokedex, flags: Flags, id: string, moves: seq<string>) {
    id in dex ==> forall m <- moves :: !Forbidden(flags, dex[id], m)
  }

  /** What filling in one combatant comes to: an explicit fast move leaves it alone; otherwise it gets the recommended
      moves of its key, unless the flags disallow one of them, and nothing else changes. */
  ghost predicate FillsTo(dex: Pokedex, ranks: Ranks, flags: Flags, spec: Combatant, r: Result<Combatant, MoveError>) {
    if spec.fastMove != "" then r == Ok(spec)
    else if ranks.Err? then r == Err(RankingsFetch)
    else
      exists id, m ::
        && MovesetKey(dex, spec.species, spec.options, id) && Recommends(ranks.value, id, m)
        && if m.Err? then r == Err(m.error)
           else if AllAllowed(dex, flags, id, [m.value.fast] + m.value.charged) then
             r == Ok(spec.(fastMove := m.value.fast, chargedMoves := m.value.charged))
           else r == Err(LegacyConflict) || r == Err(EliteConflict)
  }

  lemma FillIsExact(dex: Pokedex, ranks: Ranks, flags: Flags, spec: Combatant)
    ensures FillsTo(dex, ranks, flags, spec, WithMoves(dex, ranks, flags, spec))
  {
    if spec.fastMove == "" && ranks.Ok? {
      var id := MovesetId(dex, spec.species, spec.options);
      var m := FindMoveset(ranks.value, id);
      MovesetIdIsKey(dex, spec.species, spec.options);
      FindsFirst(ranks.value, id);
      if m.Ok? { RejectionIsExact(dex, id, m.value, flags); }
      assert MovesetKey(dex, spec.species, spec.options, id) && Recommends(ranks.value, id, m);
    }
  }

  lemma RejectionIsExact(dex: Pokedex, id: string, m: Moveset, flags: Flags)
    ensures RejectResolvedRestricted(dex, id, m, flags).None? <==> AllAllowed(dex, flags, id, [m.fast] + m.charged)
    ensures var e := RejectResolvedRestricted(dex, id, m, flags);
            e.Some? ==> e.value == LegacyConflict || e.value == EliteConflict
  {
    if id in dex {
      AnyInMeans(dex[id], Legacy, m.charged);
      AnyInMeans(dex[id], Elite, m.charged);
      assert forall move :: move in [m.fast] + m.charged <==> move == m.fast || move in m.charged;
    }
  }

  /** One combatant is built exactly when its species is known, its IVs lie in 0..15 and its moves are known and sit in
      their slots; the fighter then has those values. */
  lemma BuildIsExact(dex: Pokedex, moves: Moves, spec: Combatant)
    ensures var r, b := ResolveSpeciesLookup(dex, spec.species, spec.options), Build(dex, moves, spec);
            && (b.Ok? <==>
                  && r.Some? && 0 <= spec.iv.atk <= 15 && 0 <= spec.iv.def <= 15 && 0 <= spec.iv.sta <= 15
                  && spec.fastMove in moves && moves[spec.fastMove].kind == Fast
                  && forall m <- spec.chargedMoves :: m in moves && moves[m].kind == Charged)
            && (b.Ok? ==> var f := b.value;
                  && f.species == r.value.species && f.iv == spec.iv && f.level == spec.level
                  && f.fast == moves[spec.fastMove] && |f.charged| == |spec.chargedMoves|
                  && (forall i :: 0 <= i < |f.charged| ==> f.charged[i] == moves[spec.chargedMoves[i]])
                  && (f.isShadow <==> spec.options.shadow || exists stem :: r.value.id == stem + SHADOW_SUFFIX))
  {
    ChargedMovesExactly(moves, spec.chargedMoves);
    var r := ResolveSpeciesLookup(dex, spec.species, spec.options);
    if r.Some? { SuffixMeans(r.value.id, SHADOW_SUFFIX); }
  }

  lemma {:induction false} ChargedMovesExactly(moves: Moves, ids: seq<string>)
    ensures var r := ChargedMoves(moves, ids);
            && (r.Ok? <==> forall m <- ids :: m in moves && moves[m].kind == Charged)
            && (r.Ok? ==> |r.value| == |ids| && forall i :: 0 <= i < |ids| ==> r.value[i] == moves[ids[i]])
  {
    if ids != [] {
      ChargedMovesExactly(moves, ids[..|ids| - 1]);
      assert forall m :: m in ids <==> m in ids[..|ids| - 1] || m == ids[|ids| - 1];
    }
  }

  // ---------------------------------------------------------------- whole pools

  function FilledPool(fillDex: Pokedex, ranks: Ranks, flags: Flags,
                      specs: seq<Combatant>): Result<seq<Combatant>, MoveError> {
    if specs == [] then Ok([])
    else
      match FilledPool(fillDex, ranks, flags, specs[..|specs| - 1])
      case Err(e) => Err(e)
      case Ok(earlier) =>
        match WithMoves(fillDex, ranks, flags, specs[|specs| - 1])
        case Err(e) => Err(e)
        case Ok(spec) => Ok(earlier + [spec])
  }

  ghost predicate AllFilled(fillDex: Pokedex, ranks: Ranks, flags: Flags, specs: seq<Combatant>, out: seq<Combatant>) {
    |out| == |specs| && forall i :: 0 <= i < |specs| ==> FillsTo(fillDex, ranks, flags, specs[i], Ok(out[i]))
  }

  ghost predicate Fillable(fillDex: Pokedex, ranks: Ranks, flags: Flags, spec: Combatant) {
    exists out :: FillsTo(fillDex, ranks, flags, spec, Ok(out))
  }

  /** The error is that of the first combatant that cannot be filled. */
  ghost predicate FailsFirst(fillDex: Pokedex, ranks: Ranks, flags: Flags, specs: seq<Combatant>, e: MoveError) {
    exists i ::
      && 0 <= i < |specs| && FillsTo(fillDex, ranks, flags, specs[i], Err(e))
      && forall j :: 0 <= j < i ==> Fillable(fillDex, ranks, flags, specs[j])
  }

  /** The pool is filled one by one; a failure is that of the first combatant that cannot be filled. */
  lemma {:induction false} PoolFillIsExact(fillDex: Pokedex, ranks: Ranks, flags: Flags, specs: seq<Combatant>)
    ensures match FilledPool(fillDex, ranks, flags, specs)
            case Ok(out) => AllFilled(fillDex, ranks, flags, specs, out)
            case Err(e) => FailsFirst(fillDex, ranks, flags, specs, e)
  {
    if specs != [] {
      var n := |specs| - 1;
      PoolFillIsExact(fillDex, ranks, flags, specs[..n]);
      FillIsExact(fillDex, ranks, flags, specs[n]);
      match FilledPool(fillDex, ranks, flags, specs[..n])
      case Err(e) => FailureStays(fillDex, ranks, flags, specs, e);
      case Ok(out) => LastFilled(fillDex, ranks, flags, specs, out, WithMoves(fillDex, ranks, flags, specs[n]));
    }
  }

  lemma LastFilled(fillDex: Pokedex, ranks: Ranks, flags: Flags, specs: seq<Combatant>, out: seq<Combatant>,
                   last: Result<Combatant, MoveError>)
    requires specs != [] && AllFilled(fillDex, ranks, flags, specs[..|specs| - 1], out)
    requires FillsTo(fillDex, ranks, flags, specs[|specs| - 1], last)
    ensures match last
            case Ok(spec) => AllFilled(fillDex, ranks, flags, specs, out + [spec])
            case Err(e) => FailsFirst(fillDex, ranks, flags, specs, e)
  {
    var n := |specs| - 1;
    assert forall j :: 0 <= j < n ==> FillsTo(fillDex, ranks, flags, specs[..n][j], Ok(out[j]));
    assert forall j :: 0 <= j < n ==> Fillable(fillDex, ranks, flags, specs[j]);
  }

  lemma FailureStays(fillDex: Pokedex, ranks: Ranks, flags: Flags, specs: seq<Combatant>, e: MoveError)
    requires specs != [] && FailsFirst(fillDex, ranks, flags, specs[..|specs| - 1], e)
    ensures FailsFirst(fillDex, ranks, flags, specs, e)
  {
    var before := specs[..|specs| - 1];
    var i :| && 0 <= i < |before| && FillsTo(fillDex, ranks, flags, before[i], Err(e))
             && forall j :: 0 <= j < i ==> Fillable(fillDex, ranks, flags, before[j]);
    assert before[i] == specs[i] && forall j :: 0 <= j < i ==> before[j] == specs[j];
  }

  /** defaultPoolMovesets: fills the pool in place and stops at the first failure. */
  method DefaultPoolMovesets(fillDex: Pokedex, ranks: Ranks, flags: Flags, pool: array<Combatant>)
      returns (error: Option<MoveError>)
    modifies pool
    ensures var filled := FilledPool(fillDex, ranks, flags, old(pool[..]));
            if filled.Ok? then error == None && pool[..] == filled.value else error == Some(filled.error)
  {
    ghost var before, done := pool[..], [];
    for i := 0 to pool.Length
      invariant FilledPool(fillDex, ranks, flags, before[..i]) == Ok(done)
      invariant |done| == i && |before| == pool.Length
      invariant forall j :: 0 <= j < pool.Length ==> pool[j] == if j < i then done[j] else before[j]
    {
      FillNext(fillDex, ranks, flags, before, done);
      var spec := FillOne(fillDex, ranks, flags, pool[i]);
      if spec.Err? {
        FillFailsEarly(fillDex, ranks, flags, before, i + 1);
        return Some(spec.error);
      }
      pool[i] := spec.value;
      done := done + [spec.value];
    }
    assert before[..pool.Length] == before && pool[..] == done;
    error := None;
  }

  /** applyMovesetDefaults for one spec. */
  method FillOne(fillDex: Pokedex, ranks: Ranks, flags: Flags, spec: Combatant)
        returns (r: Result<Combatant, MoveError>)
    ensures r == WithMoves(fillDex, ranks, flags, spec)
  {
    r := Ok(spec);
    if spec.fastMove == "" {
      var id := MovesetId(fillDex, spec.species, spec.options);
      var m := ResolveMoveset(ranks, id);
      if m.Err? {
        return Err(m.error);
      }
      var conflict := RejectResolvedRestricted(fillDex, id, m.value, flags);
      if conflict.Some? {
        return Err(conflict.value);
      }
      r := Ok(spec.(fastMove := m.value.fast, chargedMoves := m.value.charged));
    }
  }

  lemma {:induction false} FillNext(fillDex: Pokedex, ranks: Ranks, flags: Flags, specs: seq<Combatant>,
                                    done: seq<Combatant>)
    requires |done| < |specs| && FilledPool(fillDex, ranks, flags, specs[..|done|]) == Ok(done)
    ensures FilledPool(fillDex, ranks, flags, specs[..|done| + 1]) ==
            match WithMoves(fillDex, ranks, flags, specs[|done|])
            case Err(e) => Err(e)
            case Ok(spec) => Ok(done + [spec])
  {
    assert specs[..|done| + 1][..|done|] == specs[..|done|];
  }

  /** A failure at one member is the failure of the whole pool. */
  lemma {:induction false} FillFailsEarly(fillDex: Pokedex, ranks: Ranks, flags: Flags, specs: seq<Combatant>, n: nat)
    requires n <= |specs| && FilledPool(fillDex, ranks, flags, specs[..n]).Err?
    ensures FilledPool(fillDex, ranks, flags, specs) == FilledPool(fillDex, ranks, flags, specs[..n])
  {
    if n < |specs| {
      assert specs[..|specs| - 1][..n] == specs[..n];
      FillFailsEarly(fillDex, ranks, flags, specs[..|specs| - 1], n);
    } else {
      assert specs[..n] == specs;
    }
  }

  lemma {:induction false} FilledOneByOne(fillDex: Pokedex, ranks: Ranks, flags: Flags, specs: seq<Combatant>, i: nat)
    requires FilledPool(fillDex, ranks, flags, specs).Ok? && i < |specs|
    ensures var filled := FilledPool(fillDex, ranks, flags, specs).value;
            |filled| == |specs| && WithMoves(fillDex, ranks, flags, specs[i]) == Ok(filled[i])
  {
    var n := |specs| - 1;
    if i < n {
      FilledOneByOne(fillDex, ranks, flags, specs[..n], i);
    } else if n > 0 {
      FilledOneByOne(fillDex, ranks, flags, specs[..n], 0);
    }
  }

  /** buildTeamCombatants, without the per-spec bookkeeping it writes back. */
  method BuildFighters(dex: Pokedex, moves: Moves, specs: seq<Combatant>) returns (r: Result<seq<Fighter>, MoveError>)
    ensures r.Ok? <==> forall i :: 0 <= i < |specs| ==> Build(dex, moves, specs[i]).Ok?
    ensures r.Ok? ==> |r.value| == |specs| && forall i :: 0 <= i < |specs| ==>
              Build(dex, moves, specs[i]) == Ok(r.value[i])
    ensures r.Err? ==> exists i :: 0 <= i < |specs| && Build(dex, moves, specs[i]) == Err(r.error)
                         && forall j :: 0 <= j < i ==> Build(dex, moves, specs[j]).Ok?
  {
    var out := [];
    for i := 0 to |specs|
      invariant |out| == i && forall j :: 0 <= j < i ==> Build(dex, moves, specs[j]) == Ok(out[j])
    {
      var f := Build(dex, moves, specs[i]);
      if f.Err? {
        return Err(f.error);
      }
      out := out + [f.value];
    }
    r := Ok(out);
  }
}
