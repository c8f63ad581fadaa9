/** The gamemaster snapshot, the caller's combatant and the shadow-aware species lookup
    (internal/tools/matchup.go), plus the engine functions that the tools call as black boxes. */
module Gamemaster {
  import opened Wrappers

  datatype BaseStats = BaseStats(atk: nat, def: nat, sta: nat)

  datatype IV = IV(atk: int, def: int, sta: int)

  datatype Species = Species(
    id: string,
    baseStats: BaseStats,
    evolutions: seq<string>,
    legacyMoves: set<string>,
    eliteMoves: set<string>)

  type Pokedex = map<string, Species>

  /** Every entry is stored under its own id. */
  ghost predicate WellKeyed(dex: Pokedex) {
    forall id <- dex :: dex[id].id == id
  }

  /** The battle engine: deterministic, otherwise unknown. `cpm` fails off the level grid. */
  datatype Engine = Engine(cpm: real -> Option<real>, cp: (BaseStats, IV, real) -> int)

  const MIN_LEVEL := 1.0
  const MAX_IV := 15

  /** pogopvp.NewIV. */
  predicate ValidIV(iv: IV) {
    0 <= iv.atk <= MAX_IV && 0 <= iv.def <= MAX_IV && 0 <= iv.sta <= MAX_IV
  }

  datatype Options = Options(shadow: bool, lucky: bool, purified: bool)

  datatype SkipReason = NoSkip | SkippedBranching | OverCap

  datatype Requirement = Requirement(item: string, candy: nat)

  /** One pool entry; the fields after `options` are the runtime bookkeeping. An empty `fastMove` asks
      for the recommended moveset, and an empty `autoEvolvedFrom` means that auto-evolve did nothing. */
  datatype Combatant = Combatant(
    species: string,
    iv: IV,
    level: real,
    fastMove: string,
    chargedMoves: seq<string>,
    options: Options,
    resolvedSpeciesId: string,
    shadowVariantMissing: bool,
    autoEvolvedFrom: string,
    autoEvolveSkip: SkipReason,
    autoEvolveRequirements: seq<Requirement>,
    originalIndex: nat)

  const SHADOW_SUFFIX := "_shadow"

  predicate HasSuffix(s: string, suffix: string) {
    |suffix| <= |s| && s[|s| - |suffix|..] == suffix
  }

  function TrimSuffix(s: string, suffix: string): string {
    if HasSuffix(s, suffix) then s[..|s| - |suffix|] else s
  }

  datatype Resolved = Resolved(species: Species, id: string, shadowMissing: bool)

  /** resolveSpeciesLookup: a shadow request tries the "_shadow" entry first and falls back to the base. */
  function ResolveSpeciesLookup(dex: Pokedex, baseId: string, opts: Options): Option<Resolved> {
    if opts.shadow then
      var id := TrimSuffix(baseId, SHADOW_SUFFIX);
      var shadowId := id + SHADOW_SUFFIX;
      if shadowId in dex then Some(Resolved(dex[shadowId], shadowId, false))
      else if id in dex then Some(Resolved(dex[id], id, true))
      else None
    else if baseId in dex then Some(Resolved(dex[baseId], baseId, false))
    else None
  }

  /** The id without its "_shadow" ending, or the id itself where it has none. */
  ghost predicate IsStem(id: string, stem: string) {
    id == stem + SHADOW_SUFFIX || (stem == id && forall t: string :: id != t + SHADOW_SUFFIX)
  }

  lemma SuffixMeans(s: string, suffix: string)
    ensures HasSuffix(s, suffix) <==> exists t: string :: s == t + suffix
  {
    if HasSuffix(s, suffix) { assert s == s[..|s| - |suffix|] + suffix; }
    if t: string :| s == t + suffix { assert s[|t|..] == suffix; }
  }

  lemma StemIsTrimmed(id: string)
    ensures forall stem :: IsStem(id, stem) <==> stem == TrimSuffix(id, SHADOW_SUFFIX)
  {
    if HasSuffix(id, SHADOW_SUFFIX) {
      assert id == id[..|id| - |SHADOW_SUFFIX|] + SHADOW_SUFFIX;
      forall t | id == t + SHADOW_SUFFIX ensures t == TrimSuffix(id, SHADOW_SUFFIX) {
        assert id[..|t|] == t;
      }
    } else {
      SuffixMeans(id, SHADOW_SUFFIX);
    }
  }

  /** A shadow request gets the published shadow entry, else the ordinary one flagged as a substitute; an ordinary
      request gets the entry under the very id. */
  lemma ResolveIsExact(dex: Pokedex, baseId: string, opts: Options, stem: string)
    requires IsStem(baseId, stem)
    ensures var r := ResolveSpeciesLookup(dex, baseId, opts);
            if !opts.shadow then
              (r.Some? <==> baseId in dex) && (r.Some? ==> r.value == Resolved(dex[baseId], baseId, false))
            else
              && (r.Some? <==> stem + SHADOW_SUFFIX in dex || stem in dex)
              && (stem + SHADOW_SUFFIX in dex ==>
                    r.value == Resolved(dex[stem + SHADOW_SUFFIX], stem + SHADOW_SUFFIX, false))
              && (stem + SHADOW_SUFFIX !in dex && stem in dex ==> r.value == Resolved(dex[stem], stem, true))
  {
    StemIsTrimmed(baseId);
  }

  /** Whatever is resolved is the entry stored under the resolved id, and asking again for that id gives
      the same entry, under either naming convention. */
  lemma LookupIsStable(dex: Pokedex, baseId: string, opts: Options)
    requires ResolveSpeciesLookup(dex, baseId, opts).Some?
    ensures var r := ResolveSpeciesLookup(dex, baseId, opts).value;
            && r.id in dex && dex[r.id] == r.species
            && ResolveSpeciesLookup(dex, r.id, opts).Some?
            && ResolveSpeciesLookup(dex, r.id, opts).value.species == r.species
            && (opts.shadow && !r.shadowMissing ==>
                  ResolveSpeciesLookup(dex, r.id, opts.(shadow := false)) == Some(r))
  {
    var r := ResolveSpeciesLookup(dex, baseId, opts).value;
    if opts.shadow {
      var id := TrimSuffix(baseId, SHADOW_SUFFIX);
      assert TrimSuffix(id + SHADOW_SUFFIX, SHADOW_SUFFIX) == id;
      if r.shadowMissing && HasSuffix(id, SHADOW_SUFFIX) {
        // An id that still ends in the suffix after trimming: its own entry is the shadow entry of its stem.
        var stem := id[..|id| - |SHADOW_SUFFIX|];
        assert stem + SHADOW_SUFFIX == id;
      }
    }
  }
}
