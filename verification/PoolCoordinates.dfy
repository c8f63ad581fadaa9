/** internal/tools/team_builder.go: the ban filter, the per-entry status list, the rewriting of pool indices from the
    filtered pool to the caller's pool, and the final selection that uses all three. */
module PoolCoordinates {
  import opened Wrappers
  import opened Gamemaster
  import opened Sorting
  import opened TeamEnumeration
  import opened TeamSelection

  // ---------------------------------------------------------------- ban filter

  /** Every entry carries its position in the caller's pool. */
  ghost predicate Stamped(pool: seq<Combatant>) {
    forall i :: 0 <= i < |pool| ==> pool[i].originalIndex == i
  }

  /** A ban names the species as it is now or as the caller wrote it before auto-evolve. */
  predicate IsBanned(c: Combatant, banned: set<string>) {
    c.species in banned || (c.autoEvolvedFrom != "" && c.autoEvolvedFrom in banned)
  }

  function Unbanned(pool: seq<Combatant>, banned: set<string>): seq<Combatant> {
    if pool == [] then []
    else
      var n := |pool| - 1;
      Unbanned(pool[..n], banned) + (if IsBanned(pool[n], banned) then [] else [pool[n]])
  }

  function SetOf(xs: seq<string>): set<string> {
    set x | x in xs
  }

  method FilterPool(pool: seq<Combatant>, banned: seq<string>) returns (out: seq<Combatant>)
    ensures out == Unbanned(pool, SetOf(banned))
  {
    if |banned| == 0 {
      NoBans(pool);
      assert SetOf(banned) == {};
      return pool;
    }
    var bannedSet := {};
    for i := 0 to |banned|
      invariant bannedSet == SetOf(banned[..i])
    {
      bannedSet := bannedSet + {banned[i]};
    }
    assert banned[..|banned|] == banned;
    out := [];
    for i := 0 to |pool|
      invariant out == Unbanned(pool[..i], bannedSet)
    {
      assert pool[..i + 1][..i] == pool[..i];
      if pool[i].species in bannedSet { continue; }
      if pool[i].autoEvolvedFrom != "" && pool[i].autoEvolvedFrom in bannedSet { continue; }
      out := out + [pool[i]];
    }
    assert pool[..|pool|] == pool;
  }

  lemma {:induction false} NoBans(pool: seq<Combatant>)
    ensures Unbanned(pool, {}) == pool
  {
    if pool != [] { NoBans(pool[..|pool| - 1]); }
  }

  lemma {:induction false} FilteredEntry(pool: seq<Combatant>, banned: set<string>, j: nat)
    requires Stamped(pool) && j < |Unbanned(pool, banned)|
    ensures var c := Unbanned(pool, banned)[j];
            c.originalIndex < |pool| && pool[c.originalIndex] == c && !IsBanned(c, banned)
  {
    var n := |pool| - 1;
    if j < |Unbanned(pool[..n], banned)| { FilteredEntry(pool[..n], banned, j); }
  }

  lemma {:induction false} FilteredOrder(pool: seq<Combatant>, banned: set<string>, j: nat, l: nat)
    requires Stamped(pool) && j < l < |Unbanned(pool, banned)|
    ensures Unbanned(pool, banned)[j].originalIndex < Unbanned(pool, banned)[l].originalIndex
  {
    var n := |pool| - 1;
    if l < |Unbanned(pool[..n], banned)| {
      FilteredOrder(pool[..n], banned, j, l);
    } else {
      FilteredEntry(pool[..n], banned, j);
    }
  }

  lemma {:induction false} NoneLost(pool: seq<Combatant>, banned: set<string>, i: nat)
    requires i < |pool| && !IsBanned(pool[i], banned)
    ensures pool[i] in Unbanned(pool, banned)
  {
    var n := |pool| - 1;
    if i < n { NoneLost(pool[..n], banned, i); }
  }

  /** The filtered pool is the subsequence of the entries that are not banned. */
  lemma UnbannedIsSubsequence(pool: seq<Combatant>, banned: set<string>)
    requires Stamped(pool)
    ensures var out := Unbanned(pool, banned);
            && (forall j :: 0 <= j < |out| ==>
                  var i := out[j].originalIndex; i < |pool| && pool[i] == out[j] && !IsBanned(pool[i], banned))
            && (forall j, l :: 0 <= j < l < |out| ==> out[j].originalIndex < out[l].originalIndex)
            && (forall i :: 0 <= i < |pool| && !IsBanned(pool[i], banned) ==> pool[i] in out)
  {
    var out := Unbanned(pool, banned);
    forall j | 0 <= j < |out|
      ensures out[j].originalIndex < |pool| && pool[out[j].originalIndex] == out[j] && !IsBanned(out[j], banned)
    {
      FilteredEntry(pool, banned, j);
    }
    forall j, l | 0 <= j < l < |out| ensures out[j].originalIndex < out[l].originalIndex {
      FilteredOrder(pool, banned, j, l);
    }
    forall i | 0 <= i < |pool| && !IsBanned(pool[i], banned) ensures pool[i] in out {
      NoneLost(pool, banned, i);
    }
  }

  // ---------------------------------------------------------------- pool status

  datatype AutoEvolveAction = KeptAsIs | WasEvolved | SkippedAtBranch | SkippedOverCap

  datatype PoolMemberStatus = PoolMemberStatus(
    index: nat, originalSpecies: string, resolvedSpecies: string, action: AutoEvolveAction, banned: bool,
    inReturnedTeam: bool)

  function ClassifyAutoEvolveAction(c: Combatant): AutoEvolveAction {
    if c.autoEvolvedFrom == "" then KeptAsIs
    else if c.autoEvolveSkip == NoSkip then WasEvolved
    else if c.autoEvolveSkip == SkippedBranching then SkippedAtBranch
    else SkippedOverCap
  }

  function OriginalSpecies(c: Combatant): string {
    if c.autoEvolvedFrom != "" then c.autoEvolvedFrom else c.species
  }

  /** The original positions behind a list of filtered-pool indices. */
  function Listed(filtered: seq<Combatant>, indices: seq<nat>): set<nat> {
    if indices == [] then {}
    else
      var n := |indices| - 1;
      Listed(filtered, indices[..n]) + (if indices[n] < |filtered| then {filtered[indices[n]].originalIndex} else {})
  }

  function ListedByAny(filtered: seq<Combatant>, teams: seq<Candidate>): set<nat> {
    if teams == [] then {}
    else ListedByAny(filtered, teams[..|teams| - 1]) + Listed(filtered, teams[|teams| - 1].Indices())
  }

  lemma {:induction false} ListedMeans(filtered: seq<Combatant>, indices: seq<nat>)
    requires forall m :: 0 <= m < |indices| ==> indices[m] < |filtered|
    ensures forall p :: p in Listed(filtered, indices) <==>
              exists m :: 0 <= m < |indices| && filtered[indices[m]].originalIndex == p
  {
    if indices != [] { ListedMeans(filtered, indices[..|indices| - 1]); }
  }

  lemma {:induction false} ListedByAnyMeans(filtered: seq<Combatant>, teams: seq<Candidate>, p: nat)
    ensures p in ListedByAny(filtered, teams) <==>
              exists n :: 0 <= n < |teams| && p in Listed(filtered, teams[n].Indices())
  {
    if teams != [] { ListedByAnyMeans(filtered, teams[..|teams| - 1], p); }
  }

  function StatusOf(c: Combatant, index: nat, banned: set<string>, listed: set<nat>): PoolMemberStatus {
    PoolMemberStatus(index, OriginalSpecies(c), c.species, ClassifyAutoEvolveAction(c), IsBanned(c, banned),
        index in listed)
  }

  method BuildPoolMemberStatuses(originalPool: seq<Combatant>, banned: seq<string>, filtered: seq<Combatant>,
                                 teams: seq<Candidate>)
    returns (out: seq<PoolMemberStatus>)
    ensures |out| == |originalPool|
    ensures forall i :: 0 <= i < |out| ==>
              out[i] == StatusOf(originalPool[i], i, SetOf(banned), ListedByAny(filtered, teams))
  {
    var bannedSet := set id | id in banned;
    var inReturned: set<nat> := {};
    for t := 0 to |teams|
      invariant inReturned == ListedByAny(filtered, teams[..t])
    {
      assert teams[..t + 1][..t] == teams[..t];
      var indices: seq<nat> := teams[t].Indices();
      for m := 0 to |indices|
        invariant inReturned == ListedByAny(filtered, teams[..t]) + Listed(filtered, indices[..m])
      {
        assert indices[..m + 1][..m] == indices[..m];
        if indices[m] >= |filtered| { continue; }
        inReturned := inReturned + {filtered[indices[m]].originalIndex};
      }
      assert indices[..|indices|] == indices;
    }
    assert teams[..|teams|] == teams;
    out := [];
    for i := 0 to |originalPool|
      invariant |out| == i
      invariant forall j :: 0 <= j < i ==>
                  out[j] == StatusOf(originalPool[j], j, SetOf(banned), ListedByAny(filtered, teams))
    {
      var spec := originalPool[i];
      var originalId := spec.species;
      if spec.autoEvolvedFrom != "" {
        originalId := spec.autoEvolvedFrom;
      }
      out := out + [PoolMemberStatus(i, originalId, spec.species, ClassifyAutoEvolveAction(spec),
                                     originalId in bannedSet || spec.species in bannedSet, i in inReturned)];
    }
  }

  // ---------------------------------------------------------------- costs and coordinates of the returned teams

  function CostsAt(breakdowns: seq<Breakdown>, indices: seq<nat>): seq<Breakdown> {
    if indices == [] then []
    else
      var n := |indices| - 1;
      CostsAt(breakdowns, indices[..n]) + (if indices[n] < |breakdowns| then [breakdowns[indices[n]]] else [])
  }

  function Attached(breakdowns: seq<Breakdown>, c: Candidate): Candidate {
    c.(costs := CostsAt(breakdowns, c.Indices()))
  }

  function Original(filtered: seq<Combatant>, index: nat): nat {
    if index < |filtered| then filtered[index].originalIndex else index
  }

  function Remapped(filtered: seq<Combatant>, c: Candidate): Candidate {
    var at := c.Indices();
    var indices := [Original(filtered, at[0]), Original(filtered, at[1]), Original(filtered, at[2])];
    c.(team := c.team.(poolIndices := indices))
  }

  method AttachCostBreakdowns(teams: array<Candidate>, breakdowns: seq<Breakdown>)
    modifies teams
    ensures forall t :: 0 <= t < teams.Length ==> teams[t] == Attached(breakdowns, old(teams[t]))
  {
    for t := 0 to teams.Length
      invariant forall u :: 0 <= u < teams.Length ==>
                  teams[u] == if u < t then Attached(breakdowns, old(teams[u])) else old(teams[u])
    {
      var indices: seq<nat> := teams[t].Indices();
      var out := [];
      for m := 0 to |indices|
        invariant out == CostsAt(breakdowns, indices[..m])
      {
        assert indices[..m + 1][..m] == indices[..m];
        if indices[m] >= |breakdowns| { continue; }
        out := out + [breakdowns[indices[m]]];
      }
      assert indices[..|indices|] == indices;
      teams[t] := teams[t].(costs := out);
    }
  }

  method RemapPoolIndicesToOriginal(teams: array<Candidate>, filtered: seq<Combatant>)
    modifies teams
    ensures forall t :: 0 <= t < teams.Length ==> teams[t] == Remapped(filtered, old(teams[t]))
  {
    for t := 0 to teams.Length
      invariant forall u :: 0 <= u < teams.Length ==>
                  teams[u] == if u < t then Remapped(filtered, old(teams[u])) else old(teams[u])
    {
      var at := teams[t].Indices();
      var indices: seq<nat> := at;
      for j := 0 to 3
        invariant |indices| == 3
        invariant forall l :: 0 <= l < 3 ==> indices[l] == if l < j then Original(filtered, at[l]) else at[l]
      {
        if indices[j] >= |filtered| { continue; }
        indices := indices[j := filtered[indices[j]].originalIndex];
      }
      assert indices == [Original(filtered, at[0]), Original(filtered, at[1]), Original(filtered, at[2])];
      teams[t] := teams[t].(team := teams[t].team.(poolIndices := indices));
    }
  }

  function SpeciesIds(pool: seq<Combatant>): (ids: seq<string>)
    ensures |ids| == |pool| && forall i :: 0 <= i < |pool| ==> ids[i] == pool[i].species
  {
    if pool == [] then [] else SpeciesIds(pool[..|pool| - 1]) + [pool[|pool| - 1].species]
  }

  /** As the enumeration leaves it: three increasing positions of the filtered pool and the species found there. */
  ghost predicate Enumerated(filtered: seq<Combatant>, c: Candidate) {
    Placed(filtered, c) && c.team.members == Members(SpeciesIds(filtered), TripleOf(c.team))
  }

  ghost predicate AllEnumerated(filtered: seq<Combatant>, xs: seq<Candidate>) {
    forall x <- xs :: Enumerated(filtered, x)
  }

  /** In the caller's coordinates: increasing positions of entries that are not banned, with the listed species
      and the listed costs. */
  ghost predicate Coordinates(pool: seq<Combatant>, banned: set<string>, price: Combatant -> Breakdown, c: Candidate) {
    var at := c.Indices();
    && at[0] < at[1] < at[2] < |pool|
    && |c.team.members| == 3 && |c.costs| == 3
    && forall m :: 0 <= m < 3 ==>
         && c.team.members[m] == pool[at[m]].species
         && !IsBanned(pool[at[m]], banned)
         && c.costs[m] == price(pool[at[m]])
  }

  ghost predicate Priced(pool: seq<Combatant>, price: Combatant -> Breakdown, breakdowns: seq<Breakdown>) {
    |breakdowns| == |pool| && forall i :: 0 <= i < |pool| ==> breakdowns[i] == price(pool[i])
  }

  /** Entry by entry the same species and the same original position. */
  ghost predicate Mirrors(a: seq<Combatant>, b: seq<Combatant>) {
    |a| == |b| && forall i :: 0 <= i < |a| ==> a[i].species == b[i].species && a[i].originalIndex == b[i].originalIndex
  }

  lemma ThreeCosts(breakdowns: seq<Breakdown>, at: Indices)
    requires at[0] < |breakdowns| && at[1] < |breakdowns| && at[2] < |breakdowns|
    ensures CostsAt(breakdowns, at) == [breakdowns[at[0]], breakdowns[at[1]], breakdowns[at[2]]]
  {
    var a, b, c := at[0], at[1], at[2];
    assert at == [a, b, c] && [a, b, c][..2] == [a, b] && [a, b][..1] == [a] && [a][..0] == [];
    assert CostsAt(breakdowns, [a]) == [breakdowns[a]];
    assert CostsAt(breakdowns, [a, b]) == [breakdowns[a], breakdowns[b]];
  }

  lemma FinishedCoordinates(pool: seq<Combatant>, banned: set<string>, filtered: seq<Combatant>,
                            price: Combatant -> Breakdown,
                            breakdowns: seq<Breakdown>, c: Candidate)
    requires Stamped(pool) && Mirrors(filtered, Unbanned(pool, banned))
    requires Priced(Unbanned(pool, banned), price, breakdowns) && Enumerated(filtered, c)
    ensures Coordinates(pool, banned, price, Remapped(filtered, Attached(breakdowns, c)))
  {
    var at, entries := c.Indices(), Unbanned(pool, banned);
    FilteredEntry(pool, banned, at[0]);
    FilteredEntry(pool, banned, at[1]);
    FilteredEntry(pool, banned, at[2]);
    FilteredOrder(pool, banned, at[0], at[1]);
    FilteredOrder(pool, banned, at[1], at[2]);
    ThreeCosts(breakdowns, at);
    var out := Remapped(filtered, Attached(breakdowns, c));
    assert out.Indices() == [entries[at[0]].originalIndex, entries[at[1]].originalIndex, entries[at[2]].originalIndex];
    assert out.costs == [price(entries[at[0]]), price(entries[at[1]]), price(entries[at[2]])];
    assert out.team.members == [entries[at[0]].species, entries[at[1]].species, entries[at[2]].species];
  }

  // ---------------------------------------------------------------- the final selection

  /** Every entry has its status, "in a returned team" holding exactly for the positions that a returned team lists. */
  ghost predicate StatusesAgree(pool: seq<Combatant>, banned: set<string>, returned: seq<Candidate>,
                                statuses: seq<PoolMemberStatus>) {
    && |statuses| == |pool|
    && forall p :: 0 <= p < |pool| ==>
         && statuses[p].index == p
         && Describes(pool[p], banned, statuses[p])
         && (statuses[p].inReturnedTeam <==> exists n :: 0 <= n < |returned| && Mentions(returned[n], p))
  }

  /** What a status says about its entry: the species now and as the caller named it, what auto-evolve did, and whether
      either name is banned. An entry that auto-evolve touched remembers the caller's name. */
  ghost predicate Describes(c: Combatant, banned: set<string>, status: PoolMemberStatus) {
    var touched := c.autoEvolvedFrom != "";
    && status.resolvedSpecies == c.species
    && status.originalSpecies == (if touched then c.autoEvolvedFrom else c.species)
    && (status.action == KeptAsIs <==> !touched)
    && (status.action == WasEvolved <==> touched && c.autoEvolveSkip == NoSkip)
    && (status.action == SkippedAtBranch <==> touched && c.autoEvolveSkip == SkippedBranching)
    && (status.action == SkippedOverCap <==> touched && c.autoEvolveSkip == OverCap)
    && (status.banned <==> c.species in banned || (touched && c.autoEvolvedFrom in banned))
  }

  ghost predicate Mentions(c: Candidate, p: nat) {
    exists m :: 0 <= m < 3 && c.Indices()[m] == p
  }

  lemma ListedIsMentioned(filtered: seq<Combatant>, breakdowns: seq<Breakdown>, c: Candidate, p: nat)
    requires Placed(filtered, c)
    ensures p in Listed(filtered, c.Indices()) <==> Mentions(Remapped(filtered, Attached(breakdowns, c)), p)
  {
    var at := c.Indices();
    ListedMeans(filtered, at);
    var out := Remapped(filtered, Attached(breakdowns, c)).Indices();
    assert out == [filtered[at[0]].originalIndex, filtered[at[1]].originalIndex, filtered[at[2]].originalIndex];
    if m :| 0 <= m < 3 && filtered[at[m]].originalIndex == p {
      assert out[m] == p;
    }
  }

  /** `attached` and `returned` are the first kept teams with their costs, before and after the rewriting. */
  ghost predicate Finished(k: Costing, kept: seq<Candidate>, attached: seq<Candidate>, returned: seq<Candidate>) {
    && |attached| == |returned| <= |kept|
    && (forall t :: 0 <= t < |attached| ==> attached[t] == Attached(k.breakdowns, kept[t]))
    && (forall t :: 0 <= t < |attached| ==> returned[t] == Remapped(k.pool, attached[t]))
  }

  lemma ListedAfterRemap(k: Costing, kept: seq<Candidate>, attached: seq<Candidate>, returned: seq<Candidate>, p: nat)
    requires Finished(k, kept, attached, returned) && AllPlaced(k.pool, kept)
    ensures p in ListedByAny(k.pool, attached) <==> exists n :: 0 <= n < |returned| && Mentions(returned[n], p)
  {
    ListedByAnyMeans(k.pool, attached, p);
    forall n | 0 <= n < |attached| ensures p in Listed(k.pool, attached[n].Indices()) <==> Mentions(returned[n], p) {
      assert Placed(k.pool, kept[n]) && attached[n] == Attached(k.breakdowns, kept[n]);
      ListedIsMentioned(k.pool, k.breakdowns, kept[n], p);
    }
  }

  lemma FinishedTeams(k: Costing, originalPool: seq<Combatant>, banned: set<string>, price: Combatant -> Breakdown,
                      kept: seq<Candidate>, attached: seq<Candidate>, returned: seq<Candidate>)
    requires Stamped(originalPool) && Mirrors(k.pool, Unbanned(originalPool, banned))
    requires Priced(Unbanned(originalPool, banned), price, k.breakdowns) && AllEnumerated(k.pool, kept)
    requires Finished(k, kept, attached, returned)
    ensures forall c <- returned :: Coordinates(originalPool, banned, price, c)
  {
    forall n | 0 <= n < |returned| ensures Coordinates(originalPool, banned, price, returned[n]) {
      assert kept[n] in kept;
      FinishedCoordinates(originalPool, banned, k.pool, price, k.breakdowns, kept[n]);
      assert returned[n] == Remapped(k.pool, Attached(k.breakdowns, kept[n]));
    }
  }

  lemma FinishedStatuses(k: Costing, originalPool: seq<Combatant>, banned: set<string>, kept: seq<Candidate>,
                         attached: seq<Candidate>, returned: seq<Candidate>, statuses: seq<PoolMemberStatus>)
    requires Finished(k, kept, attached, returned) && AllPlaced(k.pool, kept) && |statuses| == |originalPool|
    requires forall i :: 0 <= i < |statuses| ==>
               statuses[i] == StatusOf(originalPool[i], i, banned, ListedByAny(k.pool, attached))
    ensures StatusesAgree(originalPool, banned, returned, statuses)
  {
    forall p | 0 <= p < |originalPool|
      ensures statuses[p].inReturnedTeam <==> exists n :: 0 <= n < |returned| && Mentions(returned[n], p)
    {
      ListedAfterRemap(k, kept, attached, returned, p);
    }
  }

  /** finaliseTeams. */
  method FinaliseTeams(k: Costing, originalPool: seq<Combatant>, banned: seq<string>, maxResults: nat,
                       teams: seq<Candidate>,
                       ghost price: Combatant -> Breakdown)
    returns (returned: seq<Candidate>, statuses: seq<PoolMemberStatus>)
    requires Stamped(originalPool) && Mirrors(k.pool, Unbanned(originalPool, SetOf(banned)))
    requires Priced(Unbanned(originalPool, SetOf(banned)), price, k.breakdowns) && AllEnumerated(k.pool, teams)
    ensures AllPlaced(k.pool, StableSort(teams, BY_SCORE))
    ensures var kept := Kept(k, StableSort(teams, BY_SCORE));
            && |returned| == (if maxResults < |kept| then maxResults else |kept|)
            && forall n :: 0 <= n < |returned| ==> returned[n] == Remapped(k.pool, Attached(k.breakdowns, kept[n]))
    ensures forall c <- returned :: Coordinates(originalPool, SetOf(banned), price, c)
    ensures StatusesAgree(originalPool, SetOf(banned), returned, statuses)
  {
    SortKeepsPlaced(k.pool, teams);
    var kept := ApplyBudgetFilter(k, StableSort(teams, BY_SCORE));
    KeptAreEnumerated(k, teams);
    var size := if maxResults < |kept| then maxResults else |kept|;
    var window := new Candidate[size](i requires 0 <= i < |kept| => kept[i]);
    AttachCostBreakdowns(window, k.breakdowns);
    ghost var attached := window[..];
    statuses := BuildPoolMemberStatuses(originalPool, banned, k.pool, window[..]);
    RemapPoolIndicesToOriginal(window, k.pool);
    returned := window[..];
    assert Finished(k, kept, attached, returned);
    FinishedTeams(k, originalPool, SetOf(banned), price, kept, attached, returned);
    FinishedStatuses(k, originalPool, SetOf(banned), kept, attached, returned, statuses);
  }

  lemma KeptAreEnumerated(k: Costing, teams: seq<Candidate>)
    requires AllEnumerated(k.pool, teams) && AllPlaced(k.pool, StableSort(teams, BY_SCORE))
    ensures AllEnumerated(k.pool, Kept(k, StableSort(teams, BY_SCORE)))
    ensures AllPlaced(k.pool, Kept(k, StableSort(teams, BY_SCORE)))
  {
    var sorted := StableSort(teams, BY_SCORE);
    KeptFacts(k, sorted);
    StableSortIsStable(teams, BY_SCORE);
    forall y | y in Kept(k, sorted) ensures Enumerated(k.pool, y) {
      var x :| x in sorted && y.team == x.team;
      SortedMember(teams, BY_SCORE, x);
    }
  }

  function TotalOf(costs: seq<Breakdown>): int {
    if costs == [] then 0 else TotalOf(costs[..|costs| - 1]) + costs[|costs| - 1].Total()
  }

  /** What the pipeline makes of one enumerated team, before the rewriting. */
  function Settled(k: Costing, c: Candidate): Option<Candidate>
    requires Placed(k.pool, c)
  {
    if Gate(k, c).None? then None else Some(Attached(k.breakdowns, Gate(k, c).value))
  }

  /** The aggregate of a returned team is the sum of its three breakdowns exactly when a gate is active or the team
      is free: without a gate it stays 0, whatever the members cost. */
  lemma AggregateIsSumExactly(k: Costing, team: Team)
    requires Placed(k.pool, Unpriced(team)) && |k.breakdowns| == |k.pool| && Settled(k, Unpriced(team)).Some?
    ensures var c := Settled(k, Unpriced(team)).value;
            && |c.costs| == 3
            && (c.aggregateCost == TotalOf(c.costs) <==>
                  k.StardustGate() || k.EtmGate() || CostOf(k.breakdowns, team.poolIndices) == 0)
  {
    var at := team.poolIndices;
    ThreeCosts(k.breakdowns, at);
    ThreeTotals(k.breakdowns, at);
    TotalOfThree(k.breakdowns[at[0]], k.breakdowns[at[1]], k.breakdowns[at[2]]);
  }

  lemma TotalOfThree(a: Breakdown, b: Breakdown, c: Breakdown)
    ensures TotalOf([a, b, c]) == a.Total() + b.Total() + c.Total()
  {
    TotalAppend([], a);
    TotalAppend([a], b);
    TotalAppend([a, b], c);
    assert [] + [a] == [a] && [a] + [b] == [a, b] && [a, b] + [c] == [a, b, c];
  }

  lemma TotalAppend(costs: seq<Breakdown>, b: Breakdown)
    ensures TotalOf(costs + [b]) == TotalOf(costs) + b.Total()
  {
    assert (costs + [b])[..|costs|] == costs;
  }

  /** A banned entry is in no returned team. */
  lemma BannedIsNeverReturned(pool: seq<Combatant>, banned: set<string>, price: Combatant -> Breakdown,
                              returned: seq<Candidate>, statuses: seq<PoolMemberStatus>, p: nat)
    requires forall c <- returned :: Coordinates(pool, banned, price, c)
    requires StatusesAgree(pool, banned, returned, statuses) && p < |pool| && statuses[p].banned
    ensures !statuses[p].inReturnedTeam
  {
    forall n | 0 <= n < |returned| ensures !Mentions(returned[n], p) {
      assert Coordinates(pool, banned, price, returned[n]);
    }
  }
}
