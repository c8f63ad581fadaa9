# A verified model of the PvP tool server

The repository is a server of Pokémon GO PvP tools. It loads rankings through a concurrent cache, walks evolution
graphs, searches three-member teams against a meta, and rate-limits its public endpoint. This project models that
logic in Dafny 4.11 and proves what it promises, for all inputs, all runs and, where goroutines are involved, all
interleavings.

The battle engine is a separate library. Its functions (simulation, CP, CP multiplier, stats) appear as arbitrary
deterministic function values, so nothing below depends on a formula of the game. Scores and multipliers are exact
(`real` or rational); rounding of floats is not modelled.

Run `dafny verify dfyconfig.toml` to check everything.

## Layout

| file | subject |
|---|---|
| `Rankings.dfy` | the per-key single-flight loader as a transition system over any number of callers |
| `RatingMatrix.dfy` | the semaphore-bounded parallel fill with cancellation, and its sequential reference |
| `EvolutionPreview.dfy` | breadth-first search over evolution data |
| `Lru.dfy`, `RateLimit.dfy` | the byte-capped LRU cache and the per-client limiter table, as classes |
| `RealIp.dfy` | client address resolution behind trusted proxies |
| `AutoEvolve.dfy`, `RestrictedMoves.dfy` | the linear evolution walk; the gates on legacy and elite moves |
| `TeamEnumeration.dfy`, `ParetoFrontier.dfy` | all triples of the pool and their scores; the four champions |
| `TeamSelection.dfy`, `PoolCoordinates.dfy`, `TeamPipeline.dfy` | sort, budget, trim; bans, statuses and index remapping; the whole request |
| `BattleRating.dfy`, `TeamAnalysis.dfy` | ratings; one-pass aggregates against the re-simulating threat-coverage tool |
| `LevelSearch.dfy`, `PowerupCost.dfy` | searches of the level grid and of all IV spreads; the stardust table |
| `Gamemaster.dfy`, `Sequences.dfy`, `Sorting.dfy`, `Arithmetic.dfy`, `Wrappers.dfy` | shared data and facts |

Methods with loops and in-place updates stand where the source has them. They are proved equal to a specification
function or predicate, and the theorems are about that.

## Where the code and its promises differ

The model follows the code. In each case the exact condition is proved.

- **Single flight.** A JSON document `null` decodes to a nil slice, which is stored but reads as a miss. The promise
  of one load per key, and the disjointness of the two caches, hold exactly when `null` cannot be produced
  (`Rankings.SingleFlightExactlyWithoutNull`).
- **Best overall on the Pareto frontier.** Scenarios in which all simulations of a triple failed are left out of its
  mean, so a triple with fewer valid scenarios can beat one that dominates it. The best-overall team is undominated
  under every rating exactly when no qualifying triple has scores on strictly more scenarios than another one that has
  some (`ParetoFrontier.OverallUndominatedExactly`); without failures it always is.
- **Labels of the frontier.** The comment on `buildParetoFrontier` says that a team that wins several axes carries the
  label of its best scenario. The code puts the best-overall team first. A team that wins an axis carries the label of
  that axis exactly when it wins no earlier one, overall before all scenarios (`ParetoFrontier.LabelIsFirstAxisWon`);
  `ParetoFrontier.WinnerLosesScenarioLabels` has a pool whose only team wins every axis and shows "best overall" alone.
- **Aggregate cost.** `aggregate_stardust_cost` is documented as the sum over the three breakdowns. Without an active
  budget gate it is never computed and stays 0 (`PoolCoordinates.AggregateIsSumExactly`).
- **Promotion of shadow members.** The walk checks the ordinary entry of the evolved form, the league check that
  follows looks at its shadow entry. So promotion can turn a valid shadow member into one that fails the whole request
  (`AutoEvolve.ShadowPromotionCanBustCap`, on concrete data in `AutoEvolve.ShadowPromotionExample`). A member stays
  valid under every engine, item table and cap exactly when each form of its chain of single known children is harmless
  to end at: the stats that the league check reads for it are among those already known to fit there, or the stats of
  the next form are, so that the walk never ends there (`AutoEvolve.PromotionStaysInLeague`). Without the shadow flag
  that is always so.
- **Restricted moves.** The moveset fill reads the snapshot a second time. Nothing disallowed reaches the simulator
  exactly when that second snapshot rejects what the first one forbids, in particular when they are the same
  (`RestrictedMoves.NoForbiddenMoveExactlyWhen`).
- **Raised budgets.** Raising limits never makes the gate drop a team, but better teams that now pass can push it out
  of the returned window, as in `TeamSelection.RaisedBudgetExample`. A returned team stays exactly when the passing
  teams ranked before it and those newly let in before it are together fewer than the window holds
  (`TeamSelection.RaisedBudgetKeepsExactly`).

## Model

| member | source | states |
|---|---|---|
| Rankings.SingleFlightExactlyWithoutNull | internal/rankings/manager.go:198-385 | Over every schedule of any number of callers, each key sees at most one of {local load, upstream fetch, 404}, and the positive and negative caches are disjoint, if and only if no payload can be the document `null` |
| Rankings.SingleFlight | internal/rankings/manager.go:198-385 | Per key and per run: as long as no `null` was loaded for it, at most one expensive event, recorded by exactly one of the two caches |
| Rankings.OneLoaderPerKey | internal/rankings/manager.go:270-305 | At most one caller per key is between lock and unlock of that key's mutex |
| Rankings.SameAnswer | internal/rankings/manager.go:198-305 | As long as no `null` was loaded for the key, all successful calls for it return the same entries, and none of its calls is told that the cup is unknown |
| Rankings.AnswersWhatItMet | internal/rankings/manager.go:198-305 | Over every schedule a returned call met its context, both caches, both again, the disk and the network in that order; the last thing met settles it, nothing before did, and it returned exactly that verdict |
| Rankings.OutcomesExactly | internal/rankings/manager.go:198-305 | Outcome by outcome, if and only if: cancelled by its own entry check; an unknown cup by the memoised or its own 404; an upstream error by its own fetch failing otherwise; entries by what it found in memory, on disk or upstream |
| Rankings.CachedEntriesAreFinal | internal/rankings/manager.go:356-385 | Entries once in memory are never replaced, loaded or fetched again |
| Rankings.NoDeadlock | internal/rankings/manager.go:270-385 | A caller that has not returned can move, or waits for a caller of the same key that can |
| Rankings.CallsTakeBoundedSteps | internal/rankings/manager.go:198-305 | Every step brings its caller closer to returning and disturbs no other caller |
| Rankings.NullIsLoadedAgain | internal/rankings/manager.go:219-285 | A run in which `null` is loaded from disk, reloaded by the next caller, and the key ends up in both caches |
| RatingMatrix.FillSequentially | internal/tools/team_builder.go:1172-1258 | The loops run by one goroutine put every simulation into its own cell and count exactly the failed cells |
| RatingMatrix.FailuresAreFailedCells | internal/tools/team_builder.go:1213-1258 | The failure count is the number of (row, opponent, scenario) whose simulation failed |
| RatingMatrix.ParallelEqualsSequential | internal/tools/team_builder.go:1172-1258 | Under every schedule without cancellation the matrix and the failure count after `wg.Wait` are the sequential ones |
| RatingMatrix.ScoresReadCompleteRows | internal/tools/team_builder.go:922-931 | Wherever cancellation strikes, each score ever computed read three completely filled rows |
| RatingMatrix.ScoredAreWholeAnchors | internal/tools/team_builder.go:914-964 | Under every schedule the search ends having scored, each once and in lexicographic order, exactly the wanted triples of the anchors it started, and all wanted triples unless it was cancelled |
| RatingMatrix.AtMostWorkersRowsAtOnce | internal/tools/team_builder.go:1183-1210 | At most NumCPU and at most pool-size rows are filled at any time, and a new row may start exactly while fewer are |
| RatingMatrix.NoDeadlock | internal/tools/team_builder.go:1192-1212 | Until the main goroutine is done, it or some worker can move |
| RatingMatrix.EveryStepProgresses | internal/tools/team_builder.go:1192-1258 | Every step other than a cancellation descends in a well-founded order |
| EvolutionPreview.CollectEvolutionStages | internal/tools/evolution_preview.go:210-258 | On any graph, with cycles, diamonds, repeated and missing children: each known species other than the base within five edges exactly once, nothing else, each along a shortest real path, in order of path length |
| EvolutionPreview.Visit | internal/tools/evolution_preview.go:224-255 | One round of the queue keeps the walk invariant and descends, in the unknown, depth-capped and expanding branches |
| EvolutionPreview.OutputIsDeterministic | internal/tools/evolution_preview.go:131-137 | The sorted species sequence and the path lengths do not depend on the order or repetition of children, whichever sort is used |
| Sequences.StringLessIsLexicographic | internal/tools/evolution_preview.go:131-137 | The order of species ids: the first differing character decides, a proper prefix comes first |
| Lru.LRU.Get | internal/cache/lru.go:56-71 | Returns the value of a stored key, brings its entry to the front with all others in their order, and counts one hit; a miss changes nothing and counts one miss |
| Lru.LRU.Set | internal/cache/lru.go:76-108 | The new entry followed by the longest fitting prefix of the others; an oversized value only removes its key |
| Lru.LRU.MakeRoom | internal/cache/lru.go:95-104 | Evicts from the back down to the longest prefix that fits; the empty-list break is unreachable |
| Lru.LRU.RemoveLocked | internal/cache/lru.go:125-133 | Removes exactly one key from list, index and byte count |
| Lru.LRU.EvictLocked | internal/cache/lru.go:138-143 | Drops exactly the last entry of the recency list |
| Lru.LRU.Snapshot | internal/cache/lru.go:112-121 | Reports the number of entries and the bytes of the recency list |
| Lru.EvictKeepsLongestPrefix | internal/cache/lru.go:95-104 | What survives is a prefix within the budget, and every longer prefix exceeds it |
| Lru.PutFits | internal/cache/lru.go:76-108 | An update keeps the list duplicate-free and within max(capacity, 0) bytes |
| Lru.PutStores | internal/cache/lru.go:76-108 | A value that fits comes first, followed by the longest prefix of the other entries, in their order, that fits beside it; one that does not fit only removes its key |
| Lru.Replay | internal/cache/lru.go:45-121 | The class, driven through any sequence of operations, stays in step with the abstract recency list and its counters |
| Lru.RunInvariant | internal/cache/lru.go:45-143 | After any run of operations the list is duplicate-free and within capacity |
| Lru.RunIsByRecency | internal/cache/lru.go:56-108 | After any run the list is in strictly descending order of the latest use of each key, that is of its last `Set` or hit |
| Lru.EvictionTakesLeastRecentlyUsed | internal/cache/lru.go:95-104 | Whatever a `Set` evicts was used less recently than every other entry that it keeps |
| Lru.HitIsLatestSet | internal/cache/lru.go:56-108 | In any run a hit returns the value of the latest `Set` of its key, also after evictions and oversized overwrites |
| Lru.CountersAddUp | internal/cache/lru.go:56-121 | Hits plus misses equals the number of `Get` calls of the run |
| Lru.HitsAreStoredGets | internal/cache/lru.go:56-71 | The hit counter is the number of `Get` calls whose key was stored |
| Lru.NothingEvicted | internal/cache/lru.go:76-108 | If the largest sizes ever set per key sum to at most a positive capacity, every key answers with its latest value for ever |
| Lru.CapacitySufficesExactly | internal/cache/lru.go:76-108 | That covering the sizes is enough holds for all runs, bounds and keys if and only if the capacity is not zero |
| Lru.ZeroCapacityDropsEmptyValues | internal/cache/lru.go:76-108 | The positive capacity is needed: at capacity zero even a zero-length value is dropped |
| RealIp.ClientIsRightmostUntrusted | internal/httpmw/realip.go:115-160 | For a peer inside a trusted network the rightmost entry of the flattened header lists that, trimmed, is an address outside all trusted networks, else the peer; an untrusted peer is never overridden |
| RealIp.CandidateIsAcceptable | internal/httpmw/realip.go:137-155 | An entry is accepted if and only if, without the white space around it, it is not empty, parses, and lies in no trusted network |
| RealIp.SplitIsExact | internal/httpmw/realip.go:131-136 | The entries of a line contain no comma, and joined by commas they are the line |
| RealIp.ContainsMeans | internal/httpmw/realip.go:67-75 | An address is trusted exactly when some configured network contains it |
| RealIp.JoiningLinesChangesNothing | internal/httpmw/realip.go:130-160 | Combining adjacent header lines with a comma, as in section 5.3 of RFC 9110, never changes the client |
| RealIp.PrependingChangesNothing | internal/httpmw/realip.go:130-160 | Once an acceptable entry exists, entries and lines put to its left change nothing |
| AutoEvolve.WalkEvolutionChain | internal/tools/team_builder_evolve.go:220-273 | The loop ends at the last form of the longest run of at most five hops, with the table entries of the hops taken |
| AutoEvolve.ClimbIsLongest | internal/tools/team_builder_evolve.go:178-273 | Every run of single-child, known, fitting hops within the depth is a prefix of the one climbed |
| AutoEvolve.PromotionIsLongestRun | internal/tools/team_builder_evolve.go:55-108 | A promoted member sits at the end of that longest run, carries the requirements of its hops in order, loses its explicit moves, and keeps everything else |
| AutoEvolve.SkipReasonIsFirstHop | internal/tools/team_builder_evolve.go:220-309 | A member that is not promoted changes in nothing but the skip reason and its noted id, which it gets exactly when the first hop branches or busts the cap |
| AutoEvolve.RequirementsAreAdditive | internal/tools/team_builder_evolve.go:243-262 | The species of a run leave their table entries behind one after the other, in order |
| AutoEvolve.PromotionStaysInLeague | internal/tools/team_builder_costs.go:81-96 | Under every engine, item table and cap promotion keeps a league-valid member valid, if and only if each form of its chain is harmless to end at, a condition on the data alone; without the shadow flag it always does |
| AutoEvolve.ShadowPromotionCanBustCap | internal/tools/team_builder_evolve.go:178-273 | For every form of the chain that is not harmless, and every cap, some engine makes the walk end at that form and the valid member invalid |
| AutoEvolve.ShadowPromotionExample | internal/tools/team_builder_evolve.go:178-273 | Two species and a shadow entry on which this happens |
| AutoEvolve.AutoEvolvePool | internal/tools/team_builder_evolve.go:42-50 | Rewrites the pool in place, every entry exactly as it would be alone |
| Gamemaster.LookupIsStable | internal/tools/matchup.go:208-234 | What a shadow-aware lookup resolves is stored under the resolved id, and looking that id up again gives the same species |
| Gamemaster.ResolveIsExact | internal/tools/matchup.go:208-234 | A shadow request gets the published shadow entry, else the ordinary one flagged as a substitute; an ordinary request the entry of the very id |
| RestrictedMoves.GateIsExact | internal/tools/legacy.go:198-262 | The gate rejects exactly the members with an explicit move on a disallowed list of their species, naming the legacy list first; each flag alone never rejects on the other |
| RestrictedMoves.TeamGateIsExact | internal/tools/legacy.go:328-344 | The pool passes exactly when every member does, and the error is that of the first one that does not |
| RestrictedMoves.MemberIsClean | internal/tools/team_builder.go:604-637 | Gate, auto-evolve, fill and build together let no disallowed move of the resolved species through |
| RestrictedMoves.NoForbiddenMoveExactlyWhen | internal/tools/moveset.go:102-146 | That holds for every caller, ranking and engine if and only if the fill's snapshot rejects what the gate's forbids |
| RestrictedMoves.FindsFirst | internal/tools/moveset.go:46-78 | The recommendation is the moveset of the first ranking entry of the species, its first move the fast one; there is none exactly when no such entry exists or its moveset is empty |
| RestrictedMoves.FillIsExact | internal/tools/moveset.go:102-146 | A member with a fast move is left alone; any other gets the recommended moves of its resolved id unless the flags disallow one, and nothing else of it changes |
| RestrictedMoves.PoolFillIsExact | internal/tools/team_builder.go:624-638 | The same for every member of a pool; a failure is that of the first member that cannot be filled |
| RestrictedMoves.DefaultPoolMovesets | internal/tools/team_builder.go:624-638 | Fills the pool in place; on failure the error is that of the first failing member |
| RestrictedMoves.BuildIsExact | internal/tools/matchup.go:407-462 | A combatant is built exactly when its species is known, its IVs lie in 0..15 and its moves are known and sit in their slots, and then has those values, level, moves in order and shadow flag |
| RestrictedMoves.BuildFighters | internal/tools/team_analysis.go:457-472 | Succeeds exactly when every member builds, else reports the first failure |
| TeamEnumeration.ScoreTripleFromMatrix | internal/tools/team_builder.go:1268-1299 | The double loop with its skips computes the mean of the valid cells |
| TeamEnumeration.ScoreIsExact | internal/tools/team_builder.go:1260-1299 | The score times the number of battles that did not fail is the sum of their ratings, unrounded; there is none exactly when all failed |
| TeamEnumeration.ScoreIsAMean | internal/tools/team_builder.go:1260-1299 | A score is missing exactly when every cell failed, and otherwise lies between the ratings that count |
| TeamEnumeration.ScoreByMembers | internal/tools/team_builder.go:1280-1292 | Sum and count of the double loop are the totals of what the three members collect on their own |
| TeamEnumeration.EnumerateTeams | internal/tools/team_builder.go:914-964 | Every qualifying triple with a score exactly once in lexicographic order, nothing else; `Evaluated` is the number of qualifying triples |
| TeamEnumeration.CountAll | internal/tools/team_builder.go:945-953 | With nothing required that number is n(n-1)(n-2)/6 |
| ParetoFrontier.AverageScenarioScore | internal/tools/team_builder.go:1118-1141 | The mean over the scenarios with a valid sample |
| ParetoFrontier.UpdateScenarioBests | internal/tools/team_builder.go:1010-1027 | Updates the champion slots in place so that each is again the lexicographically first maximiser of what was visited |
| ParetoFrontier.BuildParetoFrontier | internal/tools/team_builder.go:971-1045 | Each axis ends with its lexicographically first maximiser over all qualifying triples, and the result is their frontier; `Evaluated` is the same count as in the other mode |
| ParetoFrontier.AssembleFrontier | internal/tools/team_builder.go:1049-1085 | Exactly the champions whose triple is on no earlier axis, overall first, in axis order |
| ParetoFrontier.FrontierCoversEveryAxis | internal/tools/team_builder.go:1049-1085 | At most four teams on pairwise distinct triples, each a champion, and for every axis with a champion its triple is listed |
| ParetoFrontier.LabelIsFirstAxisWon | internal/tools/team_builder.go:1049-1085 | Among the champions, a listed team carries the label of an axis it wins if and only if it wins no earlier axis |
| ParetoFrontier.WinnerLosesScenarioLabels | internal/tools/team_builder.go:966-970 | A concrete pool and matrix whose only team wins every axis and carries no scenario label |
| ParetoFrontier.OverallUndominatedExactly | internal/tools/team_builder.go:1109-1141 | The best-overall team is undominated under every rating if and only if no qualifying triple has scores on strictly more scenarios than another that has some |
| ParetoFrontier.UndominatedWithoutFailures | internal/tools/team_builder.go:971-1045 | When no cell failed, no triple dominates the best-overall team on the three scenarios |
| ParetoFrontier.ScenarioChampionLosesOnlyTies | internal/tools/team_builder.go:1010-1027 | A scenario champion is dominated only by a later triple that ties with it there |
| Sorting.StableSortIsStable | internal/tools/team_builder.go:422-424 | The sorted list is descending and keeps the elements of each score in their order |
| Sorting.StableSortIsUnique | internal/tools/team_builder.go:422-424 | No other list is a stable descending sort of the same input |
| TeamSelection.AggregateTeamStardustCost | internal/tools/team_builder_budget.go:193-208 | The sum over the indexed estimates, out-of-range indices contributing nothing |
| TeamSelection.CostIsExact | internal/tools/team_builder_budget.go:193-208 | The cost of a team is the sum of the power-ups and second moves of its three members |
| TeamSelection.CountTeamEliteMoves | internal/tools/team_builder_budget.go:157-187 | One charged and one fast item per elite move in a resolved slot; unknown species need none |
| TeamSelection.EliteCountsAreExact | internal/tools/team_builder_budget.go:157-187 | The charged count is the number of charged slots, over all members, whose move is on the elite list of the resolved species; the fast count the number of such fast moves |
| TeamSelection.ApplyBudgetFilter | internal/tools/team_builder_budget.go:30-94 | Keeps exactly the teams that pass the active gates, in order, each with its cost |
| TeamSelection.GatesAreExact | internal/tools/team_builder_budget.go:65-149 | Kept exactly when no positive item inventory is exceeded and, under a positive limit, the cost is at most limit * (1 + tolerance); flagged with excess = cost - limit exactly when over the limit |
| TeamSelection.RaisingLimitsKeepsTeams | internal/tools/team_builder_budget.go:65-149 | Raising positive limits or the tolerance never drops a team that passed |
| TeamSelection.WindowIsExact | internal/tools/team_builder.go:422-430 | A passing team is among the returned ones exactly when fewer passing teams are ranked before it than the window holds |
| TeamSelection.RaisedBudgetKeepsExactly | internal/tools/team_builder_budget.go:65-149 | Under raised limits a returned team stays returned exactly when the teams that passed before it and those newly let in before it leave it a place |
| TeamSelection.RaisedBudgetExample | internal/tools/team_builder_budget.go:65-149 | Two concrete budgets, the second raised from the first, under which a returned team is lost |
| TeamSelection.SelectionIsTopOfPassing | internal/tools/team_builder.go:422-430 | Filtering the sorted list is sorting the filtered one, so what is returned are the first passing teams in the one stable order |
| TeamSelection.NothingBetterIsCut | internal/tools/team_builder.go:422-430 | A team that passes the gates is within the returned window, or all teams in it score at least as much |
| PoolCoordinates.FilterPool | internal/tools/team_builder.go:762-792 | The loop removes exactly the entries banned under their current or their pre-evolution id |
| PoolCoordinates.UnbannedIsSubsequence | internal/tools/team_builder.go:762-792 | The filtered pool is the subsequence of the entries that are not banned, none lost |
| PoolCoordinates.BuildPoolMemberStatuses | internal/tools/team_builder.go:455-502 | One status per original entry, computed from filtered-pool coordinates |
| PoolCoordinates.RemapPoolIndicesToOriginal | internal/tools/team_builder.go:512-524 | Rewrites every in-range index in place to the original position, nothing else |
| PoolCoordinates.AttachCostBreakdowns | internal/tools/team_builder_costs.go:299-314 | Attaches the estimates of the listed members in place |
| PoolCoordinates.FinaliseTeams | internal/tools/team_builder.go:414-444 | Returned teams are the first of the kept ones, list strictly increasing original positions with the listed species and costs and no banned entry; each status names both species, what auto-evolve did and whether either name is banned, and "in a returned team" holds exactly for those positions |
| PoolCoordinates.BannedIsNeverReturned | internal/tools/team_builder.go:486-498 | No entry is both banned and in a returned team |
| PoolCoordinates.AggregateIsSumExactly | internal/tools/team_builder_budget.go:78-94 | The aggregate is the sum of the three breakdowns exactly when a gate is active or the team is free |
| TeamPipeline.EvaluateTeams | internal/tools/team_builder.go:852-908 | Both modes count the qualifying triples once; with "0s", "1s" or "2s" the offer is every qualifying triple with a score under that many shields, labelled so, else under one shield; in `all_pareto` mode it is exactly the frontier of the champions over all qualifying triples |
| TeamPipeline.ResolveRequired | internal/tools/team_builder.go:806-828 | Refuses exactly when some required species is in no pool entry |
| TeamPipeline.FinalEntryIsFilled | internal/tools/team_builder.go:580-638 | Every entry of the final pool is the caller's entry, promoted if asked for, and filled with the recommended moves of its resolved id unless it has its own |
| TeamPipeline.BanNamesEitherSpecies | internal/tools/team_builder.go:762-792 | A ban hits an entry exactly when it names the species as the caller wrote it or as it ended up |
| TeamPipeline.AnnotatedIsExact | internal/tools/matchup.go:163-199 | Building notes the id of the entry it resolved to and whether a shadow entry was missing |
| TeamPipeline.PrecomputeRatingMatrix | internal/tools/team_builder.go:1172-1258 | Cell (i, o, s) is the battle of pool member i, attacking, against meta member o with s shields each |
| TeamPipeline.PreHandleValidation | internal/tools/team_builder.go:558-638 | Of the checks modelled, on the three snapshots that the source reads: which requests are refused, if and only if, with an error that names a check they fail, and the pool that the rest of the request works on |
| TeamPipeline.SimulatedIsClean | internal/tools/team_builder.go:604-638 | After evolution and fill no entry's combatant carries a disallowed move, when the fill's snapshot rejects what the gate's forbids |
| TeamPipeline.SelectionIsOptimal | internal/tools/team_builder.go:414-444 | Every team that the search offers and the gates pass is returned, or the window is full of teams at least as good; nothing else is returned; scores descend |
| TeamPipeline.Handle | internal/tools/team_builder.go:361-406 | The whole request: answered exactly when accepted, and then every team is in original coordinates, ban-free and contains all required species, counts, failures and statuses are exact, everything simulated is league-valid and, when the fill's snapshot agrees with the gate's, clean, and the teams returned are exactly the first passing ones, in stable descending order, of what the search offers. With one scenario to optimise for, no qualifying triple that passes the budget beats a returned team without being returned; in `all_pareto` mode the offer is the frontier of the champions |
| BattleRating.RatingsOfBothSidesSumTo1000 | internal/tools/team_analysis.go:934-968 | Swapping the sides of a battle result gives ratings that sum to 1000, truncation included |
| BattleRating.RatingNamesTheWinner | internal/tools/team_analysis.go:934-968 | A rating lies in 0..1000 and leaves 500 exactly when the winner keeps at least a 500th of its hit points, towards the winner |
| BattleRating.RatingIsExact | internal/tools/team_analysis.go:915-968 | The rating of a pair is 500 plus or minus the winner's remaining share of its hit points in 500ths, cut off, of the one simulation of these two with these shields |
| TeamAnalysis.SimulateTeamMatrix | internal/tools/team_analysis.go:653-689 | Cell (i, j, k) holds the rating of member i against opponent j in scenario k, failures keeping the zero cell |
| TeamAnalysis.AverageMatrixRow | internal/tools/team_analysis.go:695-715 | The sum of the valid cells over their number, cut off; nothing when all failed |
| TeamAnalysis.MeanIsExact | internal/tools/team_analysis.go:695-715 | The divisor is the number of scenarios with a rating, and mean * count <= sum < (mean + 1) * count for ratings that are not negative |
| TeamAnalysis.SumIsAdditive | internal/tools/team_analysis.go:695-715 | The sum is additive over scenarios; one contributes its rating, a failed one nothing |
| TeamAnalysis.MeanIsBetween | internal/tools/team_analysis.go:695-715 | The mean lies between the least and the greatest valid rating |
| TeamAnalysis.AverageRatingAcrossScenarios | internal/tools/team_analysis.go:842-874 | Re-simulating gives that same mean over the scenarios that did not fail |
| TeamAnalysis.ViewsAreExact | internal/tools/team_analysis.go:616-647 | A scenario's view shows the ratings of that scenario, the overall view their means over the scenarios that did not fail |
| TeamAnalysis.MeanIsReached | internal/tools/team_analysis.go:695-715 | A positive truncated mean is reached or exceeded in some scenario |
| TeamAnalysis.CoverageIsMaximum | internal/tools/team_analysis.go:787-803 | Coverage of a species is the largest of its valid ratings over the team, and absent when none is positive |
| TeamAnalysis.AggregateFromRatings | internal/tools/team_analysis.go:724-811 | The two loops with their running map and counters compute the aggregate of the whole table |
| TeamAnalysis.TallyCounts | internal/tools/team_analysis.go:879-895 | Wins, losses, ties and the lengths of both hard lists are the numbers of opponents in their ranges of ratings |
| TeamAnalysis.MemberIsExact | internal/tools/team_analysis.go:760-811 | A member's sum adds up its ratings, its failures are the opponents without one, and average times count is the sum, 0 when every opponent failed |
| TeamAnalysis.HardListsAreExact | internal/tools/team_analysis.go:879-895 | Each hard list names, in meta order, exactly the opponents above 750, or below 250 |
| TeamAnalysis.AggregateConserves | internal/tools/team_analysis.go:724-811 | Per member wins + losses + ties + failures is the meta size, and the members' failures add up to `SimulationFailures` |
| TeamAnalysis.TeamScoreIsWeighted | internal/tools/team_analysis.go:744-753 | Team score times successful pairs is the sum of member averages times their successful pairs |
| TeamAnalysis.AnalysisInRange | internal/tools/team_analysis.go:616-647 | With a sound simulator all scores and averages lie in 0..1000, overall and per scenario |
| TeamAnalysis.OverallCoverageIsReached | internal/tools/team_analysis.go:616-647 | Overall coverage of a species never exceeds its best per-scenario coverage |
| TeamAnalysis.UncoveredEverywhereIsUncoveredOverall | internal/tools/team_analysis.go:899-912 | A species that no single scenario covers is not covered overall |
| TeamAnalysis.OverallFailsLeast | internal/tools/team_analysis.go:616-647 | Overall failures never exceed those of any single scenario |
| TeamAnalysis.RunTeamAnalysis | internal/tools/team_analysis.go:616-647 | Overall and each scenario's aggregate are projections of one simulated table |
| TeamAnalysis.ComputeTeamCoverage | internal/tools/threat_coverage.go:167-194 | The re-simulating loops compute the coverage map of that table's overall view |
| TeamAnalysis.BuildUncoveredEntries | internal/tools/threat_coverage.go:333-370 | One entry per uncovered meta position, in meta order, each with its best team rating and the candidates against the opponent at that position |
| TeamAnalysis.OpenThreatsExact | internal/tools/threat_coverage.go:333-370 | Those positions are increasing, and exactly the ones whose species the team does not cover |
| TeamAnalysis.CandidatesAreTheBest | internal/tools/threat_coverage.go:377-410 | Up to three of the covering pool members, higher ratings first and earlier members first among equals; whoever is left out comes behind each of them in that order |
| TeamAnalysis.CoveringMeans | internal/tools/threat_coverage.go:377-400 | A pool member covers the threat exactly when its mean against it reaches 400, and is listed with that mean |
| TeamAnalysis.CompareWithThreatCoverage | internal/tools/threat_coverage.go:167-194 | For the same team, meta and scenarios both tools give the same coverage map and the same uncovered list |
| RateLimit.RateLimiter.LimiterFor | internal/httpmw/ratelimit.go:167-186 | A known client keeps its slot; a new one gets a fresh limiter, after one entry with the smallest lastSeen was dropped if the table is full; size stays within 10,000 and limiters distinct |
| RateLimit.RateLimiter.FindOldest | internal/httpmw/ratelimit.go:194-207 | For any map iteration order the victim has minimal lastSeen |
| RateLimit.RateLimiter.EvictIdle | internal/httpmw/ratelimit.go:148-159 | Exactly the entries last seen before the cutoff go |
| RateLimit.Replay | internal/httpmw/ratelimit.go:148-212 | The class, driven through any sequence of lookups and sweeps, makes a run that ends at its table, so that a limiter made for a new client was never handed out before |
| RateLimit.RunInvariant | internal/httpmw/ratelimit.go:148-212 | After any such run: at most 10,000 slots, no shared limiter, and every lastSeen is the client's latest lookup |
| RateLimit.SweepDropsExactlyIdle | internal/httpmw/ratelimit.go:148-159 | In any run a sweep drops exactly the clients whose latest lookup lies more than 30 minutes back |
| RateLimit.SameLimiterUntilEvicted | internal/httpmw/ratelimit.go:167-186 | A client keeps its limiter for as long as it stays in the table |
| RateLimit.ReturningClientStartsAfresh | internal/httpmw/ratelimit.go:171-181 | An evicted client that returns gets a limiter nobody had before |
| RateLimit.FewClientsAreNeverCapped | internal/httpmw/ratelimit.go:173-175 | While at most 10,000 clients have shown up, no lookup evicts anyone |
| LevelSearch.ComputeLeagueLimit | internal/tools/cplimits.go:145-182 | The greatest grid level whose CP fits the cap, or the level-1 baseline exactly when none does |
| LevelSearch.FindSpreadForSpecies | internal/tools/rank.go:1010-1044 | The greatest grid level whose CP fits the cap, or nothing exactly when none does |
| LevelSearch.BothScans | internal/tools/rank.go:1010-1044 | The two scans agree on level and CP for every engine |
| LevelSearch.GreatestFitIsMonotone | internal/tools/cplimits.go:145-182 | A larger cap or a longer grid never lowers the level |
| LevelSearch.GreatestFitIsThreshold | internal/tools/cplimits.go:138-182 | Where CP never falls with the level, exactly the levels up to the answer fit |
| LevelSearch.EvaluateIvCandidate | internal/tools/evolution_target.go:348-383 | The candidate changes exactly to a qualifying offer with a strictly larger root CP |
| LevelSearch.OfferIsExact | internal/tools/evolution_target.go:348-383 | A spread is offered exactly when it lies in 0..15, the target form fits, its stat product reaches the threshold in percent of the best, and the root form has a CP at the same level; and then with that level, percentage and CP |
| LevelSearch.SearchEvolutionTargetCeiling | internal/tools/evolution_target.go:320-342 | The largest root CP among all spreads clearing the threshold, with the values of the first spread reaching it, zero exactly when none is positive |
| PowerupCost.BuildPowerupStardustTable | internal/tools/powerup_cost.go:117-176 | The bucket loops build the table of all half-level steps |
| PowerupCost.TableTotals | internal/tools/powerup_cost.go:102-189 | 98 steps, all multiples of 100, 270,000 up to level 40 and 250,000 beyond |
| PowerupCost.TableIsClosedForm | internal/tools/powerup_cost.go:117-176 | The 98 prices in closed form: every four steps up by 200 to 1,000, by 300 to 2,500, by 500 to 5,000, by 1,000 to 15,000 |
| PowerupCost.PricesNeverFall | internal/tools/powerup_cost.go:117-176 | No step is cheaper than an earlier one, across both eras |
| PowerupCost.RangeIsExact | internal/tools/powerup_cost.go:318-373 | A climb is priced if and only if its ends are near grid levels a < b in 1..50, and then over exactly the steps between them, inside the table; it is called empty if and only if they are near grid levels that do not ascend |
| PowerupCost.CountXlStepsCounts | internal/tools/powerup_cost.go:252-262 | The closed form counts the steps at or above level 40 |
| PowerupCost.PriceClimb | internal/tools/powerup_cost.go:264-304 | The summing loop prices the range and reports its baseline, steps and XL steps |
| PowerupCost.ScalingIsExact | internal/tools/powerup_cost.go:220-245 | On whole hundreds every combination of flags scales without rounding |
| PowerupCost.ClimbsAdd | internal/tools/powerup_cost.go:264-304 | Climbing in two stages costs and counts what climbing at once does, under every combination of flags |

## Left out

- Battle engine: simulation, CP and stat formulas, the type chart and JSON parsing are function parameters.
- Assumption on data: gamemaster entries are stored under their own ids wherever a contract says `WellKeyed`.
- Floats: rounding, NaN and infinities; `BestProduct` of a sweep is assumed to be non-zero, as the engine's optimal spread has it.
- Integer width: Go's 64-bit wrap-around, in particular of hit and miss counters and of stardust sums.
- Rankings: HTTP requests, disk files, ETags and persisting are outcomes chosen by the environment; each section under the manager's two map locks is one atomic step, so the read-write lock itself is not modelled.
- Rankings: validation of cap, cup and role before the protocol starts.
- RateLimit: the token bucket, the janitor goroutine and its timer; a lookup and a sweep are atomic, as the mutex makes them.
- Lru: the mutex; the container/list is a sequence of element objects rather than linked nodes.
- RealIp: parsing of networks and addresses is a parameter; header middleware and the request context.
- Cancellation: modelled where it matters (`RatingMatrix`, and the entry check of `Rankings`); the other searches are modelled as uncancelled runs.
- AutoEvolve: the alternatives listed for a branching skip and the flags and notes attached to breakdowns.
- PreHandleValidation: does not model the refusals by the meta fetch and by shields, top-N, league and target level, because they depend on other services or on one parameter each; its if-and-only-if is about the remaining checks.
- Handle: answered exactly when accepted means accepted by those remaining checks; the meta and the rankings answer are one value for the whole request.
- TeamPipeline: team members carry species ids; the moves that the elite-TM gate counts are read from the pool entry they were copied from.
- PowerupCost: the reasons why a member's climb is not priced, and second-move costs, are an arbitrary price function in the pipeline.
- TeamAnalysis: the per-scenario map is keyed by the shield count, not by its label; the meta builder that skips unresolvable ranking entries.
- LevelSearch: the walk to the root of an evolution chain; the enumeration of moveset alternatives and its averages in rank.go.
- Gamemaster refresh, static tables (weather, cups, types, encounter ranges), report and pokédex lookups, MCP transport, configuration and logging.
