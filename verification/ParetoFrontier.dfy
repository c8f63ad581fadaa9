/** internal/tools/team_builder.go, the `all_pareto` mode: the best triple per shield scenario, the best on
    average, and the deduplicated list of at most four teams. */
module ParetoFrontier {
  import opened Wrappers
  import RatingMatrix
  import opened TeamEnumeration

  const SCENARIO_COUNT := RatingMatrix.SCENARIO_COUNT

  /** Axis 0 is the average over the scenarios; axis s + 1 is scenario s. */
  const AXES := SCENARIO_COUNT + 1

  const SCENARIO_LABELS := ["best 0-shield", "best 1-shield", "best 2-shield"]

  function Title(axis: nat): string
    requires axis < AXES
  {
    if axis == 0 then "best overall" else SCENARIO_LABELS[axis - 1]
  }

  // ---------------------------------------------------------------- values on the four axes

  function AverageTo(matrix: Matrix, t: Triple, s: nat): (real, nat)
    requires Within(matrix, t) && s <= SCENARIO_COUNT
  {
    if s == 0 then (0.0, 0)
    else
      var (total, counted) := AverageTo(matrix, t, s - 1);
      match Score(matrix, t, s - 1)
      case None => (total, counted)
      case Some(score) => (total + score, counted + 1)
  }

  /** The mean over the scenarios with a valid sample. */
  function Average(matrix: Matrix, t: Triple): Option<real>
    requires Within(matrix, t)
  {
    var (total, counted) := AverageTo(matrix, t, SCENARIO_COUNT);
    if counted == 0 then None else Some(total / counted as real)
  }

  method AverageScenarioScore(matrix: Matrix, t: Triple) returns (average: Option<real>)
    requires Within(matrix, t)
    ensures average == Average(matrix, t)
  {
    var total, counted := 0.0, 0;
    for s := 0 to SCENARIO_COUNT
      invariant (total, counted) == AverageTo(matrix, t, s)
    {
      var score := ScoreTripleFromMatrix(matrix, t, s);
      if score.None? { continue; }
      total := total + score.value;
      counted := counted + 1;
    }
    if counted == 0 {
      return None;
    }
    average := Some(total / counted as real);
  }

  ghost function Merits(matrix: Matrix, axis: nat): Triple -> Option<real>
    requires axis < AXES
  {
    if axis > 0 then Scores(matrix, axis - 1)
    else t => if Within(matrix, t) then Average(matrix, t) else None
  }

  // ---------------------------------------------------------------- champions

  /** The lexicographically first maximiser of `value` over `done`. */
  ghost predicate Best(value: Triple -> Option<real>, done: set<Triple>, b: Triple) {
    && b in done && value(b).Some?
    && forall u <- done :: value(u).Some? ==>
         && value(u).value <= value(b).value
         && (value(u).value == value(b).value && u != b ==> Before(b, u))
  }

  /** `slot` holds the team of the champion, and is empty exactly when no triple has a value. */
  ghost predicate IsChampion(pool: seq<string>, value: Triple -> Option<real>, title: string, done: set<Triple>,
                             slot: Option<Team>)
    requires InPool(pool, done)
  {
    match slot
    case None => forall u <- done :: value(u).None?
    case Some(team) =>
      var b := TripleOf(team);
      Best(value, done, b) && team == NewTeam(pool, b, value(b).value, title)
  }

  /** The comparison that both update functions make: replace on the first value and on a strictly larger one. */
  function Challenge(slot: Option<Team>, candidate: Option<Team>): Option<Team> {
    if candidate.None? then slot
    else if slot.None? || candidate.value.score > slot.value.score then candidate
    else slot
  }

  lemma ChampionStep(pool: seq<string>, value: Triple -> Option<real>, title: string, done: set<Triple>,
                     slot: Option<Team>, t: Triple)
    requires InPool(pool, done + {t}) && IsChampion(pool, value, title, done, slot)
    requires forall u <- done :: Before(u, t)
    ensures var candidate := if value(t).None? then None else Some(NewTeam(pool, t, value(t).value, title));
            IsChampion(pool, value, title, done + {t}, Challenge(slot, candidate))
  {
  }

  function Slot(found: bool, team: Team): Option<Team> {
    if found then Some(team) else None
  }

  function Slots(foundOverall: bool, overall: Team, found: seq<bool>, best: seq<Team>): seq<Option<Team>>
    requires |found| == |best|
  {
    [Slot(foundOverall, overall)] + seq(|found|, s requires 0 <= s < |found| => Slot(found[s], best[s]))
  }

  /** Every axis has its champion over `done`. */
  ghost predicate Champions(pool: seq<string>, matrix: Matrix, done: set<Triple>, slots: seq<Option<Team>>)
    requires InPool(pool, done)
  {
    |slots| == AXES && forall a :: 0 <= a < AXES ==> IsChampion(pool, Merits(matrix, a), Title(a), done, slots[a])
  }

  ghost predicate ScenarioChampions(pool: seq<string>, matrix: Matrix, from: nat, to: nat, done: set<Triple>,
                                    found: seq<bool>, best: seq<Team>)
    requires InPool(pool, done) && |found| == |best| == SCENARIO_COUNT
  {
    forall s :: from <= s < to <= SCENARIO_COUNT ==>
        IsChampion(pool, Scores(matrix, s), Title(s + 1), done, Slot(found[s], best[s]))
  }

  method UpdateScenarioBests(pool: seq<string>, matrix: Matrix, t: Triple, best: array<Team>, found: array<bool>,
                             ghost done: set<Triple>)
    requires |matrix| == |pool| && InPool(pool, done + {t}) && best.Length == found.Length == SCENARIO_COUNT
    requires forall u <- done :: Before(u, t)
    requires ScenarioChampions(pool, matrix, 0, SCENARIO_COUNT, done, found[..], best[..])
    modifies best, found
    ensures ScenarioChampions(pool, matrix, 0, SCENARIO_COUNT, done + {t}, found[..], best[..])
  {
    for s := 0 to SCENARIO_COUNT
      invariant ScenarioChampions(pool, matrix, 0, s, done + {t}, found[..], best[..])
      invariant ScenarioChampions(pool, matrix, s, SCENARIO_COUNT, done, found[..], best[..])
    {
      var replace, challenger := UpdateOneBest(pool, matrix, t, s, best[s], found[s], done);
      if replace {
        best[s] := challenger;
        found[s] := true;
      }
    }
  }

  /** The loop body: whether the triple takes over scenario `s`. */
  method UpdateOneBest(pool: seq<string>, matrix: Matrix, t: Triple, s: nat, best: Team, found: bool,
                       ghost done: set<Triple>)
    returns (replace: bool, challenger: Team)
    requires |matrix| == |pool| && InPool(pool, done + {t}) && s < SCENARIO_COUNT
    requires forall u <- done :: Before(u, t)
    requires IsChampion(pool, Scores(matrix, s), Title(s + 1), done, Slot(found, best))
    ensures IsChampion(pool, Scores(matrix, s), Title(s + 1), done + {t},
                       if replace then Some(challenger) else Slot(found, best))
  {
    ChampionStep(pool, Scores(matrix, s), Title(s + 1), done, Slot(found, best), t);
    var score := ScoreTripleFromMatrix(matrix, t, s);
    if score.None? || (found && score.value <= best.score) {
      return false, best;
    }
    return true, NewTeam(pool, t, score.value, SCENARIO_LABELS[s]);
  }

  method UpdateOverallBest(pool: seq<string>, matrix: Matrix, t: Triple, best0: Team, found0: bool,
                           ghost done: set<Triple>)
    returns (best: Team, found: bool)
    requires |matrix| == |pool| && InPool(pool, done + {t})
    requires forall u <- done :: Before(u, t)
    requires IsChampion(pool, Merits(matrix, 0), Title(0), done, Slot(found0, best0))
    ensures IsChampion(pool, Merits(matrix, 0), Title(0), done + {t}, Slot(found, best))
  {
    best, found := best0, found0;
    ChampionStep(pool, Merits(matrix, 0), Title(0), done, Slot(found, best), t);
    var score := AverageScenarioScore(matrix, t);
    if score.None? {
      return;
    }
    if !found || score.value > best.score {
      best := NewTeam(pool, t, score.value, "best overall");
      found := true;
    }
  }

  // ---------------------------------------------------------------- the search

  ghost predicate Tracking(pool: seq<string>, matrix: Matrix, required: set<string>, cursor: Triple, done: set<Triple>,
                           evaluated: nat,
                           foundOverall: bool, overall: Team, found: seq<bool>, best: seq<Team>)
    requires |found| == |best| == SCENARIO_COUNT
  {
    && Visited(pool, required, cursor, done) && evaluated == |done|
    && IsChampion(pool, Merits(matrix, 0), Title(0), done, Slot(foundOverall, overall))
    && ScenarioChampions(pool, matrix, 0, SCENARIO_COUNT, done, found, best)
  }

  /** The three loops: every axis ends with its champion over all qualifying triples, every qualifying triple
      is counted once, and the result is assembled from the four champions. */
  method BuildParetoFrontier(pool: seq<string>, matrix: Matrix, required: set<string>)
    returns (teams: seq<Team>, evaluated: nat)
    requires |matrix| == |pool|
    ensures exists slots :: Champions(pool, matrix, Qualifying(pool, required), slots) && teams == Frontier(slots, AXES)
    ensures evaluated == |Qualifying(pool, required)|
  {
    evaluated := 0;
    var best, found := new Team[SCENARIO_COUNT], new bool[SCENARIO_COUNT](_ => false);
    var overall, foundOverall := Team([], [0, 0, 0], 0.0, ""), false;
    ghost var done: set<Triple> := {};
    for i := 0 to |pool|
      invariant Tracking(pool, matrix, required, Triple(i, i + 1, i + 2), done, evaluated, foundOverall, overall,
                         found[..], best[..])
    {
      evaluated, overall, foundOverall, done :=
        SearchFromAnchor(pool, matrix, required, i, evaluated, best, found, overall, foundOverall, done);
    }
    VisitEnds(pool, required, Triple(|pool|, |pool| + 1, |pool| + 2), done);
    AllTracked(pool, matrix, done, foundOverall, overall, found[..], best[..]);
    teams := AssembleFrontier(best, found, overall, foundOverall);
    assert Champions(pool, matrix, Qualifying(pool, required), Slots(foundOverall, overall, found[..], best[..]));
  }

  lemma AllTracked(pool: seq<string>, matrix: Matrix, done: set<Triple>, foundOverall: bool, overall: Team,
                   found: seq<bool>, best: seq<Team>)
    requires InPool(pool, done) && |found| == |best| == SCENARIO_COUNT
    requires IsChampion(pool, Merits(matrix, 0), Title(0), done, Slot(foundOverall, overall))
    requires ScenarioChampions(pool, matrix, 0, SCENARIO_COUNT, done, found, best)
    ensures Champions(pool, matrix, done, Slots(foundOverall, overall, found, best))
  {
    var slots := Slots(foundOverall, overall, found, best);
    forall a | 0 < a < AXES ensures IsChampion(pool, Merits(matrix, a), Title(a), done, slots[a]) {
      assert slots[a] == Slot(found[a - 1], best[a - 1]);
    }
  }

  /** The two inner loops. */
  method SearchFromAnchor(pool: seq<string>, matrix: Matrix, required: set<string>, i: nat, evaluated0: nat,
                          best: array<Team>, found: array<bool>, overall0: Team, foundOverall0: bool,
                          ghost done0: set<Triple>)
    returns (evaluated: nat, overall: Team, foundOverall: bool, ghost done: set<Triple>)
    requires |matrix| == |pool| && i < |pool| && best.Length == found.Length == SCENARIO_COUNT
    requires Tracking(pool, matrix, required, Triple(i, i + 1, i + 2), done0, evaluated0, foundOverall0, overall0,
                      found[..], best[..])
    modifies best, found
    ensures Tracking(pool, matrix, required, Triple(i + 1, i + 2, i + 3), done, evaluated, foundOverall, overall,
                     found[..], best[..])
  {
    evaluated, overall, foundOverall, done := evaluated0, overall0, foundOverall0, done0;
    for j := i + 1 to |pool|
      invariant Tracking(pool, matrix, required, Triple(i, j, j + 1), done, evaluated, foundOverall, overall,
                         found[..], best[..])
    {
      for k := j + 1 to |pool|
        invariant Tracking(pool, matrix, required, Triple(i, j, k), done, evaluated, foundOverall, overall, found[..],
                           best[..])
      {
        evaluated, overall, foundOverall, done :=
          ConsiderChampions(pool, matrix, required, Triple(i, j, k), evaluated, best, found, overall, foundOverall,
                            done);
      }
      Carry(pool, required, Triple(i, j, |pool|), done);
    }
    Carry(pool, required, Triple(i, |pool|, |pool| + 1), done);
  }

  /** The body of the innermost loop. */
  method ConsiderChampions(pool: seq<string>, matrix: Matrix, required: set<string>, t: Triple, evaluated0: nat,
                           best: array<Team>, found: array<bool>, overall0: Team, foundOverall0: bool,
                           ghost done0: set<Triple>)
    returns (evaluated: nat, overall: Team, foundOverall: bool, ghost done: set<Triple>)
    requires |matrix| == |pool| && t.i < t.j < t.k < |pool| && best.Length == found.Length == SCENARIO_COUNT
    requires Tracking(pool, matrix, required, t, done0, evaluated0, foundOverall0, overall0, found[..], best[..])
    modifies best, found
    ensures Tracking(pool, matrix, required, t.(k := t.k + 1), done, evaluated, foundOverall, overall, found[..],
                     best[..])
  {
    VisitStep(pool, required, t, done0);
    QualifiesMeans(pool, required, t);
    if !ContainsAll(Members(pool, t), required) {
      return evaluated0, overall0, foundOverall0, done0;
    }
    done := done0 + {t};
    evaluated := evaluated0 + 1;
    UpdateScenarioBests(pool, matrix, t, best, found, done0);
    overall, foundOverall := UpdateOverallBest(pool, matrix, t, overall0, foundOverall0, done0);
  }

  // ---------------------------------------------------------------- the assembled list

  /** Slot `a` holds a champion whose triple is on no earlier axis. */
  ghost predicate First(slots: seq<Option<Team>>, a: nat)
    requires a < |slots|
  {
    slots[a].Some? && forall e :: 0 <= e < a && slots[e].Some? ==>
        slots[e].value.poolIndices != slots[a].value.poolIndices
  }

  /** In axis order, the champions whose triple is on no earlier axis. */
  ghost function Frontier(slots: seq<Option<Team>>, upto: nat): seq<Team>
    requires upto <= |slots|
  {
    if upto == 0 then []
    else Frontier(slots, upto - 1) + (if First(slots, upto - 1) then [slots[upto - 1].value] else [])
  }

  /** The first axis that holds the same triple as axis `a`. */
  lemma FirstOf(slots: seq<Option<Team>>, a: nat) returns (f: nat)
    requires a < |slots| && slots[a].Some?
    ensures f <= a && First(slots, f) && slots[f].value.poolIndices == slots[a].value.poolIndices
  {
    if First(slots, a) {
      f := a;
    } else {
      var e :| 0 <= e < a && slots[e].Some? && slots[e].value.poolIndices == slots[a].value.poolIndices;
      f := FirstOf(slots, e);
    }
  }

  method DuplicateInFrontier(existing: seq<Team>, indices: Indices) returns (duplicate: bool)
    ensures duplicate <==> exists n :: 0 <= n < |existing| && existing[n].poolIndices == indices
  {
    for i := 0 to |existing|
      invariant forall n :: 0 <= n < i ==> existing[n].poolIndices != indices
    {
      if existing[i].poolIndices == indices {
        return true;
      }
    }
    return false;
  }

  method AssembleFrontier(best: array<Team>, found: array<bool>, overall: Team, foundOverall: bool)
        returns (out: seq<Team>)
    requires best.Length == found.Length == SCENARIO_COUNT
    ensures out == Frontier(Slots(foundOverall, overall, found[..], best[..]), AXES)
  {
    ghost var slots := Slots(foundOverall, overall, found[..], best[..]);
    out := [];
    if foundOverall {
      out := out + [overall];
    }
    for s := 0 to SCENARIO_COUNT
      invariant out == Frontier(slots, s + 1)
    {
      assert slots[s + 1] == Slot(found[s], best[s]);
      if !found[s] { continue; }
      var duplicate := DuplicateInFrontier(out, best[s].poolIndices);
      DuplicateIff(slots, s + 1);
      if duplicate { continue; }
      out := out + [best[s]];
    }
  }

  lemma {:induction false} Represented(slots: seq<Option<Team>>, upto: nat, a: nat)
    requires a < upto <= |slots| && First(slots, a)
    ensures slots[a].value in Frontier(slots, upto)
  {
    if a < upto - 1 { Represented(slots, upto - 1, a); }
  }

  lemma {:induction false} FrontierMembers(slots: seq<Option<Team>>, upto: nat, n: nat) returns (a: nat)
    requires upto <= |slots| && n < |Frontier(slots, upto)|
    ensures a < upto && First(slots, a) && Frontier(slots, upto)[n] == slots[a].value
  {
    a := upto - 1;
    if n < |Frontier(slots, upto - 1)| { a := FrontierMembers(slots, upto - 1, n); }
  }

  lemma DuplicateIff(slots: seq<Option<Team>>, a: nat)
    requires a < |slots| && slots[a].Some?
    ensures var teams := Frontier(slots, a);
            First(slots, a) <==> !exists n :: 0 <= n < |teams| && teams[n].poolIndices == slots[a].value.poolIndices
  {
    var teams := Frontier(slots, a);
    if !First(slots, a) {
      var f := FirstOf(slots, a);
      Represented(slots, a, f);
      var n :| 0 <= n < |teams| && teams[n] == slots[f].value;
      assert teams[n].poolIndices == slots[a].value.poolIndices;
    } else {
      forall n | 0 <= n < |teams| ensures teams[n].poolIndices != slots[a].value.poolIndices {
        var e := FrontierMembers(slots, a, n);
      }
    }
  }

  /** At most four teams, no two on the same triple, each the champion of some axis, and for every axis with a
      champion its triple is listed. */
  lemma FrontierCoversEveryAxis(slots: seq<Option<Team>>)
    requires |slots| == AXES
    ensures var teams := Frontier(slots, AXES);
            && |teams| <= 4
            && (forall m, n :: 0 <= m < n < |teams| ==> teams[m].poolIndices != teams[n].poolIndices)
            && (forall team <- teams :: Some(team) in slots)
            && (forall a :: 0 <= a < AXES && slots[a].Some? ==>
                  exists n :: 0 <= n < |teams| && teams[n].poolIndices == slots[a].value.poolIndices)
  {
    var teams := Frontier(slots, AXES);
    FrontierDistinct(slots, AXES);
    forall n | 0 <= n < |teams| ensures Some(teams[n]) in slots {
      var a := FrontierMembers(slots, AXES, n);
    }
    forall a | 0 <= a < AXES && slots[a].Some?
      ensures exists n :: 0 <= n < |teams| && teams[n].poolIndices == slots[a].value.poolIndices
    {
      var f := FirstOf(slots, a);
      Represented(slots, AXES, f);
      var n :| 0 <= n < |teams| && teams[n] == slots[f].value;
      assert teams[n].poolIndices == slots[a].value.poolIndices;
    }
  }

  lemma {:induction false} FrontierDistinct(slots: seq<Option<Team>>, upto: nat)
    requires upto <= |slots|
    ensures var teams := Frontier(slots, upto);
            && |teams| <= upto
            && forall m, n :: 0 <= m < n < |teams| ==> teams[m].poolIndices != teams[n].poolIndices
  {
    if upto > 0 {
      FrontierDistinct(slots, upto - 1);
      if First(slots, upto - 1) { DuplicateIff(slots, upto - 1); }
    }
  }

  // ---------------------------------------------------------------- labels

  lemma TitlesDiffer(a: nat, b: nat)
    requires a < AXES && b < AXES && Title(a) == Title(b)
    ensures a == b
  {
    assert "best overall"[5] == 'o' && SCENARIO_LABELS[0][5] == '0' && SCENARIO_LABELS[1][5] == '1' &&
           SCENARIO_LABELS[2][5] == '2';
    assert a > 0 ==> Title(a)[5] == SCENARIO_LABELS[a - 1][5];
    assert b > 0 ==> Title(b)[5] == SCENARIO_LABELS[b - 1][5];
  }

  /** The frontier shows the triple under the label. */
  ghost predicate Labelled(teams: seq<Team>, indices: Indices, title: string) {
    exists n :: 0 <= n < |teams| && teams[n].poolIndices == indices && teams[n].paretoLabel == title
  }

  /** A team that wins axis `a` carries the label of that axis exactly when it wins no earlier axis; the overall
      axis comes before all scenarios. */
  lemma LabelIsFirstAxisWon(pool: seq<string>, matrix: Matrix, done: set<Triple>, slots: seq<Option<Team>>, a: nat)
    requires InPool(pool, done) && Champions(pool, matrix, done, slots) && a < AXES && slots[a].Some?
    ensures Labelled(Frontier(slots, AXES), slots[a].value.poolIndices, Title(a)) <==>
            forall e :: 0 <= e < a && slots[e].Some? ==> slots[e].value.poolIndices != slots[a].value.poolIndices
  {
    var teams, indices := Frontier(slots, AXES), slots[a].value.poolIndices;
    assert IsChampion(pool, Merits(matrix, a), Title(a), done, slots[a]);
    if First(slots, a) {
      Represented(slots, AXES, a);
      var n :| 0 <= n < |teams| && teams[n] == slots[a].value;
      assert Labelled(teams, indices, Title(a));
    }
    if n :| 0 <= n < |teams| && teams[n].poolIndices == indices && teams[n].paretoLabel == Title(a) {
      var e := FrontierMembers(slots, AXES, n);
      assert IsChampion(pool, Merits(matrix, e), Title(e), done, slots[e]);
      TitlesDiffer(e, a);
    }
  }

  /** An input on which one team wins every axis and appears under "best overall" only. */
  lemma WinnerLosesScenarioLabels() returns (pool: seq<string>, matrix: Matrix, slots: seq<Option<Team>>)
    ensures |pool| == |matrix| && Champions(pool, matrix, Qualifying(pool, {}), slots)
    ensures forall a :: 0 <= a < AXES ==> slots[a].Some? && slots[a].value.poolIndices == [0, 1, 2]
    ensures Labelled(Frontier(slots, AXES), [0, 1, 2], "best overall")
    ensures forall s :: 0 <= s < SCENARIO_COUNT ==> !Labelled(Frontier(slots, AXES), [0, 1, 2], SCENARIO_LABELS[s])
  {
    pool := ["a", "b", "c"];
    var cell := RatingMatrix.Cell(500, true);
    matrix := seq(3, _ => [[cell, cell, cell]]);
    var t := Triple(0, 1, 2);
    OnlyTriple(pool);
    AllRated(matrix, t);
    slots := seq(AXES, a requires 0 <= a < AXES => Some(NewTeam(pool, t, Value(Merits(matrix, a)(t)), Title(a))));
    SoleTripleWins(pool, matrix, t, slots);
    OverallTakesLabel(pool, matrix, Qualifying(pool, {}), slots);
  }

  lemma OnlyTriple(pool: seq<string>)
    requires |pool| == 3
    ensures Qualifying(pool, {}) == {Triple(0, 1, 2)}
  {
    assert Triple(0, 1, 2) in Universe(3);
  }

  /** With at least one opponent and no failure, every axis has a value. */
  lemma AllRated(matrix: Matrix, t: Triple)
    requires Within(matrix, t) && |matrix[t.i]| > 0
    requires forall i, o, s :: 0 <= i < |matrix| && 0 <= o < |matrix[i]| && 0 <= s < SCENARIO_COUNT ==>
               matrix[i][o][s].ok
    ensures forall a :: 0 <= a < AXES ==> Merits(matrix, a)(t).Some?
  {
    forall s | 0 <= s < SCENARIO_COUNT ensures Score(matrix, t, s).Some? {
      CountedAll(matrix, t, s, |matrix[t.i]|);
    }
    AverageIsMean(matrix, t);
  }

  lemma SoleTripleWins(pool: seq<string>, matrix: Matrix, t: Triple, slots: seq<Option<Team>>)
    requires |slots| == AXES && t.i < t.j < t.k < |pool|
    requires forall a :: 0 <= a < AXES ==>
               Merits(matrix, a)(t).Some? && slots[a] == Some(NewTeam(pool, t, Merits(matrix, a)(t).value, Title(a)))
    ensures InPool(pool, {t}) && Champions(pool, matrix, {t}, slots)
  {
  }

  predicate SameTriple(a: Option<Team>, b: Option<Team>) {
    a.Some? && b.Some? && a.value.poolIndices == b.value.poolIndices
  }

  /** A team that wins overall and on a scenario never shows that scenario's label. */
  lemma OverallTakesLabel(pool: seq<string>, matrix: Matrix, done: set<Triple>, slots: seq<Option<Team>>)
    requires InPool(pool, done) && Champions(pool, matrix, done, slots) && slots[0].Some?
    ensures Labelled(Frontier(slots, AXES), slots[0].value.poolIndices, "best overall")
    ensures forall s | 0 <= s < SCENARIO_COUNT && SameTriple(slots[s + 1], slots[0]) ::
              !Labelled(Frontier(slots, AXES), slots[0].value.poolIndices, SCENARIO_LABELS[s])
  {
    LabelIsFirstAxisWon(pool, matrix, done, slots, 0);
    forall s | 0 <= s < SCENARIO_COUNT && SameTriple(slots[s + 1], slots[0])
      ensures !Labelled(Frontier(slots, AXES), slots[0].value.poolIndices, SCENARIO_LABELS[s])
    {
      LabelIsFirstAxisWon(pool, matrix, done, slots, s + 1);
    }
  }

  // ---------------------------------------------------------------- domination of score vectors

  /** The three scenario scores of one triple. */
  datatype Trio = Trio(s0: Option<real>, s1: Option<real>, s2: Option<real>)

  function Value(x: Option<real>): real {
    if x.Some? then x.value else 0.0
  }

  function Count(x: Option<real>): nat {
    if x.Some? then 1 else 0
  }

  function Mean(x: Trio): Option<real> {
    var counted := Count(x.s0) + Count(x.s1) + Count(x.s2);
    if counted == 0 then None else Some((Value(x.s0) + Value(x.s1) + Value(x.s2)) / counted as real)
  }

  /** A missing score is worse than any score. */
  predicate AtLeast(x: Option<real>, y: Option<real>) {
    y.Some? ==> x.Some? && x.value >= y.value
  }

  predicate Better(x: Option<real>, y: Option<real>) {
    x.Some? && (y.Some? ==> x.value > y.value)
  }

  predicate Dominates(x: Trio, y: Trio) {
    && AtLeast(x.s0, y.s0) && AtLeast(x.s1, y.s1) && AtLeast(x.s2, y.s2)
    && (Better(x.s0, y.s0) || Better(x.s1, y.s1) || Better(x.s2, y.s2))
  }

  /** `y` has a score on some scenario, and `x` has one wherever `y` has and somewhere else as well. */
  predicate Nested(y: Trio, x: Trio) {
    && (y.s0.Some? || y.s1.Some? || y.s2.Some?)
    && (y.s0.Some? ==> x.s0.Some?) && (y.s1.Some? ==> x.s1.Some?) && (y.s2.Some? ==> x.s2.Some?)
    && ((x.s0.Some? && y.s0.None?) || (x.s1.Some? && y.s1.None?) || (x.s2.Some? && y.s2.None?))
  }

  /** Without a larger mean one can dominate only through a scenario on which the other has no score. */
  lemma DominationNeedsNesting(y: Trio, x: Trio)
    requires Mean(y).Some? && Dominates(x, y) && (Mean(x).Some? ==> Mean(x).value <= Mean(y).value)
    ensures Nested(y, x)
  {
    if !Nested(y, x) {
      var counted := Count(y.s0) + Count(y.s1) + Count(y.s2);
      assert counted == Count(x.s0) + Count(x.s1) + Count(x.s2);
      LargerQuotient(Value(y.s0) + Value(y.s1) + Value(y.s2), Value(x.s0) + Value(x.s1) + Value(x.s2), counted);
    }
  }

  lemma LargerQuotient(total: real, larger: real, counted: nat)
    requires larger > total && counted > 0
    ensures larger / counted as real > total / counted as real
  {
  }

  function Level(u: Option<real>, x: Option<real>): Option<real> {
    if x.None? then None else if u.Some? then Some(500.0) else Some(0.0)
  }

  function LevelTrio(u: Trio, x: Trio): Trio {
    Trio(Level(u.s0, x.s0), Level(u.s1, x.s1), Level(u.s2, x.s2))
  }

  /** On levelled scores the mean is at most 500, and is 500 exactly for those without a score that `u` lacks. */
  lemma LevelledMean(u: Trio, x: Trio)
    requires Mean(x).Some?
    ensures Mean(LevelTrio(u, x)).Some? && Mean(LevelTrio(u, x)).value <= 500.0
    ensures Mean(LevelTrio(u, x)).value == 500.0 <==>
            (x.s0.Some? ==> u.s0.Some?) && (x.s1.Some? ==> u.s1.Some?) && (x.s2.Some? ==> u.s2.Some?)
  {
  }

  /** Whoever reaches a levelled mean of 500 is dominated by one that has scores beyond those of `u`. */
  lemma LevelDomination(u: Trio, y: Trio, x: Trio)
    requires Nested(u, x)
    requires Mean(LevelTrio(u, y)).Some? && Mean(LevelTrio(u, y)).value >= 500.0
    ensures Dominates(LevelTrio(u, x), LevelTrio(u, y))
  {
    LevelledMean(u, y);
  }

  // ---------------------------------------------------------------- is the best-overall team undominated?

  function Scored(matrix: Matrix, t: Triple): Trio
    requires Within(matrix, t)
  {
    Trio(Score(matrix, t, 0), Score(matrix, t, 1), Score(matrix, t, 2))
  }

  lemma AverageIsMean(matrix: Matrix, t: Triple)
    requires Within(matrix, t)
    ensures Average(matrix, t) == Mean(Scored(matrix, t))
  {
    var x := Scored(matrix, t);
    assert AverageTo(matrix, t, 1) == (Value(x.s0), Count(x.s0));
    assert AverageTo(matrix, t, 2) == (Value(x.s0) + Value(x.s1), Count(x.s0) + Count(x.s1));
  }

  ghost predicate InMatrix(matrix: Matrix, ts: set<Triple>) {
    forall t <- ts :: Within(matrix, t)
  }

  ghost predicate OverallUndominated(matrix: Matrix, done: set<Triple>)
    requires InMatrix(matrix, done)
  {
    forall b <- done, t <- done :: Best(Merits(matrix, 0), done, b) ==> !Dominates(Scored(matrix, t), Scored(matrix, b))
  }

  ghost predicate NoNesting(matrix: Matrix, done: set<Triple>)
    requires InMatrix(matrix, done)
  {
    forall b <- done, t <- done :: !Nested(Scored(matrix, b), Scored(matrix, t))
  }

  /** The same cells failed; the ratings may differ. */
  ghost predicate SameFlags(m: Matrix, flags: Matrix) {
    && |m| == |flags|
    && (forall i :: 0 <= i < |m| ==> |m[i]| == |flags[i]|)
    && (forall i, o, s :: 0 <= i < |m| && 0 <= o < |m[i]| && 0 <= s < SCENARIO_COUNT ==>
          m[i][o][s].ok == flags[i][o][s].ok)
  }

  lemma {:induction false} CountedByFlags(m: Matrix, flags: Matrix, t: Triple, s: nat, o: nat)
    requires SameFlags(m, flags) && Within(m, t) && s < SCENARIO_COUNT && o <= |m[t.i]|
    ensures SumTo(m, t, s, o).1 == SumTo(flags, t, s, o).1
  {
    if o > 0 { CountedByFlags(m, flags, t, s, o - 1); }
  }

  lemma ScoreByFlags(m: Matrix, flags: Matrix, t: Triple, s: nat)
    requires SameFlags(m, flags) && Within(m, t) && s < SCENARIO_COUNT
    ensures Score(m, t, s).Some? <==> Score(flags, t, s).Some?
  {
    CountedByFlags(m, flags, t, s, |m[t.i]|);
  }

  lemma NestingByFlags(m: Matrix, flags: Matrix, b: Triple, t: Triple)
    requires SameFlags(m, flags) && Within(m, t) && Within(m, b)
    ensures Nested(Scored(m, b), Scored(m, t)) <==> Nested(Scored(flags, b), Scored(flags, t))
  {
    ScoreByFlags(m, flags, b, 0); ScoreByFlags(m, flags, b, 1); ScoreByFlags(m, flags, b, 2);
    ScoreByFlags(m, flags, t, 0); ScoreByFlags(m, flags, t, 1); ScoreByFlags(m, flags, t, 2);
  }

  /** The same failures, every other cell rated 500 on the scenarios where `u` has a score and 0 on the rest. */
  ghost function Levelled(flags: Matrix, u: Triple): (m: Matrix)
    requires Within(flags, u)
    ensures SameFlags(m, flags)
  {
    seq(|flags|, i requires 0 <= i < |flags| => seq(|flags[i]|, o requires 0 <= o < |flags[i]| =>
      seq(SCENARIO_COUNT, s requires 0 <= s < SCENARIO_COUNT =>
        RatingMatrix.Cell(if Score(flags, u, s).Some? then 500 else 0, flags[i][o][s].ok))))
  }

  lemma LevelledScore(flags: Matrix, u: Triple, t: Triple, s: nat)
    requires Within(flags, u) && Within(flags, t) && s < SCENARIO_COUNT
    ensures Score(Levelled(flags, u), t, s) == Level(Score(flags, u, s), Score(flags, t, s))
  {
    var level := if Score(flags, u, s).Some? then 500 else 0;
    ScoreByFlags(Levelled(flags, u), flags, t, s);
    LevelledRatings(flags, u, t, s);
    ScoreIsAMean(Levelled(flags, u), t, s, level, level);
  }

  lemma LevelledRatings(flags: Matrix, u: Triple, t: Triple, s: nat)
    requires Within(flags, u) && Within(flags, t) && s < SCENARIO_COUNT
    ensures var level := if Score(flags, u, s).Some? then 500 else 0; RatingsIn(Levelled(flags, u), t, s, level, level)
  {
  }

  lemma LevelledScores(flags: Matrix, u: Triple, t: Triple)
    requires Within(flags, u) && Within(flags, t)
    ensures Scored(Levelled(flags, u), t) == LevelTrio(Scored(flags, u), Scored(flags, t))
  {
    LevelledScore(flags, u, t, 0);
    LevelledScore(flags, u, t, 1);
    LevelledScore(flags, u, t, 2);
  }

  lemma {:induction false} BestExists(value: Triple -> Option<real>, done: set<Triple>, u: Triple) returns (b: Triple)
    requires u in done && value(u).Some?
    ensures Best(value, done, b)
    decreases |done|
  {
    var rest := done - {u};
    if v :| v in rest && value(v).Some? {
      var c := BestExists(value, rest, v);
      b := if value(u).value > value(c).value || (value(u).value == value(c).value && Before(u, c)) then u else c;
    } else {
      b := u;
    }
  }

  /** Whether the best-overall team can be dominated depends on the failed cells only: it is undominated under
      every rating of the other cells exactly when no triple has scores on strictly more scenarios than another
      triple that has some. */
  lemma OverallUndominatedExactly(flags: Matrix, done: set<Triple>)
    requires InMatrix(flags, done)
    ensures NoNesting(flags, done) <==>
            forall m: Matrix :: SameFlags(m, flags) ==> InMatrix(m, done) && OverallUndominated(m, done)
  {
    if NoNesting(flags, done) {
      forall m: Matrix | SameFlags(m, flags) ensures InMatrix(m, done) && OverallUndominated(m, done) {
        UndominatedWithoutNesting(m, flags, done);
      }
    } else {
      var u, t :| u in done && t in done && Nested(Scored(flags, u), Scored(flags, t));
      NestingIsDominated(flags, done, u, t);
    }
  }

  lemma UndominatedWithoutNesting(m: Matrix, flags: Matrix, done: set<Triple>)
    requires InMatrix(flags, done) && SameFlags(m, flags) && NoNesting(flags, done)
    ensures InMatrix(m, done) && OverallUndominated(m, done)
  {
    forall b, t | b in done && t in done && Best(Merits(m, 0), done, b) ensures !Dominates(Scored(m, t), Scored(m, b)) {
      NestingByFlags(m, flags, b, t);
      BestHasLargestMean(m, done, b, t);
      if Dominates(Scored(m, t), Scored(m, b)) { DominationNeedsNesting(Scored(m, b), Scored(m, t)); }
    }
  }

  lemma BestHasLargestMean(m: Matrix, done: set<Triple>, b: Triple, t: Triple)
    requires InMatrix(m, done) && t in done && Best(Merits(m, 0), done, b)
    ensures Mean(Scored(m, b)).Some?
    ensures Mean(Scored(m, t)).Some? ==> Mean(Scored(m, t)).value <= Mean(Scored(m, b)).value
  {
    AverageIsMean(m, b);
    AverageIsMean(m, t);
    assert Merits(m, 0)(t) == Average(m, t) && Merits(m, 0)(b) == Average(m, b);
  }

  lemma NestingIsDominated(flags: Matrix, done: set<Triple>, u: Triple, t: Triple)
    requires InMatrix(flags, done) && u in done && t in done && Nested(Scored(flags, u), Scored(flags, t))
    ensures InMatrix(Levelled(flags, u), done) && !OverallUndominated(Levelled(flags, u), done)
  {
    var m := Levelled(flags, u);
    LevelledScores(flags, u, u);
    LevelledMean(Scored(flags, u), Scored(flags, u));
    AverageIsMean(m, u);
    var b := BestExists(Merits(m, 0), done, u);
    BestHasLargestMean(m, done, b, u);
    LevelledScores(flags, u, b);
    LevelledScores(flags, u, t);
    LevelDomination(Scored(flags, u), Scored(flags, b), Scored(flags, t));
  }

  /** When no simulation failed, the best-overall team is undominated. */
  lemma UndominatedWithoutFailures(matrix: Matrix, done: set<Triple>)
    requires InMatrix(matrix, done)
    requires forall i, o, s :: 0 <= i < |matrix| && 0 <= o < |matrix[i]| && 0 <= s < SCENARIO_COUNT ==>
               matrix[i][o][s].ok
    ensures OverallUndominated(matrix, done)
  {
    forall t | t in done ensures var x := Scored(matrix, t);
      (x.s0.Some? <==> |matrix[0]| > 0) && (x.s1.Some? <==> |matrix[0]| > 0) && (x.s2.Some? <==> |matrix[0]| > 0)
    {
      CountedAll(matrix, t, 0, |matrix[t.i]|);
      CountedAll(matrix, t, 1, |matrix[t.i]|);
      CountedAll(matrix, t, 2, |matrix[t.i]|);
    }
    UndominatedWithoutNesting(matrix, matrix, done);
  }

  lemma {:induction false} CountedAll(matrix: Matrix, t: Triple, s: nat, o: nat)
    requires Within(matrix, t) && s < SCENARIO_COUNT && o <= |matrix[t.i]|
    requires forall i, o, s :: 0 <= i < |matrix| && 0 <= o < |matrix[i]| && 0 <= s < SCENARIO_COUNT ==>
               matrix[i][o][s].ok
    ensures SumTo(matrix, t, s, o).1 == 3 * o
  {
    if o > 0 { CountedAll(matrix, t, s, o - 1); }
  }

  /** A scenario champion is dominated only by a triple that ties with it on its own scenario and comes later. */
  lemma ScenarioChampionLosesOnlyTies(matrix: Matrix, done: set<Triple>, s: nat, b: Triple, t: Triple)
    requires InMatrix(matrix, done) && s < SCENARIO_COUNT && t in done
    requires Best(Scores(matrix, s), done, b) && Dominates(Scored(matrix, t), Scored(matrix, b))
    ensures Score(matrix, t, s) == Score(matrix, b, s) && Before(b, t)
  {
    assert s == 0 || s == 1 || s == 2;
    assert Scores(matrix, s)(t) == Score(matrix, t, s);
  }
}
