/** internal/tools/team_builder.go: enumerating the triples of the pool and scoring them, on a completely
    filled rating matrix and without cancellation (RatingMatrix treats both). */
module TeamEnumeration {
  import opened Wrappers
  import opened Arithmetic
  import opened RatingMatrix

  /** One row per pool member, all rows of one length, three scenarios deep. */
  type Matrix = m: seq<Row> | IsRectangular(m)

  ghost predicate IsRectangular(m: seq<Row>) {
    && (forall i :: 0 <= i < |m| ==> |m[i]| == |m[0]|)
    && (forall i, o :: 0 <= i < |m| && 0 <= o < |m[i]| ==> |m[i][o]| == SCENARIO_COUNT)
  }

  datatype Triple = Triple(i: nat, j: nat, k: nat)

  /** Lexicographic order on triples, the order of the three nested loops. */
  ghost predicate Before(a: Triple, b: Triple) {
    a.i < b.i || (a.i == b.i && (a.j < b.j || (a.j == b.j && a.k < b.k)))
  }

  predicate Within(matrix: Matrix, t: Triple) {
    t.i < |matrix| && t.j < |matrix| && t.k < |matrix|
  }

  /** Pool positions of a team: three slots, rewritten once at the end of the pipeline. */
  type Indices = s: seq<nat> | |s| == 3 witness [0, 0, 0]

  datatype Team = Team(members: seq<string>, poolIndices: Indices, score: real, paretoLabel: string)

  function TripleOf(team: Team): Triple {
    Triple(team.poolIndices[0], team.poolIndices[1], team.poolIndices[2])
  }

  // ---------------------------------------------------------------- which triples qualify

  function Members(pool: seq<string>, t: Triple): seq<string>
    requires t.i < |pool| && t.j < |pool| && t.k < |pool|
  {
    [pool[t.i], pool[t.j], pool[t.k]]
  }

  function NewTeam(pool: seq<string>, t: Triple, score: real, title: string): Team
    requires t.i < |pool| && t.j < |pool| && t.k < |pool|
  {
    Team(Members(pool, t), [t.i, t.j, t.k], score, title)
  }

  /** containsAllSpecies: every required species is among the members. */
  predicate ContainsAll(members: seq<string>, required: set<string>) {
    forall id <- required :: id in members
  }

  ghost predicate Qualifies(pool: seq<string>, required: set<string>, t: Triple) {
    && t.i < t.j < t.k < |pool|
    && forall id <- required :: id == pool[t.i] || id == pool[t.j] || id == pool[t.k]
  }

  lemma QualifiesMeans(pool: seq<string>, required: set<string>, t: Triple)
    requires t.i < t.j < t.k < |pool|
    ensures Qualifies(pool, required, t) <==> ContainsAll(Members(pool, t), required)
  {
  }

  ghost function PairsBelow(n: nat, k: nat): (r: set<Triple>)
    ensures 2 * |r| == n * (n - 1)
    ensures forall t :: t in r <==> t.i < t.j < n && t.k == k
  {
    if n == 0 then {}
    else
      var row := RowBelow(n - 1, n - 1, k);
      assert PairsBelow(n - 1, k) !! row;
      Quadratic(n, |PairsBelow(n - 1, k)|);
      PairsBelow(n - 1, k) + row
  }

  ghost function RowBelow(n: nat, j: nat, k: nat): (r: set<Triple>)
    ensures |r| == n
    ensures forall t :: t in r <==> t.i < n && t.j == j && t.k == k
  {
    if n == 0 then {} else RowBelow(n - 1, j, k) + {Triple(n - 1, j, k)}
  }

  ghost function TriplesBelow(n: nat): (r: set<Triple>)
    ensures 6 * |r| == n * (n - 1) * (n - 2)
    ensures forall t :: t in r <==> t.i < t.j < t.k < n
  {
    if n == 0 then {}
    else
      var layer := PairsBelow(n - 1, n - 1);
      var rest := TriplesBelow(n - 1);
      assert rest !! layer;
      Cubic(n, |rest|, |layer|);
      rest + layer
  }

  lemma Cubic(n: nat, rest: nat, layer: nat)
    requires 6 * rest == (n - 1) * (n - 2) * (n - 3) && 2 * layer == (n - 1) * (n - 2)
    ensures 6 * (rest + layer) == n * (n - 1) * (n - 2)
  {
    var pairs := (n - 1) * (n - 2);
    assert pairs * (n - 3) + 3 * pairs == pairs * n == n * (n - 1) * (n - 2);
  }

  lemma Quadratic(n: nat, rest: nat)
    requires 2 * rest == (n - 1) * (n - 2)
    ensures 2 * (rest + (n - 1)) == n * (n - 1)
  {
  }

  ghost function Universe(n: nat): set<Triple> {
    set i: nat, j: nat, k: nat | i < n && j < n && k < n :: Triple(i, j, k)
  }

  ghost function Qualifying(pool: seq<string>, required: set<string>): set<Triple> {
    set t | t in Universe(|pool|) && Qualifies(pool, required, t)
  }

  /** How many triples there are when nothing is required: n choose 3. */
  lemma CountAll(pool: seq<string>)
    ensures var n := |pool|; 6 * |Qualifying(pool, {})| == n * (n - 1) * (n - 2)
  {
    var counted := TriplesBelow(|pool|);
    forall t | t in counted ensures t in Qualifying(pool, {}) {
      assert Triple(t.i, t.j, t.k) in Universe(|pool|);
    }
    assert Qualifying(pool, {}) == counted;
  }

  /** `done` holds the qualifying triples that the loops visit before the cursor. */
  ghost predicate Visited(pool: seq<string>, required: set<string>, cursor: Triple, done: set<Triple>) {
    forall t :: t in done <==> Qualifies(pool, required, t) && Before(t, cursor)
  }

  lemma VisitStep(pool: seq<string>, required: set<string>, t: Triple, done: set<Triple>)
    requires t.i < t.j < t.k < |pool| && Visited(pool, required, t, done)
    ensures Visited(pool, required, t.(k := t.k + 1), done + (if Qualifies(pool, required, t) then {t} else {}))
    ensures t !in done
  {
  }

  /** Running out of positions in one loop leaves the cursor where the next round of the enclosing loop starts. */
  lemma Carry(pool: seq<string>, required: set<string>, cursor: Triple, done: set<Triple>)
    requires Visited(pool, required, cursor, done)
    ensures cursor.k == |pool| ==> Visited(pool, required, Triple(cursor.i, cursor.j + 1, cursor.j + 2), done)
    ensures cursor.j == |pool| ==> Visited(pool, required, Triple(cursor.i + 1, cursor.i + 2, cursor.i + 3), done)
  {
  }

  lemma VisitEnds(pool: seq<string>, required: set<string>, cursor: Triple, done: set<Triple>)
    requires Visited(pool, required, cursor, done) && cursor.i == |pool|
    ensures done == Qualifying(pool, required)
  {
    forall t | t in done ensures t in Qualifying(pool, required) {
      assert Triple(t.i, t.j, t.k) in Universe(|pool|);
    }
  }

  // ---------------------------------------------------------------- scores

  function Points(c: Cell): int {
    if c.ok then c.rating else 0
  }

  function Weight(c: Cell): nat {
    if c.ok then 1 else 0
  }

  /** Sum and number of the valid cells of three rows against the first `o` opponents. */
  function SumTo(matrix: Matrix, t: Triple, s: nat, o: nat): (int, nat)
    requires Within(matrix, t) && s < SCENARIO_COUNT && o <= |matrix[t.i]|
  {
    if o == 0 then (0, 0)
    else
      var (sum, counted) := SumTo(matrix, t, s, o - 1);
      var a, b, c := matrix[t.i][o - 1][s], matrix[t.j][o - 1][s], matrix[t.k][o - 1][s];
      (sum + Points(a) + Points(b) + Points(c), counted + Weight(a) + Weight(b) + Weight(c))
  }

  /** The mean of the valid cells; None when every cell failed or there are no opponents. */
  function Score(matrix: Matrix, t: Triple, s: nat): Option<real>
    requires Within(matrix, t) && s < SCENARIO_COUNT
  {
    var (sum, counted) := SumTo(matrix, t, s, |matrix[t.i]|);
    if counted == 0 then None else Some(sum as real / counted as real)
  }

  method ScoreTripleFromMatrix(matrix: Matrix, t: Triple, s: nat) returns (score: Option<real>)
    requires Within(matrix, t) && s < SCENARIO_COUNT
    ensures score == Score(matrix, t, s)
  {
    if |matrix| == 0 || |matrix[t.i]| == 0 {
      return None;
    }
    var sum, counted := 0, 0;
    var members := [t.i, t.j, t.k];
    for opp := 0 to |matrix[t.i]|
      invariant (sum, counted) == SumTo(matrix, t, s, opp)
    {
      ghost var sum0, counted0 := sum, counted;
      for m := 0 to 3
        invariant sum == sum0 + (if m > 0 then Points(matrix[t.i][opp][s]) else 0)
                       + (if m > 1 then Points(matrix[t.j][opp][s]) else 0)
                       + (if m > 2 then Points(matrix[t.k][opp][s]) else 0)
        invariant counted == counted0 + (if m > 0 then Weight(matrix[t.i][opp][s]) else 0)
                       + (if m > 1 then Weight(matrix[t.j][opp][s]) else 0)
                       + (if m > 2 then Weight(matrix[t.k][opp][s]) else 0)
      {
        var entry := matrix[members[m]][opp][s];
        if !entry.ok { continue; }
        sum := sum + entry.rating;
        counted := counted + 1;
      }
    }
    if counted == 0 {
      return None;
    }
    score := Some(sum as real / counted as real);
  }

  /** One member's own sum and number of valid cells. */
  function RowSum(row: Row, s: nat, o: nat): int
    requires s < SCENARIO_COUNT && o <= |row| && forall p :: 0 <= p < |row| ==> |row[p]| == SCENARIO_COUNT
  {
    if o == 0 then 0 else RowSum(row, s, o - 1) + Points(row[o - 1][s])
  }

  function RowCount(row: Row, s: nat, o: nat): nat
    requires s < SCENARIO_COUNT && o <= |row| && forall p :: 0 <= p < |row| ==> |row[p]| == SCENARIO_COUNT
  {
    if o == 0 then 0 else RowCount(row, s, o - 1) + Weight(row[o - 1][s])
  }

  /** The opponent-by-opponent double loop adds up what the three members collect on their own. */
  lemma {:induction false} ScoreByMembers(matrix: Matrix, t: Triple, s: nat, o: nat)
    requires Within(matrix, t) && s < SCENARIO_COUNT && o <= |matrix[t.i]|
    ensures SumTo(matrix, t, s, o) == (
              RowSum(matrix[t.i], s, o) + RowSum(matrix[t.j], s, o) + RowSum(matrix[t.k], s, o),
              RowCount(matrix[t.i], s, o) + RowCount(matrix[t.j], s, o) + RowCount(matrix[t.k], s, o))
  {
    if o > 0 { ScoreByMembers(matrix, t, s, o - 1); }
  }

  ghost predicate ValidCell(matrix: Matrix, t: Triple, s: nat, o: nat)
    requires Within(matrix, t) && s < SCENARIO_COUNT && o < |matrix[t.i]|
  {
    matrix[t.i][o][s].ok || matrix[t.j][o][s].ok || matrix[t.k][o][s].ok
  }

  ghost predicate RatingsIn(matrix: Matrix, t: Triple, s: nat, lo: int, hi: int)
    requires Within(matrix, t) && s < SCENARIO_COUNT
  {
    forall o :: 0 <= o < |matrix[t.i]| ==>
      && (matrix[t.i][o][s].ok ==> lo <= matrix[t.i][o][s].rating <= hi)
      && (matrix[t.j][o][s].ok ==> lo <= matrix[t.j][o][s].rating <= hi)
      && (matrix[t.k][o][s].ok ==> lo <= matrix[t.k][o][s].rating <= hi)
  }

  /** A score is missing exactly when every cell failed, and otherwise lies between the ratings that count. */
  lemma ScoreIsAMean(matrix: Matrix, t: Triple, s: nat, lo: int, hi: int)
    requires Within(matrix, t) && s < SCENARIO_COUNT && RatingsIn(matrix, t, s, lo, hi)
    ensures Score(matrix, t, s).Some? <==> exists o :: 0 <= o < |matrix[t.i]| && ValidCell(matrix, t, s, o)
    ensures Score(matrix, t, s).Some? ==> lo as real <= Score(matrix, t, s).value <= hi as real
  {
    SumBounds(matrix, t, s, lo, hi, |matrix[t.i]|);
    var (sum, counted) := SumTo(matrix, t, s, |matrix[t.i]|);
    if counted > 0 { QuotientBounds(sum, counted, lo, hi); }
  }

  lemma {:induction false} SumBounds(matrix: Matrix, t: Triple, s: nat, lo: int, hi: int, o: nat)
    requires Within(matrix, t) && s < SCENARIO_COUNT && RatingsIn(matrix, t, s, lo, hi) && o <= |matrix[t.i]|
    ensures var (sum, counted) := SumTo(matrix, t, s, o);
            && lo * counted <= sum <= hi * counted
            && (counted > 0 <==> exists p :: 0 <= p < o && ValidCell(matrix, t, s, p))
  {
    if o > 0 {
      SumBounds(matrix, t, s, lo, hi, o - 1);
      var a, b, c := matrix[t.i][o - 1][s], matrix[t.j][o - 1][s], matrix[t.k][o - 1][s];
      CellBounds(SumTo(matrix, t, s, o - 1), a, b, c, lo, hi);
      assert Weight(a) + Weight(b) + Weight(c) > 0 <==> ValidCell(matrix, t, s, o - 1);
    }
  }

  lemma CellBounds(acc: (int, nat), a: Cell, b: Cell, c: Cell, lo: int, hi: int)
    requires lo * acc.1 <= acc.0 <= hi * acc.1
    requires (a.ok ==> lo <= a.rating <= hi) && (b.ok ==> lo <= b.rating <= hi) && (c.ok ==> lo <= c.rating <= hi)
    ensures var counted := acc.1 + Weight(a) + Weight(b) + Weight(c);
            lo * counted <= acc.0 + Points(a) + Points(b) + Points(c) <= hi * counted
  {
    var weight := Weight(a) + Weight(b) + Weight(c);
    assert lo * (acc.1 + weight) == lo * acc.1 + lo * weight && hi * (acc.1 + weight) == hi * acc.1 + hi * weight;
    assert weight == 0 || weight == 1 || weight == 2 || weight == 3;
  }

  lemma QuotientBounds(sum: int, counted: nat, lo: int, hi: int)
    requires counted > 0 && lo * counted <= sum <= hi * counted
    ensures lo as real <= sum as real / counted as real <= hi as real
  {
    var c := counted as real;
    assert (lo * counted) as real == lo as real * c;
    assert (hi * counted) as real == hi as real * c;
    DivideBelow(sum as real, c, hi as real);
    DivideAbove(sum as real, c, lo as real);
  }

  /** The rating of member `i` against opponent `o`, 0 where the battle failed; and whether it did not. */
  ghost function Earned(matrix: Matrix, i: nat, o: nat, s: nat): int
    requires i < |matrix| && s < SCENARIO_COUNT
  {
    if o < |matrix[i]| && matrix[i][o][s].ok then matrix[i][o][s].rating else 0
  }

  ghost function Fought(matrix: Matrix, i: nat, o: nat, s: nat): int
    requires i < |matrix| && s < SCENARIO_COUNT
  {
    if o < |matrix[i]| && matrix[i][o][s].ok then 1 else 0
  }

  /** What the three members earn together against each opponent, and in how many battles. */
  ghost function EarnedBy(matrix: Matrix, t: Triple, s: nat): nat -> int
    requires Within(matrix, t) && s < SCENARIO_COUNT
  {
    (o: nat) => Earned(matrix, t.i, o, s) + Earned(matrix, t.j, o, s) + Earned(matrix, t.k, o, s)
  }

  ghost function FoughtBy(matrix: Matrix, t: Triple, s: nat): nat -> int
    requires Within(matrix, t) && s < SCENARIO_COUNT
  {
    (o: nat) => Fought(matrix, t.i, o, s) + Fought(matrix, t.j, o, s) + Fought(matrix, t.k, o, s)
  }

  lemma {:induction false} SumIsSigma(matrix: Matrix, t: Triple, s: nat, o: nat)
    requires Within(matrix, t) && s < SCENARIO_COUNT && o <= |matrix[t.i]|
    ensures SumTo(matrix, t, s, o).0 == Sigma(o, EarnedBy(matrix, t, s))
    ensures SumTo(matrix, t, s, o).1 == Sigma(o, FoughtBy(matrix, t, s))
  {
    if o > 0 { SumIsSigma(matrix, t, s, o - 1); }
  }

  /** The score is the exact quotient of the sum of all ratings that did not fail by their number, not rounded, and
      there is none when all failed. */
  lemma ScoreIsExact(matrix: Matrix, t: Triple, s: nat)
    requires Within(matrix, t) && s < SCENARIO_COUNT
    ensures var n := |matrix[0]|;
            var sum, count := Sigma(n, EarnedBy(matrix, t, s)), Sigma(n, FoughtBy(matrix, t, s));
            && count >= 0 && (Score(matrix, t, s).Some? <==> count > 0)
            && (count > 0 ==> Score(matrix, t, s).value * count as real == sum as real)
  {
    SumIsSigma(matrix, t, s, |matrix[t.i]|);
    var (sum, count) := SumTo(matrix, t, s, |matrix[t.i]|);
    if count > 0 { QuotientTimes(sum as real, count as real); }
  }

  /** The value of every triple on one scenario, None outside the matrix. */
  ghost function Scores(matrix: Matrix, s: nat): Triple -> Option<real>
    requires s < SCENARIO_COUNT
  {
    t => if Within(matrix, t) then Score(matrix, t, s) else None
  }

  // ---------------------------------------------------------------- enumeration

  ghost predicate InPool(pool: seq<string>, ts: set<Triple>) {
    forall t <- ts :: t.i < t.j < t.k < |pool|
  }

  /** `teams` lists, in lexicographic order and each once, exactly the triples of `done` that have a value. */
  ghost predicate Emitted(pool: seq<string>, value: Triple -> Option<real>, title: string, done: set<Triple>,
                          teams: seq<Team>)
    requires InPool(pool, done)
  {
    && (forall n :: 0 <= n < |teams| ==>
          var t := TripleOf(teams[n]);
          t in done && value(t).Some? && teams[n] == NewTeam(pool, t, value(t).value, title))
    && (forall t <- done :: value(t).Some? ==> NewTeam(pool, t, value(t).value, title) in teams)
    && (forall m, n :: 0 <= m < n < |teams| ==> Before(TripleOf(teams[m]), TripleOf(teams[n])))
  }

  lemma EmittedStep(pool: seq<string>, value: Triple -> Option<real>, title: string, done: set<Triple>,
                    teams: seq<Team>, t: Triple)
    requires InPool(pool, done + {t})
    requires Emitted(pool, value, title, done, teams)
    requires forall u <- done :: Before(u, t)
    ensures Emitted(pool, value, title, done + {t},
                    teams + (if value(t).Some? then [NewTeam(pool, t, value(t).value, title)] else []))
  {
    var more := teams + (if value(t).Some? then [NewTeam(pool, t, value(t).value, title)] else []);
    forall u | u in done + {t} && value(u).Some? ensures NewTeam(pool, u, value(u).value, title) in more {
      if u == t { assert more[|more| - 1] == NewTeam(pool, u, value(u).value, title); }
    }
  }

  /** The loops have dealt with the triples before the cursor. */
  ghost predicate Progress(pool: seq<string>, value: Triple -> Option<real>, required: set<string>, title: string,
                           cursor: Triple, done: set<Triple>, evaluated: nat, teams: seq<Team>)
  {
    && Visited(pool, required, cursor, done)
    && Emitted(pool, value, title, done, teams)
    && evaluated == |done|
  }

  method EnumerateTeams(pool: seq<string>, matrix: Matrix, required: set<string>, s: nat, title: string)
    returns (teams: seq<Team>, evaluated: nat)
    requires |matrix| == |pool| && s < SCENARIO_COUNT
    ensures Emitted(pool, Scores(matrix, s), title, Qualifying(pool, required), teams)
    ensures evaluated == |Qualifying(pool, required)|
  {
    teams, evaluated := [], 0;
    ghost var done: set<Triple> := {};
    for i := 0 to |pool|
      invariant Progress(pool, Scores(matrix, s), required, title, Triple(i, i + 1, i + 2), done, evaluated, teams)
    {
      teams, evaluated, done := EnumerateFromAnchor(pool, matrix, required, s, title, i, done, evaluated, teams);
    }
    VisitEnds(pool, required, Triple(|pool|, |pool| + 1, |pool| + 2), done);
  }

  method EnumerateFromAnchor(pool: seq<string>, matrix: Matrix, required: set<string>, s: nat, title: string,
                             i: nat, ghost done0: set<Triple>, evaluated0: nat, teams0: seq<Team>)
    returns (teams: seq<Team>, evaluated: nat, ghost done: set<Triple>)
    requires |matrix| == |pool| && s < SCENARIO_COUNT && i < |pool|
    requires Progress(pool, Scores(matrix, s), required, title, Triple(i, i + 1, i + 2), done0, evaluated0, teams0)
    ensures Progress(pool, Scores(matrix, s), required, title, Triple(i + 1, i + 2, i + 3), done, evaluated, teams)
  {
    teams, evaluated, done := teams0, evaluated0, done0;
    for j := i + 1 to |pool|
      invariant Progress(pool, Scores(matrix, s), required, title, Triple(i, j, j + 1), done, evaluated, teams)
    {
      for k := j + 1 to |pool|
        invariant Progress(pool, Scores(matrix, s), required, title, Triple(i, j, k), done, evaluated, teams)
      {
        teams, evaluated, done := Consider(pool, matrix, required, s, title, Triple(i, j, k), done, evaluated, teams);
      }
      Carry(pool, required, Triple(i, j, |pool|), done);
    }
    Carry(pool, required, Triple(i, |pool|, |pool| + 1), done);
  }

  /** The body of the innermost loop. */
  method Consider(pool: seq<string>, matrix: Matrix, required: set<string>, s: nat, title: string, t: Triple,
                  ghost done0: set<Triple>, evaluated0: nat, teams0: seq<Team>)
    returns (teams: seq<Team>, evaluated: nat, ghost done: set<Triple>)
    requires |matrix| == |pool| && s < SCENARIO_COUNT && t.i < t.j < t.k < |pool|
    requires Progress(pool, Scores(matrix, s), required, title, t, done0, evaluated0, teams0)
    ensures Progress(pool, Scores(matrix, s), required, title, t.(k := t.k + 1), done, evaluated, teams)
  {
    VisitStep(pool, required, t, done0);
    QualifiesMeans(pool, required, t);
    if !ContainsAll(Members(pool, t), required) {
      return teams0, evaluated0, done0;
    }
    done := done0 + {t};
    EmittedStep(pool, Scores(matrix, s), title, done0, teams0, t);
    var score := ScoreTripleFromMatrix(matrix, t, s);
    evaluated := evaluated0 + 1;
    if score.None? {
      return teams0, evaluated, done;
    }
    teams := teams0 + [NewTeam(pool, t, score.value, title)];
  }
}
