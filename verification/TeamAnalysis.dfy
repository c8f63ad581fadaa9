/** internal/tools/team_analysis.go and threat_coverage.go: one pass over team x meta x scenarios, the aggregates
    derived from it, and the second tool that re-simulates instead; without cancellation. */
module TeamAnalysis {
  import opened Wrappers
  import opened Arithmetic
  import opened RestrictedMoves
  import opened BattleRating
  import opened Sequences
  import opened Sorting

  const HARD_WIN_RATING := 750
  const HARD_LOSS_RATING := 250
  const UNCOVERED_THRESHOLD := 400
  const THREAT_COVERAGE_CANDIDATES := 3

  // ---------------------------------------------------------------- averaging over scenarios

  /** The ratings of one pair, one per scenario; None is a failed simulation. */
  type Row = seq<Option<int>>

  function SumOf(row: Row): int {
    if row == [] then 0 else SumOf(row[..|row| - 1]) + (if row[|row| - 1].Some? then row[|row| - 1].value else 0)
  }

  function CountOf(row: Row): nat {
    if row == [] then 0 else CountOf(row[..|row| - 1]) + (if row[|row| - 1].Some? then 1 else 0)
  }

  /** The scenarios that produced a rating. */
  ghost function Rated(row: Row): set<nat> {
    set k: nat | k < |row| && row[k].Some?
  }

  lemma {:induction false} CountIsRated(row: Row)
    ensures CountOf(row) == |Rated(row)|
  {
    if row != [] {
      var n := |row| - 1;
      CountIsRated(row[..n]);
      assert Rated(row) == Rated(row[..n]) + (if row[n].Some? then {n} else {});
    } else {
      assert Rated(row) == {};
    }
  }

  /** The sum is additive; one scenario contributes its rating, a failed one nothing. */
  lemma {:induction false} SumIsAdditive(a: Row, b: Row, cell: Option<int>)
    ensures SumOf(a + b) == SumOf(a) + SumOf(b)
    ensures SumOf([cell]) == (if cell.Some? then cell.value else 0)
  {
    assert [cell][..0] == [];
    if b == [] {
      assert a + b == a;
    } else {
      assert (a + b)[..|a + b| - 1] == a + b[..|b| - 1];
      SumIsAdditive(a, b[..|b| - 1], cell);
    }
  }

  /** The mean of the ratings there are, cut off; none without ratings. */
  ghost predicate IsMean(row: Row, mean: Option<int>) {
    if Rated(row) == {} then mean == None else mean.Some? && Truncates(SumOf(row), |Rated(row)|, mean.value)
  }

  /** The truncated mean of the ratings there are. */
  function Mean(row: Row): Option<int> {
    if CountOf(row) == 0 then None else Some(Quotient(SumOf(row), CountOf(row)))
  }

  lemma MeanIsExact(row: Row)
    ensures IsMean(row, Mean(row))
  {
    CountIsRated(row);
    if CountOf(row) > 0 { QuotientTruncates(SumOf(row), CountOf(row)); }
  }

  method AverageMatrixRow(row: Row) returns (mean: Option<int>)
    ensures mean == Mean(row) && IsMean(row, mean)
  {
    MeanIsExact(row);
    var sum, counted := 0, 0;
    for k := 0 to |row|
      invariant sum == SumOf(row[..k]) && counted == CountOf(row[..k])
    {
      assert row[..k + 1][..k] == row[..k];
      if row[k].None? { continue; }
      sum := sum + row[k].value;
      counted := counted + 1;
    }
    assert row[..|row|] == row;
    if counted == 0 { return None; }
    mean := Some(Quotient(sum, counted));
  }

  /** A pair fails exactly when all its scenarios fail. */
  lemma {:induction false} MeanExists(row: Row)
    ensures Mean(row).Some? <==> exists k :: 0 <= k < |row| && row[k].Some?
  {
    if row != [] { MeanExists(row[..|row| - 1]); }
  }

  lemma {:induction false} SumBelow(row: Row, hi: int)
    requires forall k :: 0 <= k < |row| && row[k].Some? ==> row[k].value <= hi
    ensures SumOf(row) <= hi * CountOf(row)
  {
    if row != [] {
      SumBelow(row[..|row| - 1], hi);
      Distribute(hi, CountOf(row[..|row| - 1]));
    }
  }

  lemma {:induction false} SumAbove(row: Row, lo: int)
    requires forall k :: 0 <= k < |row| && row[k].Some? ==> row[k].value >= lo
    ensures SumOf(row) >= lo * CountOf(row)
  {
    if row != [] {
      SumAbove(row[..|row| - 1], lo);
      Distribute(lo, CountOf(row[..|row| - 1]));
    }
  }

  /** A mean in 0..hi when the ratings are. */
  lemma MeanInRange(row: Row, hi: int)
    requires hi >= 0 && forall k :: 0 <= k < |row| && row[k].Some? ==> 0 <= row[k].value <= hi
    ensures Mean(row).Some? ==> 0 <= Mean(row).value <= hi
  {
    if Mean(row).Some? {
      SumBelow(row, hi);
      SumAbove(row, 0);
      QuotientBelow(SumOf(row), CountOf(row), hi);
      QuotientAbove(SumOf(row), CountOf(row), 0);
    }
  }

  /** The mean of ratings that are not negative lies between the smallest and the largest of them. */
  lemma MeanIsBetween(row: Row, lo: int, hi: int)
    requires lo >= 0 && forall k :: 0 <= k < |row| && row[k].Some? ==> lo <= row[k].value <= hi
    ensures Mean(row).Some? ==> lo <= Mean(row).value <= hi
  {
    if Mean(row).Some? {
      MeanExists(row);
      SumBelow(row, hi);
      SumAbove(row, lo);
      SumAbove(row, 0);
      QuotientBelow(SumOf(row), CountOf(row), hi);
      QuotientAbove(SumOf(row), CountOf(row), lo);
    }
  }

  /** A positive mean is reached in some scenario. */
  lemma MeanIsReached(row: Row) returns (k: nat)
    requires Mean(row).Some? && Mean(row).value > 0
    ensures k < |row| && row[k].Some? && row[k].value >= Mean(row).value
  {
    var m := Mean(row).value;
    if j :| 0 <= j < |row| && row[j].Some? && row[j].value >= m {
      k := j;
    } else {
      SumBelow(row, m - 1);
      QuotientBelow(SumOf(row), CountOf(row), m - 1);
      assert false;
    }
  }

  // ---------------------------------------------------------------- one pass over all simulations

  type RatingTable = seq<seq<Row>>

  function RowOf(arena: Arena, member: Fighter, opponent: Fighter, scenarios: seq<int>): Row {
    seq(|scenarios|, k requires 0 <= k < |scenarios| => RatingFor(arena, member, opponent, scenarios[k]))
  }

  function MemberRows(arena: Arena, member: Fighter, meta: seq<Fighter>, scenarios: seq<int>): seq<Row> {
    seq(|meta|, j requires 0 <= j < |meta| => RowOf(arena, member, meta[j], scenarios))
  }

  function TableOf(arena: Arena, team: seq<Fighter>, meta: seq<Fighter>, scenarios: seq<int>): RatingTable {
    seq(|team|, i requires 0 <= i < |team| => MemberRows(arena, team[i], meta, scenarios))
  }

  method SimulateTeamMatrix(arena: Arena, team: seq<Fighter>, meta: seq<Fighter>, scenarios: seq<int>)
        returns (matrix: RatingTable)
    ensures matrix == TableOf(arena, team, meta, scenarios)
    ensures |matrix| == |team| && forall i, j, k :: 0 <= i < |team| && 0 <= j < |meta| && 0 <= k < |scenarios| ==>
              && |matrix[i]| == |meta| && |matrix[i][j]| == |scenarios|
              && matrix[i][j][k] == RatingFor(arena, team[i], meta[j], scenarios[k])
  {
    var blank: Row := seq(|scenarios|, _ => None);
    matrix := seq(|team|, _ => seq(|meta|, _ => blank));
    for i := 0 to |team|
      invariant |matrix| == |team|
      invariant forall l :: 0 <= l < |team| ==>
        matrix[l] == if l < i then MemberRows(arena, team[l], meta, scenarios) else seq(|meta|, _ => blank)
    {
      var rows := SimulateMember(arena, team[i], meta, scenarios, matrix[i]);
      matrix := matrix[i := rows];
    }
  }

  /** The two inner loops: every cell of one member is written once, a failed one keeps its zero value. */
  method SimulateMember(arena: Arena, member: Fighter, meta: seq<Fighter>, scenarios: seq<int>, rows0: seq<Row>)
        returns (rows: seq<Row>)
    requires |rows0| == |meta|
    requires forall j :: 0 <= j < |rows0| ==> |rows0[j]| == |scenarios| && forall k :: 0 <= k < |scenarios| ==>
               rows0[j][k] == None
    ensures rows == MemberRows(arena, member, meta, scenarios)
  {
    rows := rows0;
    for j := 0 to |meta|
      invariant |rows| == |meta|
      invariant forall l :: 0 <= l < |meta| ==>
                  rows[l] == if l < j then RowOf(arena, member, meta[l], scenarios) else rows0[l]
    {
      var row := rows[j];
      for k := 0 to |scenarios|
        invariant |row| == |scenarios|
        invariant forall l :: 0 <= l < |scenarios| ==>
          row[l] == if l < k then RatingFor(arena, member, meta[j], scenarios[l]) else None
      {
        var rating := RatingFor(arena, member, meta[j], scenarios[k]);
        if rating.None? { continue; }
        row := row[k := rating];
      }
      assert row == RowOf(arena, member, meta[j], scenarios);
      rows := rows[j := row];
    }
  }

  // ---------------------------------------------------------------- views on the table

  /** A rating lookup by member and opponent. */
  type View = (nat, nat) -> Option<int>

  function OverallView(table: RatingTable): View {
    (i: nat, j: nat) => if i < |table| && j < |table[i]| then Mean(table[i][j]) else None
  }

  function ScenarioView(table: RatingTable, k: nat): View {
    (i: nat, j: nat) => if i < |table| && j < |table[i]| && k < |table[i][j]| then table[i][j][k] else None
  }

  /** A scenario's view shows the ratings of that scenario, the overall view their means over all scenarios. */
  lemma ViewsAreExact(arena: Arena, team: seq<Fighter>, meta: seq<Fighter>, scenarios: seq<int>, i: nat, j: nat)
    requires i < |team| && j < |meta|
    ensures var table := TableOf(arena, team, meta, scenarios);
            && (forall k: nat :: k < |scenarios| ==>
                  ScenarioView(table, k)(i, j) == RatingFor(arena, team[i], meta[j], scenarios[k]))
            && IsMean(seq(|scenarios|, k requires 0 <= k < |scenarios| =>
                            RatingFor(arena, team[i], meta[j], scenarios[k])), OverallView(table)(i, j))
  {
    var row := RowOf(arena, team[i], meta[j], scenarios);
    MeanIsExact(row);
  }

  // ---------------------------------------------------------------- coverage

  /** A Go map read: a missing key reads as zero. */
  function Read(m: map<string, int>, id: string): int {
    if id in m then m[id] else 0
  }

  function Raise(m: map<string, int>, id: string, rating: Option<int>): map<string, int> {
    if rating.Some? && rating.value > Read(m, id) then m[id := rating.value] else m
  }

  /** The coverage map after the pairs before (i, j) in the order of the loops. */
  function CoverTo(view: View, ids: seq<string>, i: nat, j: nat): map<string, int>
    requires j <= |ids|
    decreases i, j
  {
    if j > 0 then Raise(CoverTo(view, ids, i, j - 1), ids[j - 1], view(i, j - 1))
    else if i > 0 then CoverTo(view, ids, i - 1, |ids|)
    else map[]
  }

  ghost predicate VisitedPair(ids: seq<string>, i: nat, j: nat, a: nat, b: nat) {
    b < |ids| && (a < i || (a == i && b < j))
  }

  /** Coverage of a species is the largest of its valid ratings, and zero when none is positive. */
  lemma {:induction false} CoverageIsMaximum(view: View, ids: seq<string>, i: nat, j: nat, id: string)
    requires j <= |ids|
    ensures var m := CoverTo(view, ids, i, j);
            && (id in m <==> Read(m, id) > 0) && Read(m, id) >= 0
            && (forall a: nat, b: nat :: VisitedPair(ids, i, j, a, b) && ids[b] == id && view(a, b).Some? ==>
                  view(a, b).value <= Read(m, id))
            && (Read(m, id) > 0 ==>
                  exists a: nat, b: nat :: VisitedPair(ids, i, j, a, b) && ids[b] == id &&
                      view(a, b) == Some(Read(m, id)))
    decreases i, j
  {
    if j > 0 {
      CoverageIsMaximum(view, ids, i, j - 1, id);
      var m, before := CoverTo(view, ids, i, j), CoverTo(view, ids, i, j - 1);
      if Read(m, id) > 0 {
        if Read(m, id) == Read(before, id) {
          var a: nat, b: nat :| VisitedPair(ids, i, j - 1, a, b) && ids[b] == id && view(a, b) == Some(Read(m, id));
          assert VisitedPair(ids, i, j, a, b);
        } else {
          assert VisitedPair(ids, i, j, i, j - 1);
        }
      }
      forall a: nat, b: nat | VisitedPair(ids, i, j, a, b) && ids[b] == id && view(a, b).Some?
        ensures view(a, b).value <= Read(m, id)
      {
        assert (a == i && b == j - 1) || VisitedPair(ids, i, j - 1, a, b);
      }
    } else if i > 0 {
      CoverageIsMaximum(view, ids, i - 1, |ids|, id);
      forall a: nat, b: nat ensures VisitedPair(ids, i, 0, a, b) <==> VisitedPair(ids, i - 1, |ids|, a, b) {
      }
    }
  }

  /** Meta species whose best rating stays below the threshold, in meta order. */
  function Uncovered(coverage: map<string, int>, ids: seq<string>): seq<string> {
    if ids == [] then []
    else
      var n := |ids| - 1;
      Uncovered(coverage, ids[..n]) + (if Read(coverage, ids[n]) < UNCOVERED_THRESHOLD then [ids[n]] else [])
  }

  method FindUncoveredThreats(coverage: map<string, int>, ids: seq<string>) returns (out: seq<string>)
    ensures out == Uncovered(coverage, ids)
  {
    out := [];
    for i := 0 to |ids|
      invariant out == Uncovered(coverage, ids[..i])
    {
      assert ids[..i + 1][..i] == ids[..i];
      if Read(coverage, ids[i]) < UNCOVERED_THRESHOLD {
        out := out + [ids[i]];
      }
    }
    assert ids[..|ids|] == ids;
  }

  // ---------------------------------------------------------------- one member

  datatype Tally = Tally(
    wins: nat, losses: nat, ties: nat, hardWins: seq<string>, hardLosses: seq<string>, sum: int, failures: nat)

  function Tallied(t: Tally, opponent: string, rating: int): Tally {
    Tally(
      t.wins + (if rating > RATING_MIDPOINT then 1 else 0),
      t.losses + (if rating < RATING_MIDPOINT then 1 else 0),
      t.ties + (if rating == RATING_MIDPOINT then 1 else 0),
      t.hardWins + (if rating > HARD_WIN_RATING then [opponent] else []),
      t.hardLosses + (if rating < HARD_LOSS_RATING then [opponent] else []),
      t.sum + rating,
      t.failures)
  }

  /** The tally of member `i` after the first `j` opponents. */
  function TallyTo(view: View, ids: seq<string>, i: nat, j: nat): Tally
    requires j <= |ids|
  {
    if j == 0 then Tally(0, 0, 0, [], [], 0, 0)
    else
      var before := TallyTo(view, ids, i, j - 1);
      match view(i, j - 1)
      case None => before.(failures := before.failures + 1)
      case Some(rating) => Tallied(before, ids[j - 1], rating)
  }

  datatype Member = Member(tally: Tally, avgRating: real)

  function Average(sum: int, successful: int): real {
    if successful > 0 then sum as real / successful as real else 0.0
  }

  function MemberOf(view: View, ids: seq<string>, i: nat): Member {
    var tally := TallyTo(view, ids, i, |ids|);
    Member(tally, Average(tally.sum, |ids| - tally.failures))
  }

  method TallyMatchup(t: Tally, opponent: string, rating: int) returns (r: Tally)
    ensures r == Tallied(t, opponent, rating).(sum := t.sum)
  {
    r := t;
    if rating > HARD_WIN_RATING {
      r := r.(hardWins := r.hardWins + [opponent]);
    } else if rating < HARD_LOSS_RATING {
      r := r.(hardLosses := r.hardLosses + [opponent]);
    }
    if rating > RATING_MIDPOINT {
      r := r.(wins := r.wins + 1);
    } else if rating < RATING_MIDPOINT {
      r := r.(losses := r.losses + 1);
    } else {
      r := r.(ties := r.ties + 1);
    }
  }

  method AggregateOneMember(view: View, ids: seq<string>, i: nat, coverage0: map<string, int>)
        returns (member: Member, coverage: map<string, int>)
    requires coverage0 == CoverTo(view, ids, i, 0)
    ensures member == MemberOf(view, ids, i)
    ensures coverage == CoverTo(view, ids, i + 1, 0)
  {
    coverage := coverage0;
    var tally := Tally(0, 0, 0, [], [], 0, 0);
    for j := 0 to |ids|
      invariant coverage == CoverTo(view, ids, i, j) && tally == TallyTo(view, ids, i, j)
    {
      var rating := view(i, j);
      if rating.None? {
        tally := tally.(failures := tally.failures + 1);
        continue;
      }
      tally := tally.(sum := tally.sum + rating.value);
      tally := TallyMatchup(tally, ids[j], rating.value);
      if rating.value > Read(coverage, ids[j]) {
        coverage := coverage[ids[j] := rating.value];
      }
    }
    var average := 0.0;
    var successful := |ids| - tally.failures;
    if successful > 0 {
      average := tally.sum as real / successful as real;
    }
    member := Member(tally, average);
  }

  // ---------------------------------------------------------------- the team

  datatype Aggregate = Aggregate(
    teamScore: real, failures: nat, perMember: seq<Member>, coverage: map<string, int>, uncovered: seq<string>)

  function TotalSum(view: View, ids: seq<string>, n: nat): int {
    if n == 0 then 0 else TotalSum(view, ids, n - 1) + TallyTo(view, ids, n - 1, |ids|).sum
  }

  function TotalFailures(view: View, ids: seq<string>, n: nat): nat {
    if n == 0 then 0 else TotalFailures(view, ids, n - 1) + TallyTo(view, ids, n - 1, |ids|).failures
  }

  /** Pairs that produced a rating. */
  function Successful(view: View, ids: seq<string>, members: nat): int {
    members * |ids| - TotalFailures(view, ids, members)
  }

  function AggregateOf(view: View, ids: seq<string>, members: nat): Aggregate {
    var coverage, failures := CoverTo(view, ids, members, 0), TotalFailures(view, ids, members);
    Aggregate(
      Average(TotalSum(view, ids, members), Successful(view, ids, members)),
      failures,
      seq(members, i requires 0 <= i => MemberOf(view, ids, i)),
      coverage,
      Uncovered(coverage, ids))
  }

  method AggregateFromRatings(view: View, ids: seq<string>, members: nat) returns (a: Aggregate)
    ensures a == AggregateOf(view, ids, members)
  {
    var perMember, coverage, sum, failures := [], map[], 0, 0;
    for i := 0 to members
      invariant |perMember| == i && forall l :: 0 <= l < i ==> perMember[l] == MemberOf(view, ids, l)
      invariant coverage == CoverTo(view, ids, i, 0)
      invariant sum == TotalSum(view, ids, i) && failures == TotalFailures(view, ids, i)
    {
      var member;
      member, coverage := AggregateOneMember(view, ids, i, coverage);
      perMember := perMember + [member];
      sum := sum + member.tally.sum;
      failures := failures + member.tally.failures;
    }
    var successful := members * |ids| - failures;
    var score := 0.0;
    if successful > 0 {
      score := sum as real / successful as real;
    }
    var uncovered := FindUncoveredThreats(coverage, ids);
    a := Aggregate(score, failures, perMember, coverage, uncovered);
  }

  // ---------------------------------------------------------------- conservation

  lemma {:induction false} TallyConserves(view: View, ids: seq<string>, i: nat, j: nat)
    requires j <= |ids|
    ensures var t := TallyTo(view, ids, i, j);
            && t.wins + t.losses + t.ties + t.failures == j
            && |t.hardWins| <= t.wins && |t.hardLosses| <= t.losses
  {
    if j > 0 { TallyConserves(view, ids, i, j - 1); }
  }

  datatype Class = Win | Loss | Tie | HardWin | HardLoss

  predicate InClass(c: Class, rating: int) {
    match c
    case Win => rating > 500
    case Loss => rating < 500
    case Tie => rating == 500
    case HardWin => rating > 750
    case HardLoss => rating < 250
  }

  function Counter(t: Tally, c: Class): nat {
    match c
    case Win => t.wins
    case Loss => t.losses
    case Tie => t.ties
    case HardWin => |t.hardWins|
    case HardLoss => |t.hardLosses|
  }

  predicate Falls(view: View, i: nat, j: nat, c: Class) {
    view(i, j).Some? && InClass(c, view(i, j).value)
  }

  /** Those of the first `j` opponents whose rating falls into the class. */
  ghost function Opponents(view: View, i: nat, j: nat, c: Class): (opponents: set<nat>)
    ensures forall b: nat :: b in opponents <==> b < j && Falls(view, i, b, c)
  {
    if j == 0 then {}
    else Opponents(view, i, j - 1, c) + (if Falls(view, i, j - 1, c) then {j - 1} else {})
  }

  lemma CounterStep(view: View, ids: seq<string>, i: nat, j: nat, c: Class)
    requires 0 < j <= |ids|
    ensures Counter(TallyTo(view, ids, i, j), c) ==
            Counter(TallyTo(view, ids, i, j - 1), c) + (if Falls(view, i, j - 1, c) then 1 else 0)
  {
  }

  lemma OpponentsStep(view: View, i: nat, j: nat, c: Class)
    requires 0 < j
    ensures |Opponents(view, i, j, c)| == |Opponents(view, i, j - 1, c)| + (if Falls(view, i, j - 1, c) then 1 else 0)
  {
    assert j - 1 !in Opponents(view, i, j - 1, c);
  }

  /** Each counter, and the length of each hard list, is the number of opponents in its class of ratings. */
  lemma {:induction false} TallyCounts(view: View, ids: seq<string>, i: nat, j: nat, c: Class)
    requires j <= |ids|
    ensures Counter(TallyTo(view, ids, i, j), c) == |Opponents(view, i, j, c)|
  {
    if j > 0 {
      TallyCounts(view, ids, i, j - 1, c);
      CounterStep(view, ids, i, j, c);
      OpponentsStep(view, i, j, c);
    }
  }

  /** The ratings of member `i` against the first `j` opponents. */
  ghost function Line(view: View, i: nat, j: nat): Row {
    seq(j, b requires 0 <= b < j => view(i, b))
  }

  /** The ratings of a member are added up, the failures are the opponents without one, and the average is the quotient
      of both, or 0 when every opponent failed. */
  lemma MemberIsExact(view: View, ids: seq<string>, i: nat)
    ensures var m, line := MemberOf(view, ids, i), Line(view, i, |ids|);
            && m.tally.sum == SumOf(line) && m.tally.failures == |ids| - |Rated(line)|
            && (if Rated(line) == {} then m.avgRating == 0.0
                else m.avgRating * |Rated(line)| as real == SumOf(line) as real)
  {
    TallySums(view, ids, i, |ids|);
    CountIsRated(Line(view, i, |ids|));
    MemberScore(view, ids, i);
  }

  lemma {:induction false} TallySums(view: View, ids: seq<string>, i: nat, j: nat)
    requires j <= |ids|
    ensures var t, line := TallyTo(view, ids, i, j), Line(view, i, j);
            t.sum == SumOf(line) && t.failures == j - CountOf(line)
  {
    if j > 0 {
      TallySums(view, ids, i, j - 1);
      assert Line(view, i, j)[..j - 1] == Line(view, i, j - 1);
    }
  }

  ghost predicate Increasing(at: seq<nat>) {
    forall x, y :: 0 <= x < y < |at| ==> at[x] < at[y]
  }

  lemma IncreasingAppend(at: seq<nat>, j: nat)
    requires Increasing(at) && forall l <- at :: l < j
    ensures Increasing(at + [j])
  {
    forall x, y | 0 <= x < y < |at| + 1 ensures (at + [j])[x] < (at + [j])[y] {
      if y == |at| { assert at[x] in at; }
    }
  }

  /** The list names, in meta order, exactly the first `j` opponents whose rating falls into the class. */
  ghost predicate ListsClass(view: View, ids: seq<string>, i: nat, j: nat, c: Class, list: seq<string>, at: seq<nat>)
    requires j <= |ids|
  {
    && |list| == |at| && Increasing(at) && (forall b: nat :: b in at <==> b < j && Falls(view, i, b, c))
    && forall m :: 0 <= m < |at| ==> at[m] < j && list[m] == ids[at[m]]
  }

  function HardList(t: Tally, wins: bool): seq<string> {
    if wins then t.hardWins else t.hardLosses
  }

  lemma {:induction false} HardListsAreExact(view: View, ids: seq<string>, i: nat, j: nat, wins: bool)
      returns (at: seq<nat>)
    requires j <= |ids|
    ensures var t := TallyTo(view, ids, i, j);
            ListsClass(view, ids, i, j, if wins then HardWin else HardLoss, HardList(t, wins), at)
  {
    at := [];
    if j > 0 {
      var c := if wins then HardWin else HardLoss;
      at := HardListsAreExact(view, ids, i, j - 1, wins);
      ListGrows(view, ids, i, j, c, HardList(TallyTo(view, ids, i, j - 1), wins), at);
      if Falls(view, i, j - 1, c) { at := at + [j - 1]; }
    }
  }

  lemma ListGrows(view: View, ids: seq<string>, i: nat, j: nat, c: Class, list: seq<string>, at: seq<nat>)
    requires 0 < j <= |ids| && ListsClass(view, ids, i, j - 1, c, list, at)
    ensures if Falls(view, i, j - 1, c) then ListsClass(view, ids, i, j, c, list + [ids[j - 1]], at + [j - 1])
            else ListsClass(view, ids, i, j, c, list, at)
  {
    if Falls(view, i, j - 1, c) {
      var more := at + [j - 1];
      IncreasingAppend(at, j - 1);
      assert forall b: nat :: b in more <==> b in at || b == j - 1;
    }
  }

  /** An average times the number of samples behind it. */
  function Spread(average: real, successful: int): real {
    average * successful as real
  }

  /** Sum over the members of average rating times successful pairs. */
  function WeightedAverages(perMember: seq<Member>, opponents: nat): real {
    if perMember == [] then 0.0
    else
      var last := perMember[|perMember| - 1];
      WeightedAverages(perMember[..|perMember| - 1], opponents) +
          Spread(last.avgRating, opponents - last.tally.failures)
  }

  function SumOfFailures(perMember: seq<Member>): nat {
    if perMember == [] then 0
    else SumOfFailures(perMember[..|perMember| - 1]) + perMember[|perMember| - 1].tally.failures
  }

  /** Every matchup is counted once: per member the outcomes add up to the meta, and the failures of the members
      are those of the team. */
  lemma AggregateConserves(view: View, ids: seq<string>, members: nat)
    ensures var a := AggregateOf(view, ids, members);
            && |a.perMember| == members
            && (forall i :: 0 <= i < members ==> var t := a.perMember[i].tally;
                  t.wins + t.losses + t.ties + t.failures == |ids|)
            && a.failures == SumOfFailures(a.perMember)
  {
    var a := AggregateOf(view, ids, members);
    forall i | 0 <= i < members
      ensures var t := a.perMember[i].tally; t.wins + t.losses + t.ties + t.failures == |ids|
    {
      TallyConserves(view, ids, i, |ids|);
    }
    FailuresAddUp(view, ids, a.perMember, members);
  }

  /** The team score spread over the successful pairs is what the members scored together on theirs. */
  lemma TeamScoreIsWeighted(view: View, ids: seq<string>, members: nat)
    ensures var a := AggregateOf(view, ids, members);
            && Successful(view, ids, members) >= 0
            && Spread(a.teamScore, Successful(view, ids, members)) == WeightedAverages(a.perMember, |ids|)
  {
    FailuresBounded(view, ids, members);
    TeamScoreTimesCount(view, ids, members);
    RatingsAddUp(view, ids, AggregateOf(view, ids, members).perMember, members);
  }

  lemma TeamScoreTimesCount(view: View, ids: seq<string>, members: nat)
    requires Successful(view, ids, members) >= 0
    requires Successful(view, ids, members) == 0 ==> TotalSum(view, ids, members) == 0
    ensures Spread(AggregateOf(view, ids, members).teamScore, Successful(view, ids, members)) ==
              TotalSum(view, ids, members) as real
  {
    AverageTimesCount(TotalSum(view, ids, members), Successful(view, ids, members));
  }

  lemma AverageTimesCount(sum: int, successful: int)
    requires successful >= 0 && (successful == 0 ==> sum == 0)
    ensures Spread(Average(sum, successful), successful) == sum as real
  {
  }

  lemma {:induction false} NothingCountedNothingSummed(view: View, ids: seq<string>, i: nat, j: nat)
    requires j <= |ids|
    ensures TallyTo(view, ids, i, j).failures <= j
    ensures TallyTo(view, ids, i, j).failures == j ==> TallyTo(view, ids, i, j).sum == 0
  {
    if j > 0 { NothingCountedNothingSummed(view, ids, i, j - 1); }
  }

  lemma {:induction false} FailuresAddUp(view: View, ids: seq<string>, perMember: seq<Member>, n: nat)
    requires |perMember| == n && forall i :: 0 <= i < n ==> perMember[i] == MemberOf(view, ids, i)
    ensures SumOfFailures(perMember) == TotalFailures(view, ids, n)
  {
    if n > 0 { FailuresAddUp(view, ids, perMember[..n - 1], n - 1); }
  }

  lemma MemberScore(view: View, ids: seq<string>, i: nat)
    ensures var m := MemberOf(view, ids, i); Spread(m.avgRating, |ids| - m.tally.failures) == m.tally.sum as real
  {
    NothingCountedNothingSummed(view, ids, i, |ids|);
    var t := TallyTo(view, ids, i, |ids|);
    AverageTimesCount(t.sum, |ids| - t.failures);
  }

  lemma {:induction false} RatingsAddUp(view: View, ids: seq<string>, perMember: seq<Member>, n: nat)
    requires |perMember| == n && forall i :: 0 <= i < n ==> perMember[i] == MemberOf(view, ids, i)
    ensures WeightedAverages(perMember, |ids|) == TotalSum(view, ids, n) as real
  {
    if n > 0 {
      RatingsAddUp(view, ids, perMember[..n - 1], n - 1);
      MemberScore(view, ids, n - 1);
    }
  }

  lemma {:induction false} FailuresBounded(view: View, ids: seq<string>, n: nat)
    ensures TotalFailures(view, ids, n) <= n * |ids|
    ensures TotalFailures(view, ids, n) == n * |ids| ==> TotalSum(view, ids, n) == 0
  {
    if n > 0 {
      FailuresBounded(view, ids, n - 1);
      NothingCountedNothingSummed(view, ids, n - 1, |ids|);
      Distribute(|ids|, n - 1);
    }
  }

  // ---------------------------------------------------------------- range

  ghost predicate InRange(view: View, lo: int, hi: int) {
    forall i: nat, j: nat :: view(i, j).Some? ==> lo <= view(i, j).value <= hi
  }

  lemma {:induction false} TallyBounds(view: View, ids: seq<string>, i: nat, j: nat, lo: int, hi: int)
    requires j <= |ids| && InRange(view, lo, hi)
    ensures var t := TallyTo(view, ids, i, j); lo * (j - t.failures) <= t.sum <= hi * (j - t.failures)
  {
    if j > 0 {
      TallyBounds(view, ids, i, j - 1, lo, hi);
      var counted := j - 1 - TallyTo(view, ids, i, j - 1).failures;
      Distribute(lo, counted);
      Distribute(hi, counted);
    }
  }

  lemma {:induction false} TotalBounds(view: View, ids: seq<string>, n: nat, lo: int, hi: int)
    requires InRange(view, lo, hi)
    ensures lo * Successful(view, ids, n) <= TotalSum(view, ids, n) <= hi * Successful(view, ids, n)
  {
    if n > 0 {
      TotalBounds(view, ids, n - 1, lo, hi);
      TallyBounds(view, ids, n - 1, |ids|, lo, hi);
      var more := |ids| - TallyTo(view, ids, n - 1, |ids|).failures;
      SuccessfulStep(view, ids, n);
      AddProducts(lo, Successful(view, ids, n - 1), more);
      AddProducts(hi, Successful(view, ids, n - 1), more);
    }
  }

  lemma SuccessfulStep(view: View, ids: seq<string>, n: nat)
    requires n > 0
    ensures Successful(view, ids, n) == Successful(view, ids, n - 1) +
              (|ids| - TallyTo(view, ids, n - 1, |ids|).failures)
  {
    Distribute(|ids|, n - 1);
  }

  lemma AverageBounds(sum: int, successful: int, lo: int, hi: int)
    requires lo * successful <= sum <= hi * successful && lo <= 0 <= hi
    ensures lo as real <= Average(sum, successful) <= hi as real
  {
    if successful > 0 {
      var c := successful as real;
      assert (lo * successful) as real == lo as real * c && (hi * successful) as real == hi as real * c;
      DivideBelow(sum as real, c, hi as real);
      DivideAbove(sum as real, c, lo as real);
    }
  }

  lemma ScoresInRange(view: View, ids: seq<string>, members: nat, hi: int)
    requires hi >= 0 && InRange(view, 0, hi)
    ensures var a := AggregateOf(view, ids, members);
            && 0.0 <= a.teamScore <= hi as real
            && forall i :: 0 <= i < members ==> 0.0 <= a.perMember[i].avgRating <= hi as real
  {
    TotalBounds(view, ids, members, 0, hi);
    AverageBounds(TotalSum(view, ids, members), Successful(view, ids, members), 0, hi);
    forall i | 0 <= i < members ensures 0.0 <= MemberOf(view, ids, i).avgRating <= hi as real {
      TallyBounds(view, ids, i, |ids|, 0, hi);
      AverageBounds(TallyTo(view, ids, i, |ids|).sum, |ids| - TallyTo(view, ids, i, |ids|).failures, 0, hi);
    }
  }

  /** With a sound simulator every score and every average lies in 0..1000, overall and per scenario. */
  lemma AnalysisInRange(arena: Arena, team: seq<Fighter>, meta: seq<Fighter>, ids: seq<string>, scenarios: seq<int>,
                        k: nat)
    requires Sound(arena)
    ensures var table := TableOf(arena, team, meta, scenarios);
            var overall, single := AggregateOf(OverallView(table), ids, |team|),
                AggregateOf(ScenarioView(table, k), ids, |team|);
            && 0.0 <= overall.teamScore <= 1000.0 && 0.0 <= single.teamScore <= 1000.0
            && (forall i :: 0 <= i < |team| ==> 0.0 <= overall.perMember[i].avgRating <= 1000.0)
            && (forall i :: 0 <= i < |team| ==> 0.0 <= single.perMember[i].avgRating <= 1000.0)
  {
    var table := TableOf(arena, team, meta, scenarios);
    forall i: nat, j: nat | OverallView(table)(i, j).Some? ensures 0 <= OverallView(table)(i, j).value <= 1000 {
      RowInRange(arena, team[i], meta[j], scenarios);
      MeanInRange(table[i][j], 1000);
    }
    forall i: nat, j: nat | ScenarioView(table, k)(i, j).Some? ensures 0 <= ScenarioView(table, k)(i, j).value <= 1000 {
      RowInRange(arena, team[i], meta[j], scenarios);
    }
    ScoresInRange(OverallView(table), ids, |team|, 1000);
    ScoresInRange(ScenarioView(table, k), ids, |team|, 1000);
  }

  lemma RowInRange(arena: Arena, member: Fighter, opponent: Fighter, scenarios: seq<int>)
    requires Sound(arena)
    ensures var row := RowOf(arena, member, opponent, scenarios);
            forall k :: 0 <= k < |row| && row[k].Some? ==> 0 <= row[k].value <= 1000
  {
    forall k | 0 <= k < |scenarios|
      ensures var r := RatingFor(arena, member, opponent, scenarios[k]); r.Some? ==> 0 <= r.value <= 1000
    {
      RatingsInRange(arena, member, opponent, scenarios[k]);
    }
  }

  // ---------------------------------------------------------------- overall against the single scenarios

  /** Averaging hides nothing: the overall coverage of a species is reached in some single scenario. */
  lemma OverallCoverageIsReached(table: RatingTable, ids: seq<string>, scenarios: nat, id: string) returns (k: nat)
    requires scenarios > 0
    requires forall i, j :: 0 <= i < |table| && 0 <= j < |table[i]| ==> |table[i][j]| == scenarios
    ensures k < scenarios
    ensures Read(CoverTo(OverallView(table), ids, |table|, 0), id) <=
              Read(CoverTo(ScenarioView(table, k), ids, |table|, 0), id)
  {
    var overall := OverallView(table);
    CoverageIsMaximum(overall, ids, |table|, 0, id);
    var r := Read(CoverTo(overall, ids, |table|, 0), id);
    k := 0;
    if r > 0 {
      var a: nat, b: nat :| VisitedPair(ids, |table|, 0, a, b) && ids[b] == id && overall(a, b) == Some(r);
      k := MeanIsReached(table[a][b]);
      assert ScenarioView(table, k)(a, b) == table[a][b][k];
    }
    CoverageIsMaximum(ScenarioView(table, k), ids, |table|, 0, id);
  }

  /** So a species that no single scenario covers is not covered overall. */
  lemma UncoveredEverywhereIsUncoveredOverall(table: RatingTable, ids: seq<string>, scenarios: nat, id: string)
    requires scenarios > 0
    requires forall i, j :: 0 <= i < |table| && 0 <= j < |table[i]| ==> |table[i][j]| == scenarios
    requires forall k: nat :: k < scenarios ==> id in Uncovered(CoverTo(ScenarioView(table, k), ids, |table|, 0), ids)
    ensures id in Uncovered(CoverTo(OverallView(table), ids, |table|, 0), ids)
  {
    var k := OverallCoverageIsReached(table, ids, scenarios, id);
    UncoveredMeans(CoverTo(ScenarioView(table, k), ids, |table|, 0), ids, id);
    UncoveredMeans(CoverTo(OverallView(table), ids, |table|, 0), ids, id);
  }

  lemma {:induction false} UncoveredMeans(coverage: map<string, int>, ids: seq<string>, id: string)
    ensures id in Uncovered(coverage, ids) <==> id in ids && Read(coverage, id) < 400
  {
    if ids != [] {
      UncoveredMeans(coverage, ids[..|ids| - 1], id);
      assert id in ids <==> id in ids[..|ids| - 1] || id == ids[|ids| - 1];
    }
  }

  /** A pair counts as failed overall only when it fails in every scenario. */
  lemma {:induction false} OverallFailsLeast(table: RatingTable, ids: seq<string>, k: nat, members: nat)
    ensures TotalFailures(OverallView(table), ids, members) <= TotalFailures(ScenarioView(table, k), ids, members)
  {
    if members > 0 {
      OverallFailsLeast(table, ids, k, members - 1);
      MemberFailsLeast(table, ids, k, members - 1, |ids|);
    }
  }

  lemma {:induction false} MemberFailsLeast(table: RatingTable, ids: seq<string>, k: nat, i: nat, j: nat)
    requires j <= |ids|
    ensures TallyTo(OverallView(table), ids, i, j).failures <= TallyTo(ScenarioView(table, k), ids, i, j).failures
  {
    if j > 0 {
      MemberFailsLeast(table, ids, k, i, j - 1);
      if i < |table| && j - 1 < |table[i]| { MeanExists(table[i][j - 1]); }
    }
  }

  // ---------------------------------------------------------------- both tools

  /** runTeamAnalysis; the per-scenario map is keyed by the shield count. */
  method RunTeamAnalysis(arena: Arena, team: seq<Fighter>, meta: seq<Fighter>, ids: seq<string>, scenarios: seq<int>)
    returns (overall: Aggregate, perScenario: map<int, Aggregate>)
    requires |ids| == |meta|
    ensures var table := TableOf(arena, team, meta, scenarios);
            && overall == AggregateOf(OverallView(table), ids, |team|)
            && (forall x :: x in perScenario <==> x in scenarios)
            && (Distinct(scenarios) ==>
                  forall k: nat :: k < |scenarios| ==>
                      perScenario[scenarios[k]] == AggregateOf(ScenarioView(table, k), ids, |team|))
  {
    var matrix := SimulateTeamMatrix(arena, team, meta, scenarios);
    overall := AggregateFromRatings(OverallView(matrix), ids, |team|);
    perScenario := AggregateScenarios(matrix, ids, |team|, scenarios);
  }

  method AggregateScenarios(matrix: RatingTable, ids: seq<string>, members: nat, scenarios: seq<int>)
        returns (perScenario: map<int, Aggregate>)
    ensures forall x :: x in perScenario <==> x in scenarios
    ensures Distinct(scenarios) ==>
      forall k: nat :: k < |scenarios| ==>
        scenarios[k] in perScenario && perScenario[scenarios[k]] == AggregateOf(ScenarioView(matrix, k), ids, members)
  {
    perScenario := map[];
    for k := 0 to |scenarios|
      invariant forall x :: x in perScenario <==> x in scenarios[..k]
      invariant Distinct(scenarios) ==>
        forall l: nat :: l < k ==>
          scenarios[l] in perScenario && perScenario[scenarios[l]] == AggregateOf(ScenarioView(matrix, l), ids, members)
    {
      var aggregate := AggregateFromRatings(ScenarioView(matrix, k), ids, members);
      perScenario := perScenario[scenarios[k] := aggregate];
    }
  }

  /** The second tool simulates every pair again instead of keeping a table. */
  method AverageRatingAcrossScenarios(arena: Arena, member: Fighter, opponent: Fighter, scenarios: seq<int>)
        returns (mean: Option<int>)
    ensures mean == Mean(RowOf(arena, member, opponent, scenarios))
    ensures IsMean(seq(|scenarios|, k requires 0 <= k < |scenarios| =>
                         RatingFor(arena, member, opponent, scenarios[k])), mean)
  {
    ghost var row := RowOf(arena, member, opponent, scenarios);
    MeanIsExact(row);
    if |scenarios| == 0 { return None; }
    var sum, counted := 0, 0;
    for k := 0 to |scenarios|
      invariant sum == SumOf(row[..k]) && counted == CountOf(row[..k])
    {
      assert row[..k + 1][..k] == row[..k];
      var rating := RatingFor(arena, member, opponent, scenarios[k]);
      if rating.None? { continue; }
      sum := sum + rating.value;
      counted := counted + 1;
    }
    assert row[..|row|] == row;
    if counted == 0 { return None; }
    mean := Some(Quotient(sum, counted));
  }

  method ComputeTeamCoverage(arena: Arena, team: seq<Fighter>, meta: seq<Fighter>, ids: seq<string>,
                             scenarios: seq<int>)
    returns (coverage: map<string, int>)
    requires |ids| == |meta|
    ensures coverage == CoverTo(OverallView(TableOf(arena, team, meta, scenarios)), ids, |team|, 0)
  {
    ghost var view := OverallView(TableOf(arena, team, meta, scenarios));
    coverage := map[];
    for i := 0 to |team|
      invariant coverage == CoverTo(view, ids, i, 0)
    {
      for j := 0 to |meta|
        invariant coverage == CoverTo(view, ids, i, j)
      {
        var rating := AverageRatingAcrossScenarios(arena, team[i], meta[j], scenarios);
        assert rating == view(i, j);
        if rating.None? { continue; }
        if rating.value > Read(coverage, ids[j]) {
          coverage := coverage[ids[j] := rating.value];
        }
      }
    }
  }

  /** `counter` is the position of the candidate in the pool. */
  datatype Matchup = Matchup(counter: nat, rating: int)

  datatype ThreatEntry = ThreatEntry(threat: string, teamBest: int, candidates: seq<Matchup>)

  const BY_RATING := (m: Matchup) => m.rating as real

  /** The pool members whose averaged rating reaches the threshold, in pool order. */
  function Covering(arena: Arena, pool: seq<Fighter>, threat: Fighter, scenarios: seq<int>): seq<Matchup> {
    if pool == [] then []
    else
      var n := |pool| - 1;
      var mean := Mean(RowOf(arena, pool[n], threat, scenarios));
      Covering(arena, pool[..n], threat, scenarios)
      + (if mean.Some? && mean.value >= UNCOVERED_THRESHOLD then [Matchup(n, mean.value)] else [])
  }

  method ScorePoolAgainstThreat(arena: Arena, pool: seq<Fighter>, threat: Fighter, scenarios: seq<int>)
        returns (out: seq<Matchup>)
    ensures out == Covering(arena, pool, threat, scenarios)
  {
    out := [];
    for i := 0 to |pool|
      invariant out == Covering(arena, pool[..i], threat, scenarios)
    {
      assert pool[..i + 1][..i] == pool[..i];
      var mean := AverageRatingAcrossScenarios(arena, pool[i], threat, scenarios);
      if mean.None? { continue; }
      if mean.value < UNCOVERED_THRESHOLD { continue; }
      out := out + [Matchup(i, mean.value)];
    }
    assert pool[..|pool|] == pool;
  }

  function TrimCoveringCandidates(matchups: seq<Matchup>): seq<Matchup> {
    if |matchups| <= THREAT_COVERAGE_CANDIDATES then matchups else matchups[..THREAT_COVERAGE_CANDIDATES]
  }

  /** Rated higher, or the same and earlier in the pool. */
  predicate Ahead(a: Matchup, b: Matchup) {
    a.rating > b.rating || (a.rating == b.rating && a.counter < b.counter)
  }

  ghost predicate Ranked(ms: seq<Matchup>) {
    forall x, y :: 0 <= x < y < |ms| ==> Ahead(ms[x], ms[y])
  }

  ghost predicate InPoolOrder(ms: seq<Matchup>) {
    forall x, y :: 0 <= x < y < |ms| ==> ms[x].counter < ms[y].counter
  }

  lemma {:induction false} InsertRanked(sorted: seq<Matchup>, m: Matchup)
    requires Ranked(sorted) && forall x <- sorted :: x.counter < m.counter
    ensures Ranked(Insert(sorted, m, BY_RATING))
    ensures forall x <- Insert(sorted, m, BY_RATING) :: x in sorted || x == m
  {
    if sorted == [] || BY_RATING(sorted[|sorted| - 1]) >= BY_RATING(m) {
    } else {
      var rest, last := sorted[..|sorted| - 1], sorted[|sorted| - 1];
      InsertRanked(rest, m);
      forall x | x in Insert(rest, m, BY_RATING) ensures Ahead(x, last) {
        if x != m { var i :| 0 <= i < |rest| && rest[i] == x; }
      }
    }
  }

  lemma {:induction false} SortRanked(ms: seq<Matchup>)
    requires InPoolOrder(ms)
    ensures Ranked(StableSort(ms, BY_RATING))
    ensures forall x <- StableSort(ms, BY_RATING) :: x in ms
  {
    if ms != [] {
      var rest, m := ms[..|ms| - 1], ms[|ms| - 1];
      SortRanked(rest);
      InsertRanked(StableSort(rest, BY_RATING), m);
    }
  }

  lemma {:induction false} CoveringInPoolOrder(arena: Arena, pool: seq<Fighter>, threat: Fighter, scenarios: seq<int>)
    ensures InPoolOrder(Covering(arena, pool, threat, scenarios))
    ensures forall m <- Covering(arena, pool, threat, scenarios) :: m.counter < |pool|
  {
    if pool != [] { CoveringInPoolOrder(arena, pool[..|pool| - 1], threat, scenarios); }
  }

  /** `kept` holds up to three of `all`, the higher rated ones first and the earlier ones among equals; whatever is left
      out comes behind each of them in that order. */
  ghost predicate BestThree(all: seq<Matchup>, kept: seq<Matchup>) {
    && |kept| <= 3 && (|kept| < 3 ==> forall m <- all :: m in kept)
    && Ranked(kept) && (forall c <- kept :: c in all)
    && (forall m <- all, c <- kept :: m !in kept ==> Ahead(c, m))
  }

  lemma CandidatesAreTheBest(arena: Arena, pool: seq<Fighter>, threat: Fighter, scenarios: seq<int>)
    ensures var all := Covering(arena, pool, threat, scenarios);
            BestThree(all, TrimCoveringCandidates(StableSort(all, BY_RATING)))
  {
    var all := Covering(arena, pool, threat, scenarios);
    CoveringInPoolOrder(arena, pool, threat, scenarios);
    RankedAreTheBest(all);
  }

  lemma RankedAreTheBest(all: seq<Matchup>)
    requires InPoolOrder(all)
    ensures BestThree(all, TrimCoveringCandidates(StableSort(all, BY_RATING)))
  {
    var sorted := StableSort(all, BY_RATING);
    SortRanked(all);
    forall m | m in all ensures m in sorted { SortedMember(all, BY_RATING, m); }
    TrimKeepsAhead(sorted);
  }

  lemma TrimKeepsAhead(sorted: seq<Matchup>)
    requires Ranked(sorted)
    ensures Ranked(TrimCoveringCandidates(sorted))
    ensures forall m <- sorted, c <- TrimCoveringCandidates(sorted) :: m !in TrimCoveringCandidates(sorted) ==>
              Ahead(c, m)
  {
    var kept := TrimCoveringCandidates(sorted);
    assert forall i :: 0 <= i < |kept| ==> kept[i] == sorted[i];
    forall m, c | m in sorted && c in kept && m !in kept ensures Ahead(c, m) {
      var x :| 0 <= x < |sorted| && sorted[x] == m;
      var y :| 0 <= y < |kept| && kept[y] == c;
      assert y < x && kept[y] == sorted[y];
    }
  }

  /** A pool member is a candidate exactly when its mean against the threat reaches 400, and with that mean. */
  lemma {:induction false} CoveringMeans(arena: Arena, pool: seq<Fighter>, threat: Fighter, scenarios: seq<int>, i: nat)
    ensures var all := Covering(arena, pool, threat, scenarios);
            && (forall m <- all :: m.counter < |pool|)
            && (i < |pool| ==>
                  var mean := Mean(RowOf(arena, pool[i], threat, scenarios));
                  && (mean.Some? && mean.value >= 400 <==> exists m <- all :: m.counter == i)
                  && (forall m <- all :: m.counter == i ==> mean == Some(m.rating)))
  {
    if pool != [] {
      var n := |pool| - 1;
      CoveringMeans(arena, pool[..n], threat, scenarios, i);
      var all, before := Covering(arena, pool, threat, scenarios), Covering(arena, pool[..n], threat, scenarios);
      var mean := Mean(RowOf(arena, pool[n], threat, scenarios));
      if mean.Some? && mean.value >= UNCOVERED_THRESHOLD {
        assert all[|all| - 1] == Matchup(n, mean.value);
      }
      assert forall m <- before :: m in all;
    }
  }

  function Threats(entries: seq<ThreatEntry>): seq<string> {
    if entries == [] then [] else Threats(entries[..|entries| - 1]) + [entries[|entries| - 1].threat]
  }

  predicate Open(coverage: map<string, int>, ids: seq<string>, j: nat) {
    j < |ids| && Read(coverage, ids[j]) < 400
  }

  /** Of the first `n` meta positions those whose species the team does not cover, in meta order; a species listed
      twice counts twice. */
  function OpenThreats(coverage: map<string, int>, ids: seq<string>, n: nat): seq<nat>
    requires n <= |ids|
  {
    if n == 0 then []
    else OpenThreats(coverage, ids, n - 1) + (if Open(coverage, ids, n - 1) then [n - 1] else [])
  }

  lemma {:induction false} OpenThreatsMembers(coverage: map<string, int>, ids: seq<string>, n: nat)
    requires n <= |ids|
    ensures forall j: nat :: j in OpenThreats(coverage, ids, n) <==> j < n && Open(coverage, ids, j)
  {
    if n > 0 { OpenThreatsMembers(coverage, ids, n - 1); }
  }

  lemma {:induction false} OpenThreatsExact(coverage: map<string, int>, ids: seq<string>, n: nat)
    requires n <= |ids|
    ensures var at := OpenThreats(coverage, ids, n);
            Increasing(at) && forall j: nat :: j in at <==> j < n && Open(coverage, ids, j)
  {
    OpenThreatsMembers(coverage, ids, n);
    if n > 0 {
      OpenThreatsExact(coverage, ids, n - 1);
      IncreasingAppend(OpenThreats(coverage, ids, n - 1), n - 1);
    }
  }

  /** The entry is about the threat at meta position `j`. */
  ghost predicate Answers(arena: Arena, pool: seq<Fighter>, meta: seq<Fighter>, ids: seq<string>, scenarios: seq<int>,
                          coverage: map<string, int>, j: nat, e: ThreatEntry)
    requires |ids| == |meta|
  {
    && j < |ids| && e.threat == ids[j] && e.teamBest == Read(coverage, ids[j])
    && e.candidates == TrimCoveringCandidates(StableSort(Covering(arena, pool, meta[j], scenarios), BY_RATING))
  }

  ghost predicate AllAnswered(arena: Arena, pool: seq<Fighter>, meta: seq<Fighter>, ids: seq<string>,
                              scenarios: seq<int>, coverage: map<string, int>, at: seq<nat>, out: seq<ThreatEntry>)
    requires |ids| == |meta|
  {
    |out| == |at| && forall m :: 0 <= m < |out| ==> Answers(arena, pool, meta, ids, scenarios, coverage, at[m], out[m])
  }

  lemma OneMoreAnswered(arena: Arena, pool: seq<Fighter>, meta: seq<Fighter>, ids: seq<string>, scenarios: seq<int>,
                        coverage: map<string, int>, at: seq<nat>, out: seq<ThreatEntry>, j: nat, e: ThreatEntry)
    requires |ids| == |meta| && AllAnswered(arena, pool, meta, ids, scenarios, coverage, at, out)
    requires Answers(arena, pool, meta, ids, scenarios, coverage, j, e)
    ensures AllAnswered(arena, pool, meta, ids, scenarios, coverage, at + [j], out + [e])
    ensures Threats(out + [e]) == Threats(out) + [e.threat]
  {
    assert (out + [e])[..|out|] == out;
  }

  /** One entry for each uncovered meta position, in meta order. */
  method BuildUncoveredEntries(arena: Arena, pool: seq<Fighter>, meta: seq<Fighter>, ids: seq<string>,
                               scenarios: seq<int>, coverage: map<string, int>)
    returns (out: seq<ThreatEntry>)
    requires |ids| == |meta|
    ensures Threats(out) == Uncovered(coverage, ids)
    ensures AllAnswered(arena, pool, meta, ids, scenarios, coverage, OpenThreats(coverage, ids, |ids|), out)
  {
    out := [];
    for j := 0 to |meta|
      invariant Threats(out) == Uncovered(coverage, ids[..j])
      invariant AllAnswered(arena, pool, meta, ids, scenarios, coverage, OpenThreats(coverage, ids, j), out)
    {
      assert ids[..j + 1][..j] == ids[..j];
      if Read(coverage, ids[j]) >= UNCOVERED_THRESHOLD { continue; }
      var entry := UncoveredEntry(arena, pool, meta, ids, scenarios, coverage, j);
      OneMoreAnswered(arena, pool, meta, ids, scenarios, coverage, OpenThreats(coverage, ids, j), out, j, entry);
      out := out + [entry];
    }
    assert ids[..|ids|] == ids;
  }

  method UncoveredEntry(arena: Arena, pool: seq<Fighter>, meta: seq<Fighter>, ids: seq<string>, scenarios: seq<int>,
                        coverage: map<string, int>, j: nat)
    returns (entry: ThreatEntry)
    requires |ids| == |meta| && j < |meta|
    ensures Answers(arena, pool, meta, ids, scenarios, coverage, j, entry)
  {
    var matchups := ScorePoolAgainstThreat(arena, pool, meta[j], scenarios);
    entry := ThreatEntry(ids[j], Read(coverage, ids[j]), TrimCoveringCandidates(StableSort(matchups, BY_RATING)));
  }

  /** The fast form and the simple form agree: the coverage map that the re-simulating tool computes, and the
      threats it lists, are those of the overall aggregate of the single pass. */
  method CompareWithThreatCoverage(arena: Arena, team: seq<Fighter>, pool: seq<Fighter>, meta: seq<Fighter>,
                                   ids: seq<string>, scenarios: seq<int>)
    returns (overall: Aggregate, coverage: map<string, int>, entries: seq<ThreatEntry>)
    requires |ids| == |meta|
    ensures coverage == overall.coverage && Threats(entries) == overall.uncovered
    ensures overall == AggregateOf(OverallView(TableOf(arena, team, meta, scenarios)), ids, |team|)
  {
    var perScenario;
    overall, perScenario := RunTeamAnalysis(arena, team, meta, ids, scenarios);
    coverage := ComputeTeamCoverage(arena, team, meta, ids, scenarios);
    entries := BuildUncoveredEntries(arena, pool, meta, ids, scenarios, coverage);
  }
}
