/** internal/tools/team_builder.go, `precomputeRatingMatrix` and its readers, as a transition system.

    One main goroutine allocates rows, spawns one worker per row behind a counting semaphore and waits;
    afterwards it scores triples, looking at `ctx` once per anchor. Cancellation may strike between
    any two steps and is permanent. */
module RatingMatrix {
  import opened Wrappers

  /** `ok == false` marks a simulation that returned an error. */
  datatype Cell = Cell(rating: int, ok: bool)

  type Row = seq<seq<Cell>>

  /** Shield scenarios 0/0, 1/1 and 2/2. */
  const SCENARIO_COUNT := 3

  /** The inputs of one request. `sim` is the deterministic simulator, `wanted` the required-species test. */
  datatype Job = Job(
    members: nat,
    opponents: nat,
    cpus: nat,
    sim: (nat, nat, nat) -> Cell,
    wanted: (nat, nat, nat) -> bool)
  {
    /** The size of the worker pool: min(NumCPU, pool size). */
    function Workers(): nat {
      if cpus < members then cpus else members
    }
  }

  // ---------------------------------------------------------------- the sequential loop

  function SequentialRow(job: Job, i: nat): Row {
    seq(job.opponents, o requires 0 <= o => seq(SCENARIO_COUNT, s requires 0 <= s => job.sim(i, o, s)))
  }

  /** Failed cells of row `i` before cell (o, s) in the order in which the loop visits them. */
  function FailsBefore(job: Job, i: nat, o: nat, s: nat): nat
    decreases o, s
  {
    if s > 0 then FailsBefore(job, i, o, s - 1) + (if job.sim(i, o, s - 1).ok then 0 else 1)
    else if o > 0 then FailsBefore(job, i, o - 1, SCENARIO_COUNT)
    else 0
  }

  function RowFails(job: Job, i: nat): nat {
    FailsBefore(job, i, job.opponents, 0)
  }

  function TotalFails(job: Job, rows: nat): nat {
    if rows == 0 then 0 else TotalFails(job, rows - 1) + RowFails(job, rows - 1)
  }

  function BlankRow(job: Job): Row {
    seq(job.opponents, _ => seq(SCENARIO_COUNT, _ => Cell(0, false)))
  }

  ghost predicate Shaped(job: Job, row: Row) {
    |row| == job.opponents && forall o :: 0 <= o < |row| ==> |row[o]| == SCENARIO_COUNT
  }

  /** Every cell before (o, s) holds what the simulator says. */
  ghost predicate FilledTo(job: Job, i: nat, row: Row, o: nat, s: nat) {
    && Shaped(job, row)
    && forall o', s' :: 0 <= o' < |row| && 0 <= s' < SCENARIO_COUNT && (o' < o || (o' == o && s' < s)) ==>
                          row[o'][s'] == job.sim(i, o', s')
  }

  lemma FullRow(job: Job, i: nat, row: Row)
    requires FilledTo(job, i, row, job.opponents, 0)
    ensures row == SequentialRow(job, i)
  {
    forall o | 0 <= o < |row| ensures row[o] == SequentialRow(job, i)[o] {
      assert forall s :: 0 <= s < SCENARIO_COUNT ==> row[o][s] == job.sim(i, o, s);
    }
  }

  /** The failed cells of the rows before row `i`, and of row `i` those before cell (o, s). */
  ghost function FailedCells(job: Job, i: nat, o: nat, s: nat): set<(nat, nat, nat)> {
    set r: nat, p: nat, q: nat |
      r <= i && p < job.opponents && q < SCENARIO_COUNT && !job.sim(r, p, q).ok
      && (r < i || p < o || (p == o && q < s)) :: (r, p, q)
  }

  /** The failure count is the number of cells whose simulation failed. */
  lemma {:induction false} FailuresAreFailedCells(job: Job, i: nat, o: nat, s: nat)
    requires o < job.opponents || s == 0
    requires o <= job.opponents && s <= SCENARIO_COUNT
    ensures TotalFails(job, i) + FailsBefore(job, i, o, s) == |FailedCells(job, i, o, s)|
    decreases i, o, s
  {
    if s > 0 {
      FailuresAreFailedCells(job, i, o, s - 1);
      OneMoreCell(job, i, o, s);
    } else if o > 0 {
      FailuresAreFailedCells(job, i, o - 1, SCENARIO_COUNT);
      assert FailedCells(job, i, o, s) == FailedCells(job, i, o - 1, SCENARIO_COUNT);
    } else if i > 0 {
      FailuresAreFailedCells(job, i - 1, job.opponents, 0);
      assert FailedCells(job, i, o, s) == FailedCells(job, i - 1, job.opponents, 0);
    } else {
      assert FailedCells(job, i, o, s) == {};
    }
  }

  lemma OneMoreCell(job: Job, i: nat, o: nat, s: nat)
    requires o < job.opponents && 0 < s <= SCENARIO_COUNT
    ensures |FailedCells(job, i, o, s)| ==
            |FailedCells(job, i, o, s - 1)| + (if job.sim(i, o, s - 1).ok then 0 else 1)
  {
    var cell := (i, o, s - 1 as nat);
    var before := FailedCells(job, i, o, s - 1);
    assert cell !in before;
    assert FailedCells(job, i, o, s) == before + (if job.sim(i, o, s - 1).ok then {} else {cell});
  }

  /** The loops as one goroutine would run them, without cancellation. */
  method FillSequentially(job: Job) returns (rows: seq<Row>, failures: nat)
    ensures |rows| == job.members && forall i :: 0 <= i < |rows| ==> rows[i] == SequentialRow(job, i)
    ensures forall i :: 0 <= i < |rows| ==> FilledTo(job, i, rows[i], job.opponents, 0)
    ensures failures == TotalFails(job, job.members) == |FailedCells(job, job.members, 0, 0)|
  {
    FailuresAreFailedCells(job, job.members, 0, 0);
    rows, failures := [], 0;
    for i := 0 to job.members
      invariant |rows| == i
      invariant forall r :: 0 <= r < i ==>
                  rows[r] == SequentialRow(job, r) && FilledTo(job, r, rows[r], job.opponents, 0)
      invariant failures == TotalFails(job, i)
    {
      var row, fails := FillRow(job, i);
      FullRow(job, i, row);
      rows, failures := rows + [row], failures + fails;
    }
  }

  /** The two inner loops. */
  method FillRow(job: Job, i: nat) returns (row: Row, fails: nat)
    ensures FilledTo(job, i, row, job.opponents, 0) && fails == RowFails(job, i)
  {
    row, fails := BlankRow(job), 0;
    for o := 0 to job.opponents
      invariant FilledTo(job, i, row, o, 0) && fails == FailsBefore(job, i, o, 0)
    {
      for s := 0 to SCENARIO_COUNT
        invariant FilledTo(job, i, row, o, s) && fails == FailsBefore(job, i, o, s)
      {
        row := row[o := row[o][s := job.sim(i, o, s)]];
        if !job.sim(i, o, s).ok { fails := fails + 1; }
      }
    }
  }

  // ---------------------------------------------------------------- the concurrent program

  datatype WorkerPc =
    | Unstarted
    | Check(opp: nat, fails: nat)               // top of the opponent loop, before ctx.Err()
    | Fill(opp: nat, scenario: nat, fails: nat)
    | Add(fails: nat)                           // failuresAll.Add
    | FreeSlot                                  // <-sem
    | Signal                                    // wg.Done
    | Finished

  datatype MainPc =
    | Spawn(row: nat)
    | TakeSlot(row: nat)                        // row allocated, blocked on sem <- struct{}{}
    | Wait
    | Anchor(i: nat)
    | Score(i: nat, j: nat, k: nat)
    | Done

  /** One scored triple together with the three rows it indexed; None is a nil row. */
  datatype Read = Read(i: nat, j: nat, k: nat, rows: seq<Option<Row>>)

  datatype State = State(
    cancelled: bool,
    main: MainPc,
    spawned: nat,
    workers: seq<WorkerPc>,
    rows: seq<Option<Row>>,
    slots: nat,          // occupied semaphore slots
    group: nat,          // the WaitGroup counter
    failures: nat,
    scored: seq<Read>)

  function Init(job: Job): State {
    State(false, Spawn(0), 0, seq(job.members, _ => Unstarted), seq(job.members, _ => None), 0, 0, 0, [])
  }

  /** None when the main goroutine is blocked or has finished. */
  function MainStep(job: Job, s: State): Option<State> {
    match s.main
    case Spawn(i) =>
      if i >= job.members || s.cancelled || i >= |s.rows| then Some(s.(main := Wait))
      else Some(s.(main := TakeSlot(i), rows := s.rows[i := Some(BlankRow(job))], group := s.group + 1))
    case TakeSlot(i) =>
      if s.slots < job.Workers() && i < |s.workers| then
        Some(s.(main := Spawn(i + 1), slots := s.slots + 1, spawned := i + 1, workers := s.workers[i := Check(0, 0)]))
      else None
    case Wait => if s.group == 0 then Some(s.(main := Anchor(0))) else None
    case Anchor(i) =>
      if i >= job.members || s.cancelled then Some(s.(main := Done)) else Some(s.(main := Score(i, i + 1, i + 2)))
    case Score(i, j, k) =>
      if j >= |s.rows| || i >= |s.rows| then Some(s.(main := Anchor(i + 1)))
      else if k >= |s.rows| then Some(s.(main := Score(i, j + 1, j + 2)))
      else
        var next := s.(main := Score(i, j, k + 1));
        Some(if job.wanted(i, j, k)
             then next.(scored := s.scored + [Read(i, j, k, [s.rows[i], s.rows[j], s.rows[k]])]) else next)
    case Done => None
  }

  /** Where worker `w` goes next; the simulator's answer decides whether it counts a failure. */
  function NextPc(job: Job, cancelled: bool, w: nat, pc: WorkerPc): WorkerPc {
    match pc
    case Check(o, f) => if o >= job.opponents || cancelled then Add(f) else Fill(o, 0, f)
    case Fill(o, c, f) =>
      var fails := if job.sim(w, o, c).ok then f else f + 1;
      if c + 1 < SCENARIO_COUNT then Fill(o, c + 1, fails) else Check(o + 1, fails)
    case Add(_) => FreeSlot
    case FreeSlot => Signal
    case Signal => Finished
    case _ => pc
  }

  /** Not running, about to index a nil row or past its end, or giving back what was never taken. */
  predicate Blocked(s: State, row: Option<Row>, pc: WorkerPc) {
    || pc.Unstarted? || pc.Finished?
    || (pc.Fill? && (row.None? || pc.opp >= |row.value| || pc.scenario >= |row.value[pc.opp]|))
    || (pc.FreeSlot? && s.slots == 0)
    || (pc.Signal? && s.group == 0)
  }

  function WriteCell(job: Job, w: nat, row: Row, o: nat, c: nat): Row
    requires o < |row| && c < |row[o]|
  {
    row[o := row[o][c := job.sim(w, o, c)]]
  }

  /** One step of worker `w`; None when it cannot move. */
  function WorkerStep(job: Job, s: State, w: nat): Option<State> {
    if w >= |s.workers| || w >= |s.rows| || Blocked(s, s.rows[w], s.workers[w]) then None else
    var pc := s.workers[w];
    Some(s.(
      workers := s.workers[w := NextPc(job, s.cancelled, w, pc)],
      rows := if pc.Fill? then s.rows[w := Some(WriteCell(job, w, s.rows[w].value, pc.opp, pc.scenario))] else s.rows,
      failures := if pc.Add? then s.failures + pc.fails else s.failures,
      slots := if pc.FreeSlot? then s.slots - 1 else s.slots,
      group := if pc.Signal? then s.group - 1 else s.group))
  }

  datatype Action = Main | Worker(w: nat) | Cancel

  function Apply(job: Job, s: State, a: Action): Option<State> {
    match a
    case Main => MainStep(job, s)
    case Worker(w) => WorkerStep(job, s, w)
    case Cancel => Some(s.(cancelled := true))
  }

  function Execute(job: Job, actions: seq<Action>): Option<State> {
    if actions == [] then Some(Init(job))
    else
      match Execute(job, actions[..|actions| - 1])
      case None => None
      case Some(s) => Apply(job, s, actions[|actions| - 1])
  }

  ghost predicate Reachable(job: Job, s: State) {
    exists actions :: Execute(job, actions) == Some(s)
  }

  // ---------------------------------------------------------------- counting over workers

  predicate HoldsSlot(pc: WorkerPc) {
    pc.Check? || pc.Fill? || pc.Add? || pc.FreeSlot?
  }

  predicate Pending(pc: WorkerPc) {
    HoldsSlot(pc) || pc.Signal?
  }

  predicate Counted(pc: WorkerPc) {
    pc.FreeSlot? || pc.Signal? || pc.Finished?
  }

  function Sum(xs: seq<nat>): nat {
    if xs == [] then 0 else Sum(xs[..|xs| - 1]) + xs[|xs| - 1]
  }

  function Weigh(workers: seq<WorkerPc>, weight: (nat, WorkerPc) -> nat): seq<nat> {
    seq(|workers|, i requires 0 <= i < |workers| => weight(i, workers[i]))
  }

  function Tally(workers: seq<WorkerPc>, weight: (nat, WorkerPc) -> nat): nat {
    Sum(Weigh(workers, weight))
  }

  lemma {:induction false} SumUpdate(xs: seq<nat>, w: nat, x: nat)
    requires w < |xs|
    ensures Sum(xs[w := x]) + xs[w] == Sum(xs) + x
  {
    var last := |xs| - 1;
    if w == last {
      assert xs[w := x][..last] == xs[..last];
    } else {
      assert xs[w := x][..last] == xs[..last][w := x];
      SumUpdate(xs[..last], w, x);
    }
  }

  lemma TallyUpdate(workers: seq<WorkerPc>, w: nat, pc: WorkerPc, weight: (nat, WorkerPc) -> nat)
    requires w < |workers|
    ensures Tally(workers[w := pc], weight) + weight(w, workers[w]) == Tally(workers, weight) + weight(w, pc)
  {
    assert Weigh(workers[w := pc], weight) == Weigh(workers, weight)[w := weight(w, pc)];
    SumUpdate(Weigh(workers, weight), w, weight(w, pc));
  }

  lemma {:induction false} SumPositive(xs: seq<nat>, w: nat)
    requires w < |xs|
    ensures xs[w] <= Sum(xs)
  {
    if w < |xs| - 1 { SumPositive(xs[..|xs| - 1], w); }
  }

  lemma {:induction false} SumZero(xs: seq<nat>)
    requires forall i :: 0 <= i < |xs| ==> xs[i] == 0
    ensures Sum(xs) == 0
  {
    if xs != [] { SumZero(xs[..|xs| - 1]); }
  }

  const SlotWeight: (nat, WorkerPc) -> nat := (_, pc) => if HoldsSlot(pc) then 1 else 0
  const GroupWeight: (nat, WorkerPc) -> nat := (_, pc) => if Pending(pc) then 1 else 0

  function FailWeight(job: Job): (nat, WorkerPc) -> nat {
    (i, pc) => if Counted(pc) then RowFails(job, i) else 0
  }

  // ---------------------------------------------------------------- the invariant

  ghost predicate Full(job: Job, i: nat, row: Option<Row>) {
    row.Some? && FilledTo(job, i, row.value, job.opponents, 0)
  }

  ghost predicate Complete(job: Job, rows: seq<Option<Row>>) {
    forall i :: 0 <= i < |rows| ==> Full(job, i, rows[i])
  }

  /** What an undisturbed worker has written and counted so far. */
  ghost predicate Progress(job: Job, i: nat, row: Row, pc: WorkerPc) {
    match pc
    case Unstarted => false
    case Check(o, f) => o <= job.opponents && FilledTo(job, i, row, o, 0) && f == FailsBefore(job, i, o, 0)
    case Fill(o, c, f) => FilledTo(job, i, row, o, c) && f == FailsBefore(job, i, o, c)
    case Add(f) => FilledTo(job, i, row, job.opponents, 0) && f == RowFails(job, i)
    case _ => FilledTo(job, i, row, job.opponents, 0)
  }

  predicate PastWait(main: MainPc) {
    main.Anchor? || main.Score? || main.Done?
  }

  ghost predicate Allocated(job: Job, s: State) {
    && |s.rows| == |s.workers| == job.members && s.spawned <= job.members
    && (forall i :: 0 <= i < job.members ==> (s.workers[i].Unstarted? <==> s.spawned <= i))
    && (forall i :: 0 <= i < s.spawned ==> s.rows[i].Some? && Shaped(job, s.rows[i].value))
    && (forall i :: 0 <= i < s.spawned && s.workers[i].Fill? ==>
          s.workers[i].opp < job.opponents && s.workers[i].scenario < SCENARIO_COUNT)
    && (s.main.Spawn? ==> s.main.row == s.spawned)
    && (s.main.TakeSlot? ==> s.main.row == s.spawned < job.members && s.rows[s.spawned] == Some(BlankRow(job)))
  }

  ghost predicate Counters(job: Job, s: State) {
    && s.slots == Tally(s.workers, SlotWeight) && s.slots <= job.Workers()
    && s.group == Tally(s.workers, GroupWeight) + (if s.main.TakeSlot? then 1 else 0)
    && (PastWait(s.main) ==> s.group == 0)
  }

  ghost predicate Contents(job: Job, s: State)
    requires Allocated(job, s)
  {
    && (!s.cancelled ==>
          && (forall i :: 0 <= i < s.spawned ==> Progress(job, i, s.rows[i].value, s.workers[i]))
          && s.failures == Tally(s.workers, FailWeight(job))
          && (s.main.Wait? || PastWait(s.main) ==> s.spawned == job.members))
    && (s.main.Score? ==> Complete(job, s.rows))
  }

  ghost predicate SoundRead(job: Job, r: Read) {
    |r.rows| == 3 && Full(job, r.i, r.rows[0]) && Full(job, r.j, r.rows[1]) && Full(job, r.k, r.rows[2])
  }

  ghost predicate SoundReads(job: Job, scored: seq<Read>) {
    forall r <- scored :: r.i < r.j < r.k < job.members && SoundRead(job, r)
  }

  ghost predicate Inv(job: Job, s: State) {
    && Allocated(job, s) && Counters(job, s) && Contents(job, s) && SoundReads(job, s.scored)
    && (s.main.Score? ==> s.main.i < job.members && s.main.i < s.main.j < s.main.k)
  }

  lemma InvInit(job: Job)
    ensures Inv(job, Init(job))
  {
    var s := Init(job);
    SumZero(Weigh(s.workers, SlotWeight));
    SumZero(Weigh(s.workers, GroupWeight));
    SumZero(Weigh(s.workers, FailWeight(job)));
  }

  /** With the wait group at zero no worker is still running. */
  lemma NobodyPending(s: State, i: nat)
    requires i < |s.workers| && Tally(s.workers, GroupWeight) == 0
    ensures !Pending(s.workers[i])
  {
    SumPositive(Weigh(s.workers, GroupWeight), i);
  }

  lemma AllRowsComplete(job: Job, s: State)
    requires Inv(job, s) && !s.cancelled && s.group == 0 && (s.main.Wait? || PastWait(s.main))
    ensures Complete(job, s.rows)
  {
    forall i | 0 <= i < |s.rows| ensures Full(job, i, s.rows[i]) {
      NobodyPending(s, i);
      assert Progress(job, i, s.rows[i].value, s.workers[i]);
    }
  }

  lemma SpawnKeeps(job: Job, s: State)
    requires Inv(job, s) && s.main.Spawn?
    ensures Inv(job, MainStep(job, s).value)
  {
  }

  lemma TakeSlotKeeps(job: Job, s: State)
    requires Inv(job, s) && s.main.TakeSlot? && MainStep(job, s).Some?
    ensures Inv(job, MainStep(job, s).value)
  {
    TallyUpdate(s.workers, s.main.row, Check(0, 0), SlotWeight);
    TallyUpdate(s.workers, s.main.row, Check(0, 0), GroupWeight);
    TallyUpdate(s.workers, s.main.row, Check(0, 0), FailWeight(job));
  }

  /** After the wait only the main program counter and the list of scored triples change. */
  lemma ReaderMoves(job: Job, s: State, main: MainPc, scored: seq<Read>)
    requires Inv(job, s) && (s.main.Wait? ==> s.group == 0) && (s.main.Wait? || PastWait(s.main)) && PastWait(main)
    requires SoundReads(job, scored)
    requires main.Score? ==> Complete(job, s.rows) && main.i < job.members && main.i < main.j < main.k
    ensures Inv(job, s.(main := main, scored := scored))
  {
  }

  lemma WaitKeeps(job: Job, s: State)
    requires Inv(job, s) && s.main.Wait? && MainStep(job, s).Some?
    ensures Inv(job, MainStep(job, s).value)
  {
    ReaderMoves(job, s, Anchor(0), s.scored);
  }

  lemma AnchorKeeps(job: Job, s: State)
    requires Inv(job, s) && s.main.Anchor?
    ensures Inv(job, MainStep(job, s).value)
  {
    if !s.cancelled { AllRowsComplete(job, s); }
    var i := s.main.i;
    ReaderMoves(job, s, if i >= job.members || s.cancelled then Done else Score(i, i + 1, i + 2), s.scored);
  }

  lemma TripleIsSound(job: Job, rows: seq<Option<Row>>, scored: seq<Read>, i: nat, j: nat, k: nat)
    requires Complete(job, rows) && SoundReads(job, scored) && i < j < k < |rows| == job.members
    ensures SoundReads(job, scored + [Read(i, j, k, [rows[i], rows[j], rows[k]])])
  {
  }

  lemma ScoreKeeps(job: Job, s: State)
    requires Inv(job, s) && s.main.Score?
    ensures Inv(job, MainStep(job, s).value)
  {
    var Score(i, j, k) := s.main;
    if j >= |s.rows| {
      ReaderMoves(job, s, Anchor(i + 1), s.scored);
    } else if k >= |s.rows| {
      ReaderMoves(job, s, Score(i, j + 1, j + 2), s.scored);
    } else {
      TripleKeeps(job, s);
    }
  }

  lemma TripleKeeps(job: Job, s: State)
    requires Inv(job, s) && s.main.Score? && s.main.j < |s.rows| && s.main.k < |s.rows|
    ensures Inv(job, MainStep(job, s).value)
  {
    var Score(i, j, k) := s.main;
    TripleIsSound(job, s.rows, s.scored, i, j, k);
    ReaderMoves(job, s, Score(i, j, k + 1), MainStep(job, s).value.scored);
  }

  lemma InvMain(job: Job, s: State)
    requires Inv(job, s) && MainStep(job, s).Some?
    ensures Inv(job, MainStep(job, s).value)
  {
    if s.main.Spawn? {
      SpawnKeeps(job, s);
    } else if s.main.TakeSlot? {
      TakeSlotKeeps(job, s);
    } else if s.main.Wait? {
      WaitKeeps(job, s);
    } else if s.main.Anchor? {
      AnchorKeeps(job, s);
    } else {
      ScoreKeeps(job, s);
    }
  }

  lemma WriteKeepsShape(job: Job, w: nat, row: Row, o: nat, c: nat)
    requires Shaped(job, row) && o < job.opponents && c < SCENARIO_COUNT
    ensures Shaped(job, WriteCell(job, w, row, o, c))
  {
  }

  lemma WorkerKeepsAllocated(job: Job, s: State, w: nat)
    requires Inv(job, s) && WorkerStep(job, s, w).Some?
    ensures Allocated(job, WorkerStep(job, s, w).value)
  {
    assert w < s.spawned;
    var pc := s.workers[w];
    if pc.Fill? { WriteKeepsShape(job, w, s.rows[w].value, pc.opp, pc.scenario); }
  }

  lemma WorkerKeepsSlots(job: Job, s: State, w: nat)
    requires Counters(job, s) && WorkerStep(job, s, w).Some?
    ensures var s' := WorkerStep(job, s, w).value;
            s'.slots == Tally(s'.workers, SlotWeight) && s'.slots <= job.Workers()
  {
    TallyUpdate(s.workers, w, NextPc(job, s.cancelled, w, s.workers[w]), SlotWeight);
  }

  lemma WorkerKeepsGroup(job: Job, s: State, w: nat)
    requires Counters(job, s) && WorkerStep(job, s, w).Some?
    ensures var s' := WorkerStep(job, s, w).value;
            && s'.group == Tally(s'.workers, GroupWeight) + (if s'.main.TakeSlot? then 1 else 0)
            && (PastWait(s'.main) ==> s'.group == 0)
  {
    TallyUpdate(s.workers, w, NextPc(job, s.cancelled, w, s.workers[w]), GroupWeight);
    if PastWait(s.main) { NobodyPending(s, w); }
  }

  /** Writing one cell moves the filled part of the row one cell further. */
  lemma CellWritten(job: Job, w: nat, row: Row, o: nat, c: nat)
    requires FilledTo(job, w, row, o, c) && o < job.opponents && c < SCENARIO_COUNT
    ensures FilledTo(job, w, WriteCell(job, w, row, o, c), o, c + 1)
    ensures c + 1 == SCENARIO_COUNT ==> FilledTo(job, w, WriteCell(job, w, row, o, c), o + 1, 0)
  {
  }

  lemma WorkerProgresses(job: Job, w: nat, row: Row, pc: WorkerPc)
    requires Progress(job, w, row, pc) && !pc.Finished?
    requires pc.Fill? ==> pc.opp < job.opponents && pc.scenario < SCENARIO_COUNT
    ensures Progress(job, w, if pc.Fill? then WriteCell(job, w, row, pc.opp, pc.scenario) else row,
                     NextPc(job, false, w, pc))
  {
    if pc.Fill? { CellWritten(job, w, row, pc.opp, pc.scenario); }
  }

  lemma FailuresAdded(job: Job, s: State, w: nat)
    requires Inv(job, s) && !s.cancelled && w < s.spawned && WorkerStep(job, s, w).Some?
    ensures WorkerStep(job, s, w).value.failures == Tally(WorkerStep(job, s, w).value.workers, FailWeight(job))
  {
    assert Progress(job, w, s.rows[w].value, s.workers[w]);
    TallyUpdate(s.workers, w, NextPc(job, s.cancelled, w, s.workers[w]), FailWeight(job));
  }

  lemma WorkerKeepsContents(job: Job, s: State, w: nat)
    requires Inv(job, s) && WorkerStep(job, s, w).Some? && Allocated(job, WorkerStep(job, s, w).value)
    ensures Contents(job, WorkerStep(job, s, w).value)
  {
    var s' := WorkerStep(job, s, w).value;
    if s.main.Score? { NobodyPending(s, w); }
    if !s.cancelled {
      assert w < s.spawned;
      FailuresAdded(job, s, w);
      WorkerProgresses(job, w, s.rows[w].value, s.workers[w]);
      forall i | 0 <= i < s'.spawned ensures Progress(job, i, s'.rows[i].value, s'.workers[i]) {
        if i != w { assert s'.rows[i] == s.rows[i] && s'.workers[i] == s.workers[i]; }
      }
    }
  }

  lemma WorkerLeavesReaders(job: Job, s: State, w: nat)
    requires WorkerStep(job, s, w).Some?
    ensures WorkerStep(job, s, w).value.main == s.main && WorkerStep(job, s, w).value.scored == s.scored
  {
  }

  lemma InvWorker(job: Job, s: State, w: nat)
    requires Inv(job, s) && WorkerStep(job, s, w).Some?
    ensures Inv(job, WorkerStep(job, s, w).value)
  {
    WorkerKeepsAllocated(job, s, w);
    WorkerKeepsSlots(job, s, w);
    WorkerKeepsGroup(job, s, w);
    WorkerKeepsContents(job, s, w);
    WorkerLeavesReaders(job, s, w);
  }

  lemma {:induction false} InvExecute(job: Job, actions: seq<Action>)
    ensures Execute(job, actions).Some? ==> Inv(job, Execute(job, actions).value)
  {
    if actions == [] {
      InvInit(job);
    } else if Execute(job, actions).Some? {
      var before := Execute(job, actions[..|actions| - 1]).value;
      InvExecute(job, actions[..|actions| - 1]);
      match actions[|actions| - 1]
      case Main => InvMain(job, before);
      case Worker(w) => InvWorker(job, before, w);
      case Cancel =>
    }
  }

  lemma InvReachable(job: Job, s: State)
    requires Reachable(job, s)
    ensures Inv(job, s)
  {
    var actions :| Execute(job, actions) == Some(s);
    InvExecute(job, actions);
  }

  // ---------------------------------------------------------------- what the program guarantees

  /** Rows whose worker is between acquiring and releasing its slot. */
  function Busy(s: State): nat {
    Tally(s.workers, SlotWeight)
  }

  lemma AtMostWorkersRowsAtOnce(job: Job, s: State)
    requires Reachable(job, s)
    ensures Busy(s) <= job.cpus && Busy(s) <= job.members
    ensures s.main.TakeSlot? ==> (MainStep(job, s).Some? <==> Busy(s) < job.cpus && Busy(s) < job.members)
  {
    InvReachable(job, s);
  }

  /** The failure total, summed in whatever order the workers added it, is the sequential total. */
  lemma {:induction false} FailTotal(job: Job, workers: seq<WorkerPc>)
    requires forall i :: 0 <= i < |workers| ==> workers[i].Finished?
    ensures Tally(workers, FailWeight(job)) == TotalFails(job, |workers|)
  {
    if workers != [] {
      var n := |workers| - 1;
      FailTotal(job, workers[..n]);
      assert Weigh(workers, FailWeight(job))[..n] == Weigh(workers[..n], FailWeight(job));
    }
  }

  /** Under every schedule without cancellation, once `wg.Wait` has returned the matrix and the failure
      count are those of the sequential loop. */
  lemma ParallelEqualsSequential(job: Job, s: State)
    requires Reachable(job, s) && PastWait(s.main) && !s.cancelled
    ensures |s.rows| == job.members && forall i :: 0 <= i < job.members ==> s.rows[i] == Some(SequentialRow(job, i))
    ensures Complete(job, s.rows)
    ensures s.failures == TotalFails(job, job.members) == |FailedCells(job, job.members, 0, 0)|
  {
    FailuresAreFailedCells(job, job.members, 0, 0);
    InvReachable(job, s);
    AllRowsComplete(job, s);
    forall i | 0 <= i < |s.workers| ensures s.workers[i].Finished? && s.rows[i] == Some(SequentialRow(job, i)) {
      NobodyPending(s, i);
      FullRow(job, i, s.rows[i].value);
    }
    FailTotal(job, s.workers);
  }

  /** Whenever cancellation strikes, every score ever computed read three completely filled rows: no
      nil row and no half-filled row is indexed. */
  lemma ScoresReadCompleteRows(job: Job, s: State, r: Read)
    requires Reachable(job, s) && r in s.scored
    ensures r.i < r.j < r.k < job.members
    ensures r.rows == [Some(SequentialRow(job, r.i)), Some(SequentialRow(job, r.j)), Some(SequentialRow(job, r.k))]
  {
    InvReachable(job, s);
    assert SoundRead(job, r);
    FullRow(job, r.i, r.rows[0].value);
    FullRow(job, r.j, r.rows[1].value);
    FullRow(job, r.k, r.rows[2].value);
  }

  // ---------------------------------------------------------------- which triples are scored

  ghost predicate Lower(x: (nat, nat, nat), y: (nat, nat, nat)) {
    x.0 < y.0 || (x.0 == y.0 && (x.1 < y.1 || (x.1 == y.1 && x.2 < y.2)))
  }

  function Key(r: Read): (nat, nat, nat) {
    (r.i, r.j, r.k)
  }

  ghost predicate Wanted(job: Job, t: (nat, nat, nat)) {
    t.0 < t.1 < t.2 < job.members && job.wanted(t.0, t.1, t.2)
  }

  /** Exactly the wanted triples before the cursor, each once, in lexicographic order. */
  ghost predicate Listed(job: Job, cursor: (nat, nat, nat), scored: seq<Read>) {
    && (forall r <- scored :: Wanted(job, Key(r)) && Lower(Key(r), cursor))
    && (forall t :: Wanted(job, t) && Lower(t, cursor) ==> exists r <- scored :: Key(r) == t)
    && (forall m, n :: 0 <= m < n < |scored| ==> Lower(Key(scored[m]), Key(scored[n])))
  }

  /** All triples with an anchor below `a`. */
  ghost predicate ListedAnchors(job: Job, a: nat, scored: seq<Read>) {
    a <= job.members && Listed(job, (a, 0, 0), scored)
  }

  ghost predicate ListInv(job: Job, s: State) {
    match s.main
    case Anchor(i) => ListedAnchors(job, i, s.scored)
    case Score(i, j, k) => Listed(job, (i, j, k), s.scored)
    case Done => exists a :: ListedAnchors(job, a, s.scored) && (s.cancelled || a == job.members)
    case _ => s.scored == []
  }

  /** No wanted triple lies between the two cursors. */
  lemma CursorMoves(job: Job, before: (nat, nat, nat), after: (nat, nat, nat), scored: seq<Read>)
    requires Listed(job, before, scored) && Lower(before, after)
    requires forall t :: Wanted(job, t) && Lower(t, after) ==> Lower(t, before)
    ensures Listed(job, after, scored)
  {
  }

  lemma AnchorEnds(job: Job, i: nat, j: nat, k: nat, scored: seq<Read>)
    requires Listed(job, (i, j, k), scored) && j >= job.members
    ensures Listed(job, (i + 1, 0, 0), scored)
  {
    CursorMoves(job, (i, j, k), (i + 1, 0, 0), scored);
  }

  lemma PairEnds(job: Job, i: nat, j: nat, k: nat, scored: seq<Read>)
    requires Listed(job, (i, j, k), scored) && k >= job.members
    ensures Listed(job, (i, j + 1, j + 2), scored)
  {
    CursorMoves(job, (i, j, k), (i, j + 1, j + 2), scored);
  }

  lemma TripleListed(job: Job, r: Read, scored: seq<Read>)
    requires Listed(job, Key(r), scored) && r.i < r.j < r.k < job.members
    ensures Listed(job, (r.i, r.j, r.k + 1), if job.wanted(r.i, r.j, r.k) then scored + [r] else scored)
  {
    var after := (r.i, r.j, r.k + 1);
    if job.wanted(r.i, r.j, r.k) {
      var more := scored + [r];
      forall t | Wanted(job, t) && Lower(t, after) ensures exists x <- more :: Key(x) == t {
        if t == Key(r) {
          assert r in more;
        } else {
          var x :| x in scored && Key(x) == t;
          assert x in more;
        }
      }
    } else {
      CursorMoves(job, Key(r), after, scored);
    }
  }

  lemma ScoreLists(job: Job, s: State)
    requires Inv(job, s) && ListInv(job, s) && s.main.Score?
    ensures ListInv(job, MainStep(job, s).value)
  {
    var Score(i, j, k) := s.main;
    if j >= |s.rows| {
      AnchorEnds(job, i, j, k, s.scored);
    } else if k >= |s.rows| {
      PairEnds(job, i, j, k, s.scored);
    } else {
      NextTripleLists(job, s);
    }
  }

  lemma NextTripleLists(job: Job, s: State)
    requires Inv(job, s) && ListInv(job, s) && s.main.Score? && s.main.j < |s.rows| && s.main.k < |s.rows|
    ensures ListInv(job, MainStep(job, s).value)
  {
    var Score(i, j, k) := s.main;
    TripleListed(job, Read(i, j, k, [s.rows[i], s.rows[j], s.rows[k]]), s.scored);
  }

  lemma MainLists(job: Job, s: State)
    requires Inv(job, s) && ListInv(job, s) && MainStep(job, s).Some?
    ensures ListInv(job, MainStep(job, s).value)
  {
    if s.main.Score? {
      ScoreLists(job, s);
    } else if s.main.Anchor? {
      var i := s.main.i;
      if i < job.members && !s.cancelled { CursorMoves(job, (i, 0, 0), (i, i + 1, i + 2), s.scored); }
    }
  }

  lemma {:induction false} ListExecute(job: Job, actions: seq<Action>)
    ensures Execute(job, actions).Some? ==> ListInv(job, Execute(job, actions).value)
  {
    if actions != [] && Execute(job, actions).Some? {
      var before := Execute(job, actions[..|actions| - 1]).value;
      InvExecute(job, actions[..|actions| - 1]);
      ListExecute(job, actions[..|actions| - 1]);
      match actions[|actions| - 1]
      case Main => MainLists(job, before);
      case Worker(w) => WorkerLeavesReaders(job, before, w);
      case Cancel =>
    }
  }

  /** Under every schedule the scored triples are, each once and in lexicographic order, the wanted ones of the
      anchors that were started; all of them unless the request was cancelled, and then no answer is given. */
  lemma ScoredAreWholeAnchors(job: Job, s: State) returns (a: nat)
    requires Reachable(job, s) && s.main == Done
    ensures ListedAnchors(job, a, s.scored)
    ensures !s.cancelled ==> forall t :: Wanted(job, t) ==> exists r <- s.scored :: Key(r) == t
  {
    var actions :| Execute(job, actions) == Some(s);
    ListExecute(job, actions);
    a :| ListedAnchors(job, a, s.scored) && (s.cancelled || a == job.members);
  }

  lemma {:induction false} SumHasPositive(xs: seq<nat>) returns (w: nat)
    requires Sum(xs) > 0
    ensures w < |xs| && xs[w] > 0
  {
    var last := |xs| - 1;
    if xs[last] > 0 { w := last; } else { w := SumHasPositive(xs[..last]); }
  }

  /** No reachable state is stuck: until the main goroutine is done, it or some worker can move. */
  lemma NoDeadlock(job: Job, s: State) returns (a: Action)
    requires Reachable(job, s) && s.main != Done && job.cpus > 0
    ensures !a.Cancel? && Apply(job, s, a).Some?
  {
    InvReachable(job, s);
    a := Main;
    if s.main.TakeSlot? && s.slots >= job.Workers() {
      var w := SumHasPositive(Weigh(s.workers, SlotWeight));
      a := Worker(w);
    } else if s.main.Wait? && s.group > 0 {
      var w := SumHasPositive(Weigh(s.workers, GroupWeight));
      if HoldsSlot(s.workers[w]) { SumPositive(Weigh(s.workers, SlotWeight), w); }
      a := Worker(w);
    }
  }

  /** Steps the worker can still take. */
  function WorkLeft(job: Job, pc: WorkerPc): nat {
    match pc
    case Unstarted => 4 * job.opponents + 5
    case Check(o, _) => 4 * Minus(job.opponents, o) + 4
    case Fill(o, c, _) => 4 * Minus(job.opponents, o) + Minus(3, c)
    case Add(_) => 3
    case FreeSlot => 2
    case Signal => 1
    case Finished => 0
  }

  function Minus(a: nat, b: nat): nat {
    if a < b then 0 else a - b
  }

  /** Steps of the main goroutine before it starts scoring. */
  function SetupLeft(job: Job, main: MainPc): nat {
    match main
    case Spawn(i) => 2 * Minus(job.members, i) + 2
    case TakeSlot(i) => 2 * Minus(job.members, i) + 1
    case Wait => 1
    case _ => 0
  }

  /** Anchors, pairs and triples still to visit, compared in that order. */
  function ScoringLeft(job: Job, main: MainPc): (nat, nat, nat) {
    match main
    case Anchor(i) => (2 * Minus(job.members, i) + 1, 0, 0)
    case Score(i, j, k) => (2 * Minus(job.members, i), Minus(job.members, j), Minus(job.members, k))
    case Done => (0, 0, 0)
    case _ => (2 * job.members + 2, 0, 0)
  }

  function WorkWeight(job: Job): (nat, WorkerPc) -> nat {
    (_, pc) => WorkLeft(job, pc)
  }

  function AllWorkLeft(job: Job, s: State): nat {
    Tally(s.workers, WorkWeight(job))
  }

  /** Every step except a cancellation makes progress in a well-founded order, so with `NoDeadlock`
      every fair schedule ends. */
  lemma EveryStepProgresses(job: Job, s: State, a: Action)
    requires Reachable(job, s) && !a.Cancel? && Apply(job, s, a).Some?
    ensures var s' := Apply(job, s, a).value;
            || SetupLeft(job, s'.main) < SetupLeft(job, s.main)
            || (s'.main == s.main && AllWorkLeft(job, s') < AllWorkLeft(job, s))
            || (s'.workers == s.workers && PastWait(s.main) && PastWait(s'.main)
                && Lower(ScoringLeft(job, s'.main), ScoringLeft(job, s.main)))
  {
    InvReachable(job, s);
    if a.Worker? {
      WorkerProgress(job, s, a.w);
    } else if s.main.Score? {
      TriplesProgress(job, s);
    }
  }

  lemma TriplesProgress(job: Job, s: State)
    requires Inv(job, s) && s.main.Score?
    ensures var s' := MainStep(job, s).value;
            s'.workers == s.workers && PastWait(s'.main) && Lower(ScoringLeft(job, s'.main), ScoringLeft(job, s.main))
  {
  }

  lemma WorkerProgress(job: Job, s: State, w: nat)
    requires Inv(job, s) && WorkerStep(job, s, w).Some?
    ensures var s' := WorkerStep(job, s, w).value; s'.main == s.main && AllWorkLeft(job, s') < AllWorkLeft(job, s)
  {
    WorkerLeavesReaders(job, s, w);
    TallyUpdate(s.workers, w, NextPc(job, s.cancelled, w, s.workers[w]), WorkWeight(job));
  }
}
