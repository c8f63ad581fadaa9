/** internal/rankings/manager.go as a small-step transition system.

    Every goroutine inside `GetRole` is a thread with a program counter. One step is one critical
    section under `mu` or `fetchMuG`, one operation on a per-key mutex, or one local load or upstream
    fetch; the scheduler picks any thread at any time. Disk and network answer through `Choice`. */
module Rankings {
  import opened Wrappers

  datatype RankingEntry = RankingEntry(speciesId: string, moveset: seq<string>)

  /** A parsed payload. `Null` is the JSON document `null`: it decodes without error into a nil slice,
      which every `entries != nil` test reads as a miss. An empty JSON array is `Rows([])`, a hit. */
  datatype Payload = Null | Rows(rows: seq<RankingEntry>)

  datatype Key = Key(cup: string, role: string, cap: int)

  datatype Error = Cancelled | UnknownCup | Upstream

  /** What a call returns; `Served(Null)` is the (nil, nil) return. */
  datatype Outcome = Served(payload: Payload) | Failed(error: Error)

  type Tid = nat
  type LockId = nat

  datatype Pc =
    | CtxCheck
    | Lookup
    | IsNotFound
    | LockFor
    | Acquire(lock: LockId)
    | Relookup(lock: LockId)
    | ReIsNotFound(lock: LockId)
    | LoadLocal(lock: LockId)
    | Fetch(lock: LockId)
    | StoreInMemory(lock: LockId, payload: Payload)
    | StoreNotFound(lock: LockId)
    | Release(lock: LockId, outcome: Outcome)
    | Returned(outcome: Outcome)

  datatype Thread = Thread(key: Key, pc: Pc)

  /** The expensive events of one key, in the order they happen. */
  datatype Event = LocalLoad(payload: Payload) | UpstreamFetch(payload: Payload) | Upstream404

  datatype State = State(
    cache: map<Key, Payload>,
    notFound: set<Key>,
    fetchMu: map<Key, LockId>,
    holder: seq<Option<Tid>>,      // one entry per mutex ever created
    threads: map<Tid, Thread>,
    log: map<Key, seq<Event>>)

  const Init := State(map[], {}, map[], [], map[], map[])

  /** The environment's part of a step. `Broken` is any failure that is not a 404. */
  datatype Choice = Proceed | Cancel | Answer(payload: Payload) | NotFound404 | Broken

  function Log(s: State, k: Key): seq<Event> {
    if k in s.log then s.log[k] else []
  }

  /** Only thread `t` has moved. */
  ghost predicate OnlyMoves(before: map<Tid, Thread>, after: map<Tid, Thread>, t: Tid) {
    && t in before && after.Keys == before.Keys
    && after[t].key == before[t].key
    && (forall u <- before | u != t :: after[u] == before[u])
  }

  predicate Hit(s: State, k: Key) {
    k in s.cache && s.cache[k].Rows?
  }

  /** `lockFor`: the mutex already registered for the key, else a new one. */
  function MutexFor(s: State, k: Key): LockId {
    if k in s.fetchMu then s.fetchMu[k] else |s.holder|
  }

  /** Where a thread working on `k` goes next. */
  function NextPc(s: State, k: Key, pc: Pc, c: Choice): Pc {
    match pc
    case CtxCheck => if c.Cancel? then Returned(Failed(Cancelled)) else Lookup
    case Lookup =>
      // A cached nil slice is "found": the negative cache is not consulted for it.
      if Hit(s, k) then Returned(Served(s.cache[k])) else if k in s.cache then LockFor else IsNotFound
    case IsNotFound => if k in s.notFound then Returned(Failed(UnknownCup)) else LockFor
    case LockFor => Acquire(MutexFor(s, k))
    case Acquire(l) => Relookup(l)
    case Relookup(l) =>
      if Hit(s, k) then Release(l, Served(s.cache[k])) else if k in s.cache then LoadLocal(l) else ReIsNotFound(l)
    case ReIsNotFound(l) => if k in s.notFound then Release(l, Failed(UnknownCup)) else LoadLocal(l)
    case LoadLocal(l) => if c.Answer? then StoreInMemory(l, c.payload) else Fetch(l)
    case Fetch(l) =>
      if c.Answer? then StoreInMemory(l, c.payload)
      else if c.NotFound404? then StoreNotFound(l)
      else Release(l, Failed(Upstream))
    case StoreInMemory(l, p) => Release(l, Served(p))
    case StoreNotFound(l) => Release(l, Failed(UnknownCup))
    case Release(_, o) => Returned(o)
    case Returned(o) => Returned(o)
  }

  /** The expensive event that the step performs, if any. */
  function EventOf(pc: Pc, c: Choice): seq<Event> {
    if pc.LoadLocal? && c.Answer? then [LocalLoad(c.payload)]
    else if pc.Fetch? && c.Answer? then [UpstreamFetch(c.payload)]
    else if pc.Fetch? && c.NotFound404? then [Upstream404]
    else []
  }

  /** A thread waits only for a mutex that somebody holds, and never moves again once it has returned. */
  predicate Blocked(s: State, pc: Pc) {
    || pc.Returned?
    || (pc.Acquire? && !(pc.lock < |s.holder| && s.holder[pc.lock] == None))
    || (pc.Release? && !(pc.lock < |s.holder|))
  }

  function NextHolder(s: State, t: Tid, k: Key, pc: Pc): seq<Option<Tid>>
    requires !Blocked(s, pc)
  {
    if pc.LockFor? && k !in s.fetchMu then s.holder + [None]
    else if pc.Acquire? then s.holder[pc.lock := Some(t)]
    else if pc.Release? then s.holder[pc.lock := None]
    else s.holder
  }

  /** One step of thread `t`; None when it cannot move. */
  function ThreadStep(s: State, t: Tid, c: Choice): Option<State> {
    if t !in s.threads || Blocked(s, s.threads[t].pc) then None else
    var Thread(k, pc) := s.threads[t];
    Some(State(
      cache := if pc.StoreInMemory? then s.cache[k := pc.payload] else s.cache,
      notFound := if pc.StoreNotFound? then s.notFound + {k} else s.notFound,
      fetchMu := if pc.LockFor? then s.fetchMu[k := MutexFor(s, k)] else s.fetchMu,
      holder := NextHolder(s, t, k, pc),
      threads := s.threads[t := Thread(k, NextPc(s, k, pc, c))],
      log := s.log[k := Log(s, k) + EventOf(pc, c)]))
  }

  datatype Action = Call(tid: Tid, key: Key) | Step(tid: Tid, choice: Choice)

  function Apply(s: State, a: Action): Option<State> {
    match a
    case Call(t, k) =>
      if t in s.threads then None else Some(s.(threads := s.threads[t := Thread(k, CtxCheck)]))
    case Step(t, c) => ThreadStep(s, t, c)
  }

  /** The state after a whole schedule, None when some step of it was not enabled. */
  function Execute(actions: seq<Action>): Option<State> {
    if actions == [] then Some(Init)
    else
      match Execute(actions[..|actions| - 1])
      case None => None
      case Some(s) => Apply(s, actions[|actions| - 1])
  }

  /** `env` is the set of payloads that disk and upstream can ever produce. */
  ghost predicate Allowed(env: iset<Payload>, a: Action) {
    a.Step? && a.choice.Answer? ==> a.choice.payload in env
  }

  ghost predicate Schedule(env: iset<Payload>, actions: seq<Action>, s: State) {
    (forall a <- actions :: Allowed(env, a)) && Execute(actions) == Some(s)
  }

  ghost predicate Reachable(env: iset<Payload>, s: State) {
    exists actions :: Schedule(env, actions, s)
  }

  // ---------------------------------------------------------------- the invariant

  predicate InSection(pc: Pc) {
    pc.Relookup? || pc.ReIsNotFound? || pc.LoadLocal? || pc.Fetch? || pc.StoreInMemory?
    || pc.StoreNotFound? || pc.Release?
  }

  /** Past the second lookup: this thread is the one doing the expensive work. */
  predicate Loading(pc: Pc) {
    pc.ReIsNotFound? || pc.LoadLocal? || pc.Fetch? || pc.StoreInMemory? || pc.StoreNotFound?
  }

  ghost predicate LockInv(s: State) {
    && (forall k <- s.fetchMu :: s.fetchMu[k] < |s.holder|)
    && (forall k <- s.fetchMu, k' <- s.fetchMu :: s.fetchMu[k] == s.fetchMu[k'] ==> k == k')
    && (forall t <- s.threads :: HasItsMutex(s, t))
    && (forall l, t :: 0 <= l < |s.holder| && s.holder[l] == Some(t) ==> Holds(s, t, l))
  }

  ghost predicate HasItsMutex(s: State, t: Tid)
    requires t in s.threads
  {
    var Thread(k, pc) := s.threads[t];
    && (pc.Acquire? || InSection(pc) ==> k in s.fetchMu && s.fetchMu[k] == pc.lock < |s.holder|)
    && (InSection(pc) ==> s.holder[pc.lock] == Some(t))
  }

  ghost predicate Holds(s: State, t: Tid, l: LockId) {
    t in s.threads && InSection(s.threads[t].pc) && s.threads[t].pc.lock == l
  }

  /** No `null` document has been loaded for this key so far. */
  ghost predicate Clean(s: State, k: Key) {
    LocalLoad(Null) !in Log(s, k) && UpstreamFetch(Null) !in Log(s, k)
  }

  ghost predicate Stores(s: State, t: Tid, k: Key) {
    t in s.threads && s.threads[t].key == k && (s.threads[t].pc.StoreInMemory? || s.threads[t].pc.StoreNotFound?)
  }

  ghost predicate Loads(log: seq<Event>, p: Payload) {
    log == [LocalLoad(p)] || log == [UpstreamFetch(p)]
  }

  ghost predicate PcOk(s: State, k: Key, pc: Pc) {
    match pc
    case ReIsNotFound(_) => k !in s.cache
    case LoadLocal(_) => k !in s.cache && k !in s.notFound && Log(s, k) == []
    case Fetch(_) => k !in s.cache && k !in s.notFound && Log(s, k) == []
    case StoreInMemory(_, p) => k !in s.cache && k !in s.notFound && p.Rows? && Loads(Log(s, k), p)
    case StoreNotFound(_) => k !in s.cache && k !in s.notFound && Log(s, k) == [Upstream404]
    case Release(_, o) => Answered(s, k, o)
    case Returned(o) => Answered(s, k, o)
    case _ => true
  }

  /** A finished call agrees with what the two caches now say about its key. */
  ghost predicate Answered(s: State, k: Key, o: Outcome) {
    && (o.Served? ==> Hit(s, k) && s.cache[k] == o.payload)
    && (o == Failed(UnknownCup) ==> k in s.notFound)
  }

  ghost predicate KeyInv(s: State, k: Key) {
    && (k in s.cache ==> k !in s.notFound && s.cache[k].Rows? && Loads(Log(s, k), s.cache[k]))
    && (k in s.notFound ==> Log(s, k) == [Upstream404])
    && (k !in s.cache && k !in s.notFound && Log(s, k) != [] ==> exists t :: Stores(s, t, k))
    && (forall t <- s.threads | s.threads[t].key == k :: PcOk(s, k, s.threads[t].pc))
  }

  ghost predicate Inv(s: State) {
    && LockInv(s)
    && (forall t <- s.threads :: Loading(s.threads[t].pc) ==> !Hit(s, s.threads[t].key))
    && (forall k :: Clean(s, k) ==> KeyInv(s, k))
  }

  lemma QuietStepKeeps(s: State, s': State, t: Tid)
    requires LockInv(s) && OnlyMoves(s.threads, s'.threads, t) && s'.fetchMu == s.fetchMu && s'.holder == s.holder
    requires !s'.threads[t].pc.Acquire? && (InSection(s.threads[t].pc) <==> InSection(s'.threads[t].pc))
    requires InSection(s.threads[t].pc) ==> s'.threads[t].pc.lock == s.threads[t].pc.lock
    ensures LockInv(s')
  {
    assert HasItsMutex(s, t);
    forall u <- s'.threads ensures HasItsMutex(s', u) {
      if u != t { assert HasItsMutex(s, u); }
    }
    forall l, u | 0 <= l < |s'.holder| && s'.holder[l] == Some(u) ensures Holds(s', u, l) {
      assert Holds(s, u, l);
    }
  }

  lemma LockForKeeps(s: State, t: Tid, c: Choice)
    requires LockInv(s) && t in s.threads && s.threads[t].pc.LockFor?
    ensures LockInv(ThreadStep(s, t, c).value)
  {
    var s' := ThreadStep(s, t, c).value;
    LockForKeepsMutexes(s, t, c);
    forall l, u | 0 <= l < |s'.holder| && s'.holder[l] == Some(u) ensures Holds(s', u, l) {
      assert Holds(s, u, l);
    }
  }

  lemma LockForKeepsMutexes(s: State, t: Tid, c: Choice)
    requires LockInv(s) && t in s.threads && s.threads[t].pc.LockFor?
    ensures var s' := ThreadStep(s, t, c).value; forall u <- s'.threads :: HasItsMutex(s', u)
  {
    var s' := ThreadStep(s, t, c).value;
    forall u <- s'.threads ensures HasItsMutex(s', u) {
      if u != t { assert HasItsMutex(s, u); }
    }
  }

  lemma AcquireKeeps(s: State, t: Tid, c: Choice)
    requires LockInv(s) && t in s.threads && s.threads[t].pc.Acquire? && ThreadStep(s, t, c).Some?
    ensures LockInv(ThreadStep(s, t, c).value)
  {
    var s' := ThreadStep(s, t, c).value;
    var m := s.threads[t].pc.lock;
    assert HasItsMutex(s, t);
    forall u <- s'.threads ensures HasItsMutex(s', u) {
      if u != t { assert HasItsMutex(s, u); }
    }
    forall l, u | 0 <= l < |s'.holder| && s'.holder[l] == Some(u) ensures Holds(s', u, l) {
      if l != m { assert Holds(s, u, l); }
    }
  }

  lemma ReleaseKeeps(s: State, t: Tid, c: Choice)
    requires LockInv(s) && t in s.threads && s.threads[t].pc.Release? && ThreadStep(s, t, c).Some?
    ensures LockInv(ThreadStep(s, t, c).value)
  {
    var s' := ThreadStep(s, t, c).value;
    var m := s.threads[t].pc.lock;
    assert HasItsMutex(s, t);
    forall u <- s'.threads ensures HasItsMutex(s', u) {
      if u != t { assert HasItsMutex(s, u); }
    }
    forall l, u | 0 <= l < |s'.holder| && s'.holder[l] == Some(u) ensures Holds(s', u, l) {
      assert l != m && Holds(s, u, l);
    }
  }

  lemma StepFrame(s: State, t: Tid, c: Choice)
    requires ThreadStep(s, t, c).Some?
    ensures OnlyMoves(s.threads, ThreadStep(s, t, c).value.threads, t)
  {
  }

  lemma StepLocks(s: State, t: Tid, c: Choice)
    requires ThreadStep(s, t, c).Some?
    ensures var pc, s' := s.threads[t].pc, ThreadStep(s, t, c).value;
            !pc.LockFor? && !pc.Acquire? && !pc.Release? ==>
              && s'.fetchMu == s.fetchMu && s'.holder == s.holder && !s'.threads[t].pc.Acquire?
              && (InSection(pc) <==> InSection(s'.threads[t].pc))
              && (InSection(pc) ==> s'.threads[t].pc.lock == pc.lock)
  {
  }

  lemma LockInvStep(s: State, t: Tid, c: Choice)
    requires LockInv(s) && ThreadStep(s, t, c).Some?
    ensures LockInv(ThreadStep(s, t, c).value)
  {
    var pc := s.threads[t].pc;
    if pc.LockFor? {
      LockForKeeps(s, t, c);
    } else if pc.Acquire? {
      AcquireKeeps(s, t, c);
    } else if pc.Release? {
      ReleaseKeeps(s, t, c);
    } else {
      StepFrame(s, t, c);
      StepLocks(s, t, c);
      QuietStepKeeps(s, ThreadStep(s, t, c).value, t);
    }
  }

  /** Two threads past their `Lock` of one key's mutex are the same thread. */
  lemma SectionUnique(s: State, t: Tid, u: Tid)
    requires LockInv(s) && t in s.threads && u in s.threads && s.threads[t].key == s.threads[u].key
    requires InSection(s.threads[t].pc) && InSection(s.threads[u].pc)
    ensures t == u
  {
    assert HasItsMutex(s, t) && HasItsMutex(s, u);
  }

  lemma HitGuardStep(s: State, t: Tid, c: Choice)
    requires Inv(s) && ThreadStep(s, t, c).Some?
    ensures var s' := ThreadStep(s, t, c).value;
            forall u <- s'.threads :: Loading(s'.threads[u].pc) ==> !Hit(s', s'.threads[u].key)
  {
    var s' := ThreadStep(s, t, c).value;
    forall u <- s'.threads | Loading(s'.threads[u].pc) ensures !Hit(s', s'.threads[u].key) {
      if u != t && s.threads[t].pc.StoreInMemory? && s.threads[u].key == s.threads[t].key {
        SectionUnique(s, t, u);
      }
    }
  }

  /** A step that touches neither cache and logs nothing for `k` keeps `KeyInv(k)` once its own new
      program counter is right. */
  lemma KeyInvQuiet(s: State, s': State, t: Tid, k: Key)
    requires KeyInv(s, k) && OnlyMoves(s.threads, s'.threads, t) && Log(s', k) == Log(s, k)
    requires (k in s'.cache <==> k in s.cache) && (k in s.cache ==> s'.cache[k] == s.cache[k])
    requires k in s'.notFound <==> k in s.notFound
    requires s'.threads[t].key == k ==> PcOk(s', k, s'.threads[t].pc)
    requires Stores(s, t, k) ==> Stores(s', t, k)
    ensures KeyInv(s', k)
  {
    if k !in s'.cache && k !in s'.notFound && Log(s', k) != [] {
      var u :| Stores(s, u, k);
      assert Stores(s', u, k);
    }
    forall u <- s'.threads | s'.threads[u].key == k ensures PcOk(s', k, s'.threads[u].pc) {
      if u != t { assert PcOk(s, k, s.threads[u].pc); }
    }
  }

  /** A step inside the section that writes a cache or the log: nobody else is in the section. */
  lemma KeyInvWrite(s: State, s': State, t: Tid, k: Key)
    requires LockInv(s) && KeyInv(s, k) && OnlyMoves(s.threads, s'.threads, t) && s.threads[t].key == k
    requires s.threads[t].pc.LoadLocal? || s.threads[t].pc.Fetch? || s.threads[t].pc.StoreInMemory? ||
               s.threads[t].pc.StoreNotFound?
    requires PcOk(s', k, s'.threads[t].pc)
    requires k in s'.cache ==> k !in s'.notFound && s'.cache[k].Rows? && Loads(Log(s', k), s'.cache[k])
    requires k in s'.notFound ==> Log(s', k) == [Upstream404]
    requires k in s'.cache || k in s'.notFound || Stores(s', t, k)
    ensures KeyInv(s', k)
  {
    assert PcOk(s, k, s.threads[t].pc);
    forall u <- s'.threads | s'.threads[u].key == k ensures PcOk(s', k, s'.threads[u].pc) {
      if u != t {
        assert PcOk(s, k, s.threads[u].pc);
        if InSection(s.threads[u].pc) { SectionUnique(s, t, u); }
      }
    }
  }

  lemma KeyInvOtherKey(s: State, t: Tid, c: Choice, k: Key)
    requires KeyInv(s, k) && ThreadStep(s, t, c).Some? && s.threads[t].key != k
    ensures KeyInv(ThreadStep(s, t, c).value, k)
  {
    StepFrame(s, t, c);
    KeyInvQuiet(s, ThreadStep(s, t, c).value, t, k);
  }

  lemma KeyInvBeforeLock(s: State, t: Tid, c: Choice)
    requires ThreadStep(s, t, c).Some?
    requires KeyInv(s, s.threads[t].key)
    requires !InSection(s.threads[t].pc)
    ensures KeyInv(ThreadStep(s, t, c).value, s.threads[t].key)
  {
    var k := s.threads[t].key;
    StepFrame(s, t, c);
    assert PcOk(s, k, s.threads[t].pc);
    KeyInvQuiet(s, ThreadStep(s, t, c).value, t, k);
  }

  lemma KeyInvRecheck(s: State, t: Tid, c: Choice)
    requires LockInv(s) && t in s.threads && KeyInv(s, s.threads[t].key)
    requires s.threads[t].pc.Relookup? || s.threads[t].pc.ReIsNotFound?
    ensures KeyInv(ThreadStep(s, t, c).value, s.threads[t].key)
  {
    var k := s.threads[t].key;
    StepFrame(s, t, c);
    assert PcOk(s, k, s.threads[t].pc);
    NobodyElseStores(s, t, k);
    KeyInvQuiet(s, ThreadStep(s, t, c).value, t, k);
  }

  lemma KeyInvLoad(s: State, t: Tid, c: Choice)
    requires LockInv(s) && t in s.threads && KeyInv(s, s.threads[t].key)
    requires s.threads[t].pc.LoadLocal? || s.threads[t].pc.Fetch?
    requires Clean(ThreadStep(s, t, c).value, s.threads[t].key)
    ensures KeyInv(ThreadStep(s, t, c).value, s.threads[t].key)
  {
    var k, s' := s.threads[t].key, ThreadStep(s, t, c).value;
    StepFrame(s, t, c);
    assert PcOk(s, k, s.threads[t].pc);
    if c.Answer? {
      NewEventIsClean(s, t, c);
      assert Stores(s', t, k);
      KeyInvWrite(s, s', t, k);
    } else if s.threads[t].pc.Fetch? && c.NotFound404? {
      assert Stores(s', t, k);
      KeyInvWrite(s, s', t, k);
    } else {
      KeyInvQuiet(s, s', t, k);
    }
  }

  lemma KeyInvStore(s: State, t: Tid, c: Choice)
    requires LockInv(s) && t in s.threads && KeyInv(s, s.threads[t].key)
    requires s.threads[t].pc.StoreInMemory? || s.threads[t].pc.StoreNotFound?
    ensures KeyInv(ThreadStep(s, t, c).value, s.threads[t].key)
  {
    var k := s.threads[t].key;
    StepFrame(s, t, c);
    assert PcOk(s, k, s.threads[t].pc);
    KeyInvWrite(s, ThreadStep(s, t, c).value, t, k);
  }

  lemma KeyInvRelease(s: State, t: Tid, c: Choice)
    requires ThreadStep(s, t, c).Some? && s.threads[t].pc.Release? && KeyInv(s, s.threads[t].key)
    ensures KeyInv(ThreadStep(s, t, c).value, s.threads[t].key)
  {
    var k := s.threads[t].key;
    StepFrame(s, t, c);
    assert PcOk(s, k, s.threads[t].pc);
    KeyInvQuiet(s, ThreadStep(s, t, c).value, t, k);
  }

  lemma KeyInvStep(s: State, t: Tid, c: Choice, k: Key)
    requires Inv(s) && ThreadStep(s, t, c).Some? && Clean(ThreadStep(s, t, c).value, k)
    ensures KeyInv(ThreadStep(s, t, c).value, k)
  {
    var pc := s.threads[t].pc;
    CleanStep(s, t, c, k);
    if s.threads[t].key != k {
      KeyInvOtherKey(s, t, c, k);
    } else if !InSection(pc) {
      KeyInvBeforeLock(s, t, c);
    } else if pc.Relookup? || pc.ReIsNotFound? {
      KeyInvRecheck(s, t, c);
    } else if pc.LoadLocal? || pc.Fetch? {
      KeyInvLoad(s, t, c);
    } else if pc.StoreInMemory? || pc.StoreNotFound? {
      KeyInvStore(s, t, c);
    } else {
      KeyInvRelease(s, t, c);
    }
  }

  lemma NobodyElseStores(s: State, t: Tid, k: Key)
    requires LockInv(s) && t in s.threads && s.threads[t].key == k
    requires s.threads[t].pc.Relookup? || s.threads[t].pc.ReIsNotFound?
    ensures !exists u :: Stores(s, u, k)
  {
    forall u | Stores(s, u, k) ensures false {
      SectionUnique(s, t, u);
    }
  }

  lemma CleanStep(s: State, t: Tid, c: Choice, k: Key)
    requires ThreadStep(s, t, c).Some? && Clean(ThreadStep(s, t, c).value, k)
    ensures Clean(s, k)
  {
    var s' := ThreadStep(s, t, c).value;
    assert Log(s', k) == Log(s, k) || Log(s', k) == Log(s, k) + [Log(s', k)[|Log(s', k)| - 1]];
  }

  lemma NewEventIsClean(s: State, t: Tid, c: Choice)
    requires t in s.threads && (s.threads[t].pc.LoadLocal? || s.threads[t].pc.Fetch?) && c.Answer?
    requires Clean(ThreadStep(s, t, c).value, s.threads[t].key)
    ensures c.payload.Rows?
  {
    var s' := ThreadStep(s, t, c).value;
    var log := Log(s', s.threads[t].key);
    assert log[|log| - 1] in log;
  }

  lemma InvApply(s: State, a: Action)
    requires Inv(s) && Apply(s, a).Some?
    ensures Inv(Apply(s, a).value)
  {
    var s' := Apply(s, a).value;
    match a
    case Call(t, key) =>
      forall u <- s'.threads ensures HasItsMutex(s', u) {
        if u != t { assert HasItsMutex(s, u); }
      }
      forall l, u | 0 <= l < |s'.holder| && s'.holder[l] == Some(u) ensures Holds(s', u, l) {
        assert Holds(s, u, l);
      }
      forall k | Clean(s', k) ensures KeyInv(s', k) {
        assert Clean(s, k) && KeyInv(s, k);
        if k !in s'.cache && k !in s'.notFound && Log(s', k) != [] {
          var u :| Stores(s, u, k);
          assert Stores(s', u, k);
        }
        forall u <- s'.threads | s'.threads[u].key == k ensures PcOk(s', k, s'.threads[u].pc) {
          if u != t { assert PcOk(s, k, s.threads[u].pc); }
        }
      }
    case Step(t, c) =>
      LockInvStep(s, t, c);
      HitGuardStep(s, t, c);
      forall k | Clean(s', k) ensures KeyInv(s', k) {
        KeyInvStep(s, t, c, k);
      }
  }

  lemma {:induction false} InvExecute(actions: seq<Action>)
    ensures Execute(actions).Some? ==> Inv(Execute(actions).value)
  {
    if actions != [] && Execute(actions).Some? {
      var before := actions[..|actions| - 1];
      InvExecute(before);
      InvApply(Execute(before).value, actions[|actions| - 1]);
    }
  }

  lemma InvReachable(env: iset<Payload>, s: State)
    requires Reachable(env, s)
    ensures Inv(s)
  {
    var actions :| Schedule(env, actions, s);
    InvExecute(actions);
  }

  // ---------------------------------------------------------------- what callers may rely on

  /** At most one caller per key is ever between `Lock` and `Unlock` of that key's mutex. */
  lemma OneLoaderPerKey(env: iset<Payload>, s: State, t: Tid, u: Tid)
    requires Reachable(env, s) && t in s.threads && u in s.threads && s.threads[t].key == s.threads[u].key
    requires InSection(s.threads[t].pc) && InSection(s.threads[u].pc)
    ensures t == u
  {
    InvReachable(env, s);
    SectionUnique(s, t, u);
  }

  /** Until a `null` document is loaded for a key, the key has seen at most one of {local load, upstream
      fetch, 404}, and the caches are disjoint and record exactly that event. */
  lemma SingleFlight(env: iset<Payload>, s: State, k: Key)
    requires Reachable(env, s) && Clean(s, k)
    ensures |Log(s, k)| <= 1
    ensures !(k in s.cache && k in s.notFound)
    ensures k in s.cache ==> Loads(Log(s, k), s.cache[k]) && s.cache[k].Rows?
    ensures k in s.notFound ==> Log(s, k) == [Upstream404]
  {
    InvReachable(env, s);
    assert KeyInv(s, k);
    if k !in s.cache && k !in s.notFound && Log(s, k) != [] {
      var t :| Stores(s, t, k);
      assert PcOk(s, k, s.threads[t].pc);
    }
  }

  /** All successful calls for a key return the same entries, and a key answered with entries is never
      also answered with `ErrUnknownCup`. */
  lemma SameAnswer(env: iset<Payload>, s: State, t: Tid, u: Tid)
    requires Reachable(env, s) && t in s.threads && u in s.threads && s.threads[t].key == s.threads[u].key
    requires Clean(s, s.threads[t].key)
    requires s.threads[t].pc.Returned? && s.threads[u].pc.Returned? && s.threads[t].pc.outcome.Served?
    ensures var o := s.threads[u].pc.outcome;
            && (o.Served? ==> o == s.threads[t].pc.outcome && o.payload.Rows?)
            && o != Failed(UnknownCup)
  {
    var k := s.threads[t].key;
    InvReachable(env, s);
    assert KeyInv(s, k) && PcOk(s, k, s.threads[t].pc) && PcOk(s, k, s.threads[u].pc);
  }

  /** Whatever else was loaded before: once entries are in memory for a key, no step replaces them and
      no step loads or fetches that key again. */
  lemma CachedEntriesAreFinal(env: iset<Payload>, s: State, a: Action, k: Key)
    requires Reachable(env, s) && Apply(s, a).Some? && Hit(s, k)
    ensures var s' := Apply(s, a).value; Hit(s', k) && s'.cache[k] == s.cache[k] && Log(s', k) == Log(s, k)
  {
    InvReachable(env, s);
  }

  /** No reachable state deadlocks: a call that has not returned can move itself, or is waiting for the
      mutex of its key while the holder, a call for the same key, can move. */
  lemma NoDeadlock(env: iset<Payload>, s: State, t: Tid, c: Choice) returns (u: Tid)
    requires Reachable(env, s) && t in s.threads && !s.threads[t].pc.Returned?
    ensures u in s.threads && s.threads[u].key == s.threads[t].key && ThreadStep(s, u, c).Some?
    ensures u == t || (s.threads[t].pc.Acquire? && InSection(s.threads[u].pc))
  {
    InvReachable(env, s);
    assert HasItsMutex(s, t);
    u := t;
    if s.threads[t].pc.Acquire? && s.holder[s.threads[t].pc.lock].Some? {
      u := s.holder[s.threads[t].pc.lock].value;
      assert Holds(s, u, s.threads[t].pc.lock) && HasItsMutex(s, u);
    }
  }

  /** Steps a call can still take; together with `NoDeadlock`, every call returns. */
  function Remaining(pc: Pc): nat {
    match pc
    case CtxCheck => 11
    case Lookup => 10
    case IsNotFound => 9
    case LockFor => 8
    case Acquire(_) => 7
    case Relookup(_) => 6
    case ReIsNotFound(_) => 5
    case LoadLocal(_) => 4
    case Fetch(_) => 3
    case StoreInMemory(_, _) => 2
    case StoreNotFound(_) => 2
    case Release(_, _) => 1
    case Returned(_) => 0
  }

  lemma CallsTakeBoundedSteps(s: State, t: Tid, c: Choice)
    requires ThreadStep(s, t, c).Some?
    ensures var s' := ThreadStep(s, t, c).value;
            && s'.threads.Keys == s.threads.Keys
            && Remaining(s'.threads[t].pc) < Remaining(s.threads[t].pc)
            && (forall u <- s.threads | u != t :: s'.threads[u] == s.threads[u])
  {
  }

  // ---------------------------------------------------------------- what a call answers

  /** What a call gets to see on its way: the state of its context, the two caches, the disk and the network. */
  datatype Met =
    | SawContext(cancelled: bool)
    | SawCache(found: Option<Payload>)
    | SawNotFound(memoised: bool)
    | ReadDisk(loaded: Option<Payload>)
    | AskedUpstream(reply: Choice)

  function Meets(s: State, k: Key, pc: Pc, c: Choice): seq<Met> {
    match pc
    case CtxCheck => [SawContext(c.Cancel?)]
    case Lookup => [SawCache(if k in s.cache then Some(s.cache[k]) else None)]
    case Relookup(_) => [SawCache(if k in s.cache then Some(s.cache[k]) else None)]
    case IsNotFound => [SawNotFound(k in s.notFound)]
    case ReIsNotFound(_) => [SawNotFound(k in s.notFound)]
    case LoadLocal(_) => [ReadDisk(if c.Answer? then Some(c.payload) else None)]
    case Fetch(_) => [AskedUpstream(c)]
    case _ => []
  }

  /** All that call `t` has met in a schedule. */
  function History(actions: seq<Action>, t: Tid): seq<Met> {
    if actions == [] then []
    else
      var before, a := actions[..|actions| - 1], actions[|actions| - 1];
      History(before, t) +
      match Execute(before)
      case None => []
      case Some(s) =>
        if a.Step? && a.tid == t && t in s.threads then Meets(s, s.threads[t].key, s.threads[t].pc, a.choice) else []
  }

  /** What settles a call. Entries are served wherever they are found; `null` settles it only when just loaded. */
  function Verdict(m: Met): Option<Outcome> {
    match m
    case SawContext(cancelled) => if cancelled then Some(Failed(Cancelled)) else None
    case SawCache(found) => if found.Some? && found.value.Rows? then Some(Served(found.value)) else None
    case SawNotFound(memoised) => if memoised then Some(Failed(UnknownCup)) else None
    case ReadDisk(loaded) => if loaded.Some? then Some(Served(loaded.value)) else None
    case AskedUpstream(reply) =>
      if reply.Answer? then Some(Served(reply.payload))
      else if reply.NotFound404? then Some(Failed(UnknownCup))
      else Some(Failed(Upstream))
  }

  ghost predicate Undecided(h: seq<Met>) {
    forall m <- h :: Verdict(m) == None
  }

  /** The last thing met settled the call, and nothing before it did. */
  ghost predicate Settled(h: seq<Met>, o: Outcome) {
    h != [] && Undecided(h[..|h| - 1]) && Verdict(h[|h| - 1]) == Some(o)
  }

  /** What can come next in the source: first the context, then both caches, both again, the disk, the network. The
      negative cache is read exactly after the positive one knew nothing of the key. */
  ghost predicate Follows(h: seq<Met>, m: Met) {
    && (m.SawContext? <==> h == [])
    && (m.SawNotFound? <==> h != [] && h[|h| - 1] == SawCache(None))
    && (m.SawCache? ==> Lookups(h) < 2)
    && (m.ReadDisk? ==> Lookups(h) == 2)
    && (m.AskedUpstream? <==> h != [] && h[|h| - 1].ReadDisk?)
  }

  ghost predicate InOrder(h: seq<Met>) {
    h == [] || (InOrder(h[..|h| - 1]) && Follows(h[..|h| - 1], h[|h| - 1]))
  }

  function Lookups(h: seq<Met>): nat {
    if h == [] then 0 else Lookups(h[..|h| - 1]) + (if h[|h| - 1].SawCache? then 1 else 0)
  }

  /** Where the call stands after what it has met. */
  ghost predicate Stands(pc: Pc, h: seq<Met>) {
    && InOrder(h)
    && match pc
       case CtxCheck => h == []
       case Lookup => PastLookup(h, 0) && h[|h| - 1].SawContext?
       case IsNotFound => PastLookup(h, 1) && h[|h| - 1] == SawCache(None)
       case LockFor => PastCaches(h, 1)
       case Acquire(_) => PastCaches(h, 1)
       case Relookup(_) => PastCaches(h, 1)
       case ReIsNotFound(_) => PastLookup(h, 2) && h[|h| - 1] == SawCache(None)
       case LoadLocal(_) => PastCaches(h, 2)
       case Fetch(_) => Undecided(h) && h != [] && h[|h| - 1].ReadDisk?
       case StoreInMemory(_, p) => Settled(h, Served(p))
       case StoreNotFound(_) => Settled(h, Failed(UnknownCup))
       case Release(_, o) => Settled(h, o)
       case Returned(o) => Settled(h, o)
  }

  ghost predicate PastLookup(h: seq<Met>, n: nat) {
    Undecided(h) && h != [] && Lookups(h) == n
  }

  ghost predicate PastCaches(h: seq<Met>, n: nat) {
    PastLookup(h, n) && h[|h| - 1] != SawCache(None) && !h[|h| - 1].ReadDisk?
  }

  lemma MetNext(h: seq<Met>, m: Met)
    requires InOrder(h) && Follows(h, m) && Undecided(h)
    ensures var all := h + [m];
            && InOrder(all) && all != [] && all[|all| - 1] == m
            && Lookups(all) == Lookups(h) + (if m.SawCache? then 1 else 0)
            && (Verdict(m) == None ==> Undecided(all))
            && (Verdict(m).Some? ==> Settled(all, Verdict(m).value))
  {
    assert (h + [m])[..|h|] == h;
  }

  /** A step leaves its call where what it met says. */
  lemma StepStands(s: State, t: Tid, c: Choice, h: seq<Met>)
    requires ThreadStep(s, t, c).Some? && Stands(s.threads[t].pc, h)
    ensures var Thread(k, pc) := s.threads[t]; Stands(NextPc(s, k, pc, c), h + Meets(s, k, pc, c))
  {
    var Thread(k, pc) := s.threads[t];
    if Meets(s, k, pc, c) == [] {
      assert h + [] == h;
    } else if pc.CtxCheck? {
      ContextStands(h, c.Cancel?);
    } else if InSection(pc) {
      SectionStands(s, k, pc, c, h);
    } else {
      MetNext(h, Meets(s, k, pc, c)[0]);
    }
  }

  lemma SectionStands(s: State, k: Key, pc: Pc, c: Choice, h: seq<Met>)
    requires InSection(pc) && Stands(pc, h) && Meets(s, k, pc, c) != []
    ensures Stands(NextPc(s, k, pc, c), h + Meets(s, k, pc, c))
  {
    MetNext(h, Meets(s, k, pc, c)[0]);
  }

  lemma ContextStands(h: seq<Met>, cancelled: bool)
    requires h == []
    ensures Stands(if cancelled then Returned(Failed(Cancelled)) else Lookup, h + [SawContext(cancelled)])
  {
    MetNext(h, SawContext(cancelled));
  }

  lemma {:induction false} HistoryStands(actions: seq<Action>, t: Tid)
    requires Execute(actions).Some?
    ensures var s := Execute(actions).value;
            if t in s.threads then Stands(s.threads[t].pc, History(actions, t)) else History(actions, t) == []
  {
    if actions != [] {
      var before, a := actions[..|actions| - 1], actions[|actions| - 1];
      var s := Execute(before).value;
      HistoryStands(before, t);
      if a.Step? && a.tid == t {
        StepStands(s, t, a.choice, History(before, t));
      } else {
        assert History(actions, t) == History(before, t);
      }
    }
  }

  /** A call that has returned answers what it met: it met something that settles it, last of all; it met the sources in
      their order; and it returned exactly that verdict. */
  lemma AnswersWhatItMet(env: iset<Payload>, actions: seq<Action>, s: State, t: Tid)
    requires Schedule(env, actions, s) && t in s.threads && s.threads[t].pc.Returned?
    ensures Settled(History(actions, t), s.threads[t].pc.outcome) && InOrder(History(actions, t))
  {
    HistoryStands(actions, t);
  }

  /** The same outcome by outcome. In particular a call that finds entries in memory returns those entries. */
  lemma OutcomesExactly(env: iset<Payload>, actions: seq<Action>, s: State, t: Tid)
    requires Schedule(env, actions, s) && t in s.threads && s.threads[t].pc.Returned?
    ensures var h, o := History(actions, t), s.threads[t].pc.outcome;
            && (o == Failed(Cancelled) <==> SawContext(true) in h)
            && (o == Failed(UnknownCup) <==> SawNotFound(true) in h || AskedUpstream(NotFound404) in h)
            && (o == Failed(Upstream) <==>
                  exists m <- h :: m.AskedUpstream? && !m.reply.Answer? && !m.reply.NotFound404?)
            && (forall p: Payload :: o == Served(p) <==>
                  (p.Rows? && SawCache(Some(p)) in h) || ReadDisk(Some(p)) in h || AskedUpstream(Answer(p)) in h)
  {
    var h, o := History(actions, t), s.threads[t].pc.outcome;
    AnswersWhatItMet(env, actions, s, t);
    OnlyTheLastSettles(h, o);
  }

  lemma OnlyTheLastSettles(h: seq<Met>, o: Outcome)
    requires Settled(h, o)
    ensures exists m <- h :: Verdict(m) == Some(o)
    ensures forall m <- h :: Verdict(m) == None || Verdict(m) == Some(o)
  {
    var last := h[|h| - 1];
    assert last in h;
    forall m <- h ensures Verdict(m).Some? ==> m == last {
      var i :| 0 <= i < |h| && h[i] == m;
      if i < |h| - 1 { assert h[..|h| - 1][i] == m; }
    }
  }

  // ---------------------------------------------------------------- the `null` document

  ghost predicate OneEventPerKey(env: iset<Payload>) {
    forall s, k :: Reachable(env, s) ==> |Log(s, k)| <= 1
  }

  ghost predicate CachesDisjoint(env: iset<Payload>) {
    forall s: State, k :: Reachable(env, s) ==> !(k in s.cache && k in s.notFound)
  }

  lemma Extend(env: iset<Payload>, actions: seq<Action>, s: State, a: Action) returns (next: seq<Action>, s': State)
    requires Schedule(env, actions, s) && Allowed(env, a) && Apply(s, a).Some?
    ensures next == actions + [a] && s' == Apply(s, a).value && Schedule(env, next, s')
  {
    next := actions + [a];
    s' := Apply(s, a).value;
    assert next[..|next| - 1] == actions;
  }

  /** Caches, mutexes and logs are as before. */
  ghost predicate SameStores(s: State, s': State) {
    && s'.cache == s.cache && s'.notFound == s.notFound && s'.fetchMu == s.fetchMu && s'.holder == s.holder
    && (forall k :: Log(s', k) == Log(s, k))
  }

  lemma QuietStep(env: iset<Payload>, actions: seq<Action>, s: State, t: Tid, c: Choice)
      returns (next: seq<Action>, s': State)
    requires Schedule(env, actions, s) && t in s.threads && !c.Answer? && !c.NotFound404?
    requires var pc := s.threads[t].pc;
             pc.CtxCheck? || pc.Lookup? || pc.IsNotFound? || pc.Relookup? || pc.ReIsNotFound? || pc.LoadLocal?
    ensures Schedule(env, next, s') && SameStores(s, s')
    ensures s'.threads == s.threads[t := Thread(s.threads[t].key, NextPc(s, s.threads[t].key, s.threads[t].pc, c))]
  {
    next, s' := Extend(env, actions, s, Step(t, c));
  }

  /** A new call that finds nothing usable and goes for the mutex of its key. */
  lemma WalkToMutex(env: iset<Payload>, actions: seq<Action>, s: State, t: Tid, k: Key)
      returns (next: seq<Action>, s': State)
    requires Schedule(env, actions, s) && t !in s.threads && !Hit(s, k) && k !in s.notFound
    ensures Schedule(env, next, s') && SameStores(s, s')
    ensures s'.threads == s.threads[t := Thread(k, LockFor)]
  {
    next, s' := Extend(env, actions, s, Call(t, k));
    next, s' := QuietStep(env, next, s', t, Proceed);
    next, s' := QuietStep(env, next, s', t, Proceed);
    if k !in s.cache {
      next, s' := QuietStep(env, next, s', t, Proceed);
    }
  }

  /** Having its mutex to itself, the call looks again and reaches the disk. */
  lemma WalkToDisk(env: iset<Payload>, actions: seq<Action>, s: State, t: Tid, k: Key)
      returns (next: seq<Action>, s': State)
    requires Schedule(env, actions, s) && t in s.threads && s.threads[t].key == k && s.threads[t].pc.Relookup?
    requires !Hit(s, k) && k !in s.notFound
    ensures Schedule(env, next, s') && SameStores(s, s')
    ensures s'.threads == s.threads[t := Thread(k, LoadLocal(s.threads[t].pc.lock))]
  {
    next, s' := QuietStep(env, actions, s, t, Proceed);
    if k !in s.cache {
      next, s' := QuietStep(env, next, s', t, Proceed);
    }
  }

  /** `lockFor` and an uncontended `Lock`. */
  lemma TakeMutex(env: iset<Payload>, actions: seq<Action>, s: State, t: Tid, k: Key)
      returns (next: seq<Action>, s': State)
    requires Schedule(env, actions, s) && t in s.threads && s.threads[t] == Thread(k, LockFor)
    requires k in s.fetchMu ==> s.fetchMu[k] < |s.holder| && s.holder[s.fetchMu[k]] == None
    ensures Schedule(env, next, s') && s'.threads == s.threads[t := Thread(k, Relookup(MutexFor(s, k)))]
    ensures s'.cache == s.cache && s'.notFound == s.notFound && Log(s', k) == Log(s, k)
    ensures k in s'.fetchMu && s'.fetchMu[k] == MutexFor(s, k) < |s'.holder|
  {
    next, s' := Extend(env, actions, s, Step(t, Proceed));
    next, s' := Extend(env, next, s', Step(t, Proceed));
  }

  /** Upstream answers 404 and the key is memoised. */
  lemma Memoise404(env: iset<Payload>, actions: seq<Action>, s: State, t: Tid, k: Key)
      returns (next: seq<Action>, s': State)
    requires Schedule(env, actions, s) && t in s.threads && s.threads[t].key == k && s.threads[t].pc.Fetch?
    ensures Schedule(env, next, s') && s'.cache == s.cache && k in s'.notFound &&
              Log(s', k) == Log(s, k) + [Upstream404]
  {
    next, s' := Extend(env, actions, s, Step(t, NotFound404));
    next, s' := Extend(env, next, s', Step(t, Proceed));
  }

  /** From a state where the key's mutex is free, one more call of thread `t` reaches the disk. */
  lemma ReachDisk(env: iset<Payload>, actions: seq<Action>, s: State, t: Tid, k: Key)
      returns (next: seq<Action>, s': State)
    requires Schedule(env, actions, s) && t !in s.threads && !Hit(s, k) && k !in s.notFound
    requires k in s.fetchMu ==> s.fetchMu[k] < |s.holder| && s.holder[s.fetchMu[k]] == None
    ensures Schedule(env, next, s') && s'.threads == s.threads[t := Thread(k, LoadLocal(MutexFor(s, k)))]
    ensures s'.cache == s.cache && s'.notFound == s.notFound && Log(s', k) == Log(s, k)
    ensures k in s'.fetchMu && s'.fetchMu[k] == MutexFor(s, k) < |s'.holder|
  {
    next, s' := WalkToMutex(env, actions, s, t, k);
    next, s' := TakeMutex(env, next, s', t, k);
    next, s' := WalkToDisk(env, next, s', t, k);
  }

  /** The first caller loads a `null` document from disk, caches it and returns. */
  lemma CacheNull(env: iset<Payload>, k: Key) returns (actions: seq<Action>, s: State)
    requires Null in env
    ensures Schedule(env, actions, s) && s.threads.Keys == {0}
    ensures k in s.cache && s.cache[k] == Null && k !in s.notFound && Log(s, k) == [LocalLoad(Null)]
    ensures k in s.fetchMu && s.fetchMu[k] < |s.holder| && s.holder[s.fetchMu[k]] == None
  {
    actions, s := [], Init;
    actions, s := ReachDisk(env, actions, s, 0, k);
    actions, s := Extend(env, actions, s, Step(0, Answer(Null)));
    actions, s := Extend(env, actions, s, Step(0, Proceed));
    actions, s := Extend(env, actions, s, Step(0, Proceed));
  }

  /** The second caller goes back to disk and upstream, meets a 404 and leaves the key in both caches. */
  lemma NullIsLoadedAgain(env: iset<Payload>, k: Key) returns (s: State)
    requires Null in env
    ensures Reachable(env, s) && Log(s, k) == [LocalLoad(Null), Upstream404] && k in s.cache && k in s.notFound
  {
    var actions;
    actions, s := CacheNull(env, k);
    actions, s := ReachDisk(env, actions, s, 1, k);
    actions, s := QuietStep(env, actions, s, 1, Proceed);
    actions, s := Memoise404(env, actions, s, 1, k);
  }

  lemma {:induction false} OnlyAnswersAreLogged(env: iset<Payload>, actions: seq<Action>, s: State, k: Key)
    requires Null !in env && Schedule(env, actions, s)
    ensures Clean(s, k)
  {
    if actions != [] {
      var before := actions[..|actions| - 1];
      OnlyAnswersAreLogged(env, before, Execute(before).value, k);
      assert Allowed(env, actions[|actions| - 1]);
    }
  }

  /** The coalescing promise holds in every schedule of every number of callers exactly when neither
      disk nor upstream can ever produce the document `null`; so does disjointness of the caches. */
  lemma SingleFlightExactlyWithoutNull(env: iset<Payload>)
    ensures OneEventPerKey(env) <==> Null !in env
    ensures CachesDisjoint(env) <==> Null !in env
  {
    if Null in env {
      var s := NullIsLoadedAgain(env, Key("all", "overall", 1500));
    } else {
      forall s: State, k | Reachable(env, s) ensures |Log(s, k)| <= 1 && !(k in s.cache && k in s.notFound) {
        var actions :| Schedule(env, actions, s);
        OnlyAnswersAreLogged(env, actions, s, k);
        SingleFlight(env, s, k);
      }
    }
  }
}
