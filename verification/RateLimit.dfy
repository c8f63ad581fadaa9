/** internal/httpmw/ratelimit.go: the per-client table of token buckets with its hard cap and its idle sweep. The
    bucket itself comes from a library and is an opaque object here; its identity is what the table manages. */
module RateLimit {
  import opened Sequences

  const HARD_CAP := 10_000

  /** 30 minutes, in nanoseconds. */
  const IDLE_EVICTION := 30 * 60 * 1_000_000_000

  // ---------------------------------------------------------------- the table as a value

  datatype Slot<L> = Slot(limiter: L, lastSeen: int)

  type Table<L> = map<string, Slot<L>>

  ghost predicate IsOldest<L>(t: Table<L>, victim: string) {
    victim in t && forall ip <- t :: t[victim].lastSeen <= t[ip].lastSeen
  }

  /** A lookup of `ip` that returned `limiter`. A known client keeps its slot; a new one is added, after one oldest
      slot was dropped if the table is at its cap. */
  ghost predicate Looked<L>(t: Table<L>, ip: string, now: int, limiter: L, next: Table<L>) {
    if ip in t then limiter == t[ip].limiter && next == t[ip := Slot(limiter, now)]
    else if |t| < 10_000 then next == t[ip := Slot(limiter, now)]
    else exists victim <- t :: IsOldest(t, victim) && next == (t - {victim})[ip := Slot(limiter, now)]
  }

  /** The table before a new client is added. */
  ghost predicate Roomed<L>(t: Table<L>, room: Table<L>) {
    if |t| < HARD_CAP then room == t else exists victim <- t :: IsOldest(t, victim) && room == t - {victim}
  }

  lemma LookedNew<L>(t: Table<L>, room: Table<L>, ip: string)
    requires Roomed(t, room) && ip !in t
    ensures ip !in room && forall now, limiter :: Looked(t, ip, now, limiter, room[ip := Slot(limiter, now)])
  {
  }

  function Swept<L>(t: Table<L>, now: int): Table<L> {
    map ip | ip in t && t[ip].lastSeen >= now - IDLE_EVICTION :: t[ip]
  }

  ghost predicate Disjoint<L>(t: Table<L>) {
    forall a <- t, b <- t :: a != b ==> t[a].limiter != t[b].limiter
  }

  lemma LookedKeepsSize<L>(t: Table<L>, ip: string, now: int, limiter: L, next: Table<L>)
    requires |t| <= HARD_CAP && Looked(t, ip, now, limiter, next)
    ensures |next| <= HARD_CAP
  {
    if ip in t {
      assert next.Keys == t.Keys;
    } else if |t| < HARD_CAP {
      assert next.Keys == t.Keys + {ip};
    } else {
      var victim :| victim in t && IsOldest(t, victim) && next == (t - {victim})[ip := Slot(limiter, now)];
      ReplacedKeepsSize(t, victim, ip, Slot(limiter, now));
    }
  }

  lemma ReplacedKeepsSize<L>(t: Table<L>, victim: string, ip: string, slot: Slot<L>)
    requires victim in t && ip !in t
    ensures |(t - {victim})[ip := slot]| == |t|
  {
    var next := (t - {victim})[ip := slot];
    assert next.Keys == (t.Keys - {victim}) + {ip};
  }

  lemma LookedKeepsOthers<L>(t: Table<L>, ip: string, now: int, limiter: L, next: Table<L>)
    requires Looked(t, ip, now, limiter, next)
    ensures ip in next && next[ip] == Slot(limiter, now)
    ensures forall other <- next :: other != ip ==> other in t && next[other] == t[other]
  {
    if ip !in t && |t| >= HARD_CAP {
      var victim :| victim in t && IsOldest(t, victim) && next == (t - {victim})[ip := Slot(limiter, now)];
    }
  }

  lemma SweptShrinks<L>(t: Table<L>, now: int)
    ensures |Swept(t, now)| <= |t|
  {
    var kept := Swept(t, now);
    assert t.Keys == kept.Keys + (t.Keys - kept.Keys);
  }

  // ---------------------------------------------------------------- whole runs

  datatype Event<L> = Lookup(ip: string, now: int, limiter: L) | Sweep(now: int)

  ghost predicate Step<L>(t: Table<L>, e: Event<L>, next: Table<L>) {
    match e
    case Lookup(ip, now, limiter) => Looked(t, ip, now, limiter, next)
    case Sweep(now) => next == Swept(t, now)
  }

  /** All limiters handed out. */
  ghost function Limiters<L>(events: seq<Event<L>>): set<L> {
    set e | e in events && e.Lookup? :: e.limiter
  }

  ghost function Clients<L>(events: seq<Event<L>>): set<string> {
    set e | e in events && e.Lookup? :: e.ip
  }

  /** `tables[k]` is the table after the first k events; a limiter made for a new client was never used before. */
  ghost predicate IsRun<L>(events: seq<Event<L>>, tables: seq<Table<L>>) {
    && |tables| == |events| + 1
    && if events == [] then tables[0] == map[]
       else
         var n := |events| - 1;
         && IsRun(events[..n], tables[..n + 1])
         && Step(tables[n], events[n], tables[n + 1])
         && (events[n].Lookup? && events[n].ip !in tables[n] ==> events[n].limiter !in Limiters(events[..n]))
  }

  lemma {:induction false} RunPrefix<L>(events: seq<Event<L>>, tables: seq<Table<L>>, k: nat)
    requires IsRun(events, tables) && k <= |events|
    ensures IsRun(events[..k], tables[..k + 1])
  {
    var n := |events|;
    if k < n {
      RunPrefix(events[..n - 1], tables[..n], k);
      assert events[..n - 1][..k] == events[..k] && tables[..n][..k + 1] == tables[..k + 1];
    } else {
      assert events[..k] == events && tables[..k + 1] == tables;
    }
  }

  /** When the client was last looked up; 0 if never. */
  function LatestLookup<L>(events: seq<Event<L>>, ip: string): int {
    if events == [] then 0
    else
      var e := events[|events| - 1];
      if e.Lookup? && e.ip == ip then e.now else LatestLookup(events[..|events| - 1], ip)
  }

  ghost predicate Accounted<L>(events: seq<Event<L>>, t: Table<L>) {
    forall ip <- t ::
      && ip in Clients(events) && t[ip].limiter in Limiters(events)
      && t[ip].lastSeen == LatestLookup(events, ip)
  }

  /** After any run of lookups and sweeps the table is within its cap, no two clients share a limiter, and every
      slot carries the time of its client's latest lookup. */
  lemma {:induction false} RunInvariant<L>(events: seq<Event<L>>, tables: seq<Table<L>>)
    requires IsRun(events, tables)
    ensures var t := tables[|events|]; |t| <= 10_000 && Disjoint(t) && Accounted(events, t)
  {
    if events != [] {
      var n := |events| - 1;
      RunInvariant(events[..n], tables[..n + 1]);
      match events[n]
      case Lookup(ip, now, limiter) =>
        LookedKeepsSize(tables[n], ip, now, limiter, tables[n + 1]);
        LookedKeepsOthers(tables[n], ip, now, limiter, tables[n + 1]);
        AfterLookup(events, tables[n], tables[n + 1]);
      case Sweep(now) =>
        SweptShrinks(tables[n], now);
        AfterSweep(events, tables[n], tables[n + 1]);
    }
  }

  lemma AfterLookup<L>(events: seq<Event<L>>, t: Table<L>, next: Table<L>)
    requires events != [] && events[|events| - 1].Lookup?
    requires Disjoint(t) && Accounted(events[..|events| - 1], t)
    requires var e := events[|events| - 1];
             && e.ip in next && next[e.ip] == Slot(e.limiter, e.now)
             && (forall other <- next :: other != e.ip ==> other in t && next[other] == t[other])
             && (if e.ip in t then e.limiter == t[e.ip].limiter else e.limiter !in Limiters(events[..|events| - 1]))
    ensures Disjoint(next) && Accounted(events, next)
  {
    var n := |events| - 1;
    var e := events[n];
    assert forall x :: x in events <==> x in events[..n] || x == e;
    assert e.limiter in Limiters(events) && e.ip in Clients(events);
    forall ip | ip in next && ip != e.ip
      ensures ip in Clients(events) && next[ip].limiter in Limiters(events) && next[ip].limiter != e.limiter
    {
      assert ip in t;
    }
  }

  lemma AfterSweep<L>(events: seq<Event<L>>, t: Table<L>, next: Table<L>)
    requires events != [] && events[|events| - 1].Sweep?
    requires Disjoint(t) && Accounted(events[..|events| - 1], t) && next == Swept(t, events[|events| - 1].now)
    ensures Disjoint(next) && Accounted(events, next)
  {
    var n := |events| - 1;
    assert forall x <- events[..n] :: x in events;
  }

  lemma StepKeepsLimiter<L>(t: Table<L>, e: Event<L>, next: Table<L>, ip: string)
    requires Step(t, e, next) && ip in t && ip in next
    ensures t[ip].limiter == next[ip].limiter
  {
    if e.Lookup? { LookedKeepsOthers(t, e.ip, e.now, e.limiter, next); }
  }

  lemma StepAt<L>(events: seq<Event<L>>, tables: seq<Table<L>>, k: nat)
    requires IsRun(events, tables) && k < |events|
    ensures Step(tables[k], events[k], tables[k + 1])
    ensures events[k].Lookup? && events[k].ip !in tables[k] ==> events[k].limiter !in Limiters(events[..k])
  {
    RunPrefix(events, tables, k + 1);
    assert events[..k + 1][..k] == events[..k];
  }

  /** A client keeps its limiter for as long as it stays in the table. */
  lemma {:induction false} SameLimiterUntilEvicted<L>(events: seq<Event<L>>, tables: seq<Table<L>>, ip: string, i: nat,
          j: nat)
    requires IsRun(events, tables) && i <= j <= |events|
    requires forall k :: i <= k <= j ==> ip in tables[k]
    ensures tables[i][ip].limiter == tables[j][ip].limiter
  {
    if i < j {
      SameLimiterUntilEvicted(events, tables, ip, i, j - 1);
      StepAt(events, tables, j - 1);
      StepKeepsLimiter(tables[j - 1], events[j - 1], tables[j], ip);
    }
  }

  /** A client that was evicted and comes back gets a limiter that nobody had before. */
  lemma {:induction false} ReturningClientStartsAfresh<L>(events: seq<Event<L>>, tables: seq<Table<L>>, ip: string,
          j: nat, k: nat)
    requires IsRun(events, tables) && j < k <= |events| && ip !in tables[j] && ip in tables[k]
    ensures tables[k][ip].limiter !in Limiters(events[..j])
  {
    StepAt(events, tables, k - 1);
    if ip in tables[k - 1] {
      ReturningClientStartsAfresh(events, tables, ip, j, k - 1);
      StepKeepsLimiter(tables[k - 1], events[k - 1], tables[k], ip);
    } else {
      var e := events[k - 1];
      if e.Lookup? { LookedKeepsOthers(tables[k - 1], e.ip, e.now, e.limiter, tables[k]); }
      assert events[..j] <= events[..k - 1];
      assert forall x <- events[..j] :: x in events[..k - 1];
    }
  }

  /** A sweep drops exactly the clients whose latest lookup lies more than 30 minutes back, in nanoseconds. */
  lemma SweepDropsExactlyIdle<L>(events: seq<Event<L>>, tables: seq<Table<L>>, ip: string)
    requires IsRun(events, tables) && events != [] && events[|events| - 1].Sweep? && ip in tables[|events| - 1]
    ensures ip in tables[|events|] <==>
            events[|events| - 1].now - LatestLookup(events[..|events| - 1], ip) <= 1_800_000_000_000
  {
    var n := |events| - 1;
    RunInvariant(events[..n], tables[..n + 1]);
  }

  /** As long as at most 10,000 clients have shown up, no lookup evicts anyone. */
  lemma FewClientsAreNeverCapped<L>(events: seq<Event<L>>, tables: seq<Table<L>>)
    requires IsRun(events, tables) && events != [] && events[|events| - 1].Lookup? && |Clients(events)| <= 10_000
    ensures tables[|events| - 1].Keys <= tables[|events|].Keys
  {
    var n := |events| - 1;
    var t, ip := tables[n], events[n].ip;
    RunInvariant(events[..n], tables[..n + 1]);
    if ip !in t && |t| >= HARD_CAP {
      assert forall x <- events[..n] :: x in events;
      var all := t.Keys + {ip};
      assert all <= Clients(events);
      assert |all| == |t.Keys| + 1;
      SubsetSize(all, Clients(events));
    }
  }

  // ---------------------------------------------------------------- the class

  class Limiter {
    constructor () {}
  }

  class Entry {
    const limiter: Limiter
    var lastSeen: int

    constructor (limiter: Limiter)
      ensures this.limiter == limiter
    {
      this.limiter := limiter;
    }
  }

  /** No two clients share an entry or a limiter. */
  ghost predicate Separate(data: map<string, Entry>) {
    forall a <- data, b <- data :: a != b ==> data[a] != data[b] && data[a].limiter != data[b].limiter
  }

  lemma SeparateAdd(data: map<string, Entry>, ip: string, entry: Entry)
    requires Separate(data) && forall a <- data :: data[a] != entry && data[a].limiter != entry.limiter
    ensures Separate(data[ip := entry])
  {
  }

  class RateLimiter {
    var data: map<string, Entry>

    ghost predicate Valid()
      reads this, data.Values
    {
      |data| <= HARD_CAP && Separate(data)
    }

    ghost function Contents(): (t: Table<Limiter>)
      reads this, data.Values
      ensures t.Keys == data.Keys
    {
      map ip | ip in data :: Slot(data[ip].limiter, data[ip].lastSeen)
    }

    constructor ()
      ensures Valid() && Contents() == map[]
    {
      data := map[];
    }

    /** Whatever order the map is iterated in, the scan ends at an entry with the smallest lastSeen. */
    method FindOldest() returns (oldestIp: string, found: bool)
      ensures found <==> data != map[]
      ensures found ==> IsOldest(Contents(), oldestIp)
    {
      oldestIp, found := "", false;
      var oldestSeen := 0;
      var pending := data.Keys;
      while pending != {}
        invariant pending <= data.Keys
        invariant found ==> oldestIp in data && data[oldestIp].lastSeen == oldestSeen
        invariant found ==> forall ip <- data.Keys - pending :: oldestSeen <= data[ip].lastSeen
        invariant !found ==> pending == data.Keys
        decreases |pending|
      {
        var ip :| ip in pending;
        if !found || data[ip].lastSeen < oldestSeen {
          oldestIp, oldestSeen, found := ip, data[ip].lastSeen, true;
        }
        pending := pending - {ip};
      }
    }

    method EvictOldestLocked() returns (ghost victim: string)
      requires Valid() && |data| > 0
      modifies this
      ensures Valid() && |data| == old(|data|) - 1
      ensures IsOldest(old(Contents()), victim) && Contents() == old(Contents()) - {victim}
      ensures data.Values <= old(data.Values)
    {
      var oldestIp, found := FindOldest();
      victim := oldestIp;
      if found {
        Remove(oldestIp);
      }
    }

    method Remove(ip: string)
      requires Valid() && ip in data
      modifies this
      ensures Valid() && |data| == old(|data|) - 1
      ensures Contents() == old(Contents()) - {ip}
      ensures data.Values <= old(data.Values)
    {
      ghost var before := data;
      data := data - {ip};
      assert data.Keys == before.Keys - {ip};
    }

    method LimiterFor(clientIp: string, now: int) returns (limiter: Limiter)
      requires Valid()
      modifies this, data.Values
      ensures Valid()
      ensures Looked(old(Contents()), clientIp, now, limiter, Contents())
      ensures clientIp !in old(data) ==> fresh(limiter)
      ensures fresh(data.Values - old(data.Values))
    {
      if clientIp in data {
        limiter := Touch(clientIp, now);
        return;
      }
      limiter := AddNew(clientIp, now);
    }

    /** An unknown client: at the cap one oldest entry makes room. */
    method AddNew(clientIp: string, now: int) returns (limiter: Limiter)
      requires Valid() && clientIp !in data
      modifies this
      ensures Valid() && fresh(limiter) && fresh(data.Values - old(data.Values))
      ensures Looked(old(Contents()), clientIp, now, limiter, Contents())
    {
      ghost var before := Contents();
      MakeRoom();
      LookedNew(before, Contents(), clientIp);
      limiter := Add(clientIp, now);
    }

    method MakeRoom()
      requires Valid()
      modifies this
      ensures Valid() && |data| < HARD_CAP && data.Values <= old(data.Values)
      ensures Roomed(old(Contents()), Contents())
    {
      assert Contents().Keys == data.Keys;
      if |data| >= HARD_CAP {
        ghost var victim := EvictOldestLocked();
      }
    }

    /** The entry is known: only its lastSeen changes. */
    method Touch(clientIp: string, now: int) returns (limiter: Limiter)
      requires Valid() && clientIp in data
      modifies data[clientIp]
      ensures Valid() && limiter == data[clientIp].limiter
      ensures Contents() == old(Contents())[clientIp := Slot(limiter, now)]
    {
      var entry := data[clientIp];
      entry.lastSeen := now;
      limiter := entry.limiter;
    }

    /** There is room: a fresh entry with a fresh limiter. */
    method Add(clientIp: string, now: int) returns (limiter: Limiter)
      requires Valid() && clientIp !in data && |data| < HARD_CAP
      modifies this
      ensures Valid() && fresh(limiter) && fresh(data.Values - old(data.Values))
      ensures Contents() == old(Contents())[clientIp := Slot(limiter, now)]
    {
      limiter := new Limiter();
      var entry := new Entry(limiter);
      entry.lastSeen := now;
      Insert(clientIp, entry);
    }

    method Insert(clientIp: string, entry: Entry)
      requires Valid() && clientIp !in data && |data| < HARD_CAP
      requires forall a <- data :: data[a] != entry && data[a].limiter != entry.limiter
      modifies this
      ensures Valid() && data == old(data)[clientIp := entry]
      ensures Contents() == old(Contents())[clientIp := Slot(entry.limiter, entry.lastSeen)]
    {
      SeparateAdd(data, clientIp, entry);
      ghost var before := data;
      data := data[clientIp := entry];
      assert data.Keys == before.Keys + {clientIp};
    }

    /** Exactly the entries last seen before the cutoff go. */
    method EvictIdle(now: int)
      requires Valid()
      modifies this
      ensures Valid()
      ensures Contents() == Swept(old(Contents()), now)
      ensures data.Values <= old(data.Values)
    {
      var cutoff := now - IDLE_EVICTION;
      var pending := data.Keys;
      ghost var before := data;
      while pending != {}
        invariant pending <= before.Keys
        invariant forall ip :: ip in data <==> ip in before && (ip in pending || before[ip].lastSeen >= cutoff)
        invariant forall ip <- data :: data[ip] == before[ip]
        decreases |pending|
      {
        var ip :| ip in pending;
        if data[ip].lastSeen < cutoff {
          data := data - {ip};
        }
        pending := pending - {ip};
      }
      SubsetSize(data.Keys, before.Keys);
    }
  }

  // ---------------------------------------------------------------- the class runs

  datatype Op = LookupOp(ip: string, now: int) | SweepOp(now: int)

  /** The event is the operation, a lookup with the limiter that it handed out. */
  ghost predicate Records<L>(op: Op, e: Event<L>) {
    match op
    case LookupOp(ip, now) => e.Lookup? && e.ip == ip && e.now == now
    case SweepOp(now) => e == Sweep(now)
  }

  ghost predicate Recorded<L>(ops: seq<Op>, events: seq<Event<L>>) {
    |events| <= |ops| && forall n :: 0 <= n < |events| ==> Records(ops[n], events[n])
  }

  lemma RunGrows<L>(events: seq<Event<L>>, tables: seq<Table<L>>, e: Event<L>, next: Table<L>)
    requires IsRun(events, tables) && Step(tables[|events|], e, next)
    requires e.Lookup? && e.ip !in tables[|events|] ==> e.limiter !in Limiters(events)
    ensures IsRun(events + [e], tables + [next])
  {
    var all, after := events + [e], tables + [next];
    assert all[..|events|] == events && after[..|events| + 1] == tables;
  }

  /** What the class has done so far is a run that ends at its table. */
  ghost predicate Driven(limiters: RateLimiter, events: seq<Event<Limiter>>, tables: seq<Table<Limiter>>)
    reads limiters, limiters.data.Values
  {
    limiters.Valid() && IsRun(events, tables) && tables[|events|] == limiters.Contents()
  }

  /** The class, driven through any sequence of lookups and sweeps, makes a run: in particular no lookup of a new
      client hands out a limiter that any earlier lookup handed out. */
  method Replay(ops: seq<Op>)
    returns (limiters: RateLimiter, ghost events: seq<Event<Limiter>>, ghost tables: seq<Table<Limiter>>)
    ensures fresh(limiters) && Driven(limiters, events, tables)
    ensures |events| == |ops| && Recorded(ops, events)
  {
    limiters := new RateLimiter();
    events, tables := [], [map[]];
    for n := 0 to |ops|
      invariant fresh(limiters) && fresh(limiters.data.Values) && Driven(limiters, events, tables)
      invariant |events| == n && Recorded(ops, events)
    {
      events, tables := Apply(limiters, ops, n, events, tables);
    }
  }

  /** The operation and its event: a limiter made for a new client differs from those of the earlier events. */
  method Perform(limiters: RateLimiter, op: Op, ghost before: seq<Event<Limiter>>) returns (ghost e: Event<Limiter>)
    requires limiters.Valid()
    modifies limiters, limiters.data.Values
    ensures limiters.Valid() && fresh(limiters.data.Values - old(limiters.data.Values))
    ensures Records(op, e) && Step(old(limiters.Contents()), e, limiters.Contents())
    ensures e.Lookup? && e.ip !in old(limiters.Contents()) ==> e.limiter !in Limiters(before)
  {
    match op
    case LookupOp(ip, now) =>
      var limiter := limiters.LimiterFor(ip, now);
      e := Lookup(ip, now, limiter);
    case SweepOp(now) =>
      limiters.EvictIdle(now);
      e := Sweep(now);
  }

  /** The next operation. */
  method Apply(limiters: RateLimiter, ops: seq<Op>, n: nat, ghost before: seq<Event<Limiter>>,
               ghost tables0: seq<Table<Limiter>>)
    returns (ghost events: seq<Event<Limiter>>, ghost tables: seq<Table<Limiter>>)
    requires Driven(limiters, before, tables0) && Recorded(ops, before) && |before| == n < |ops|
    modifies limiters, limiters.data.Values
    ensures Driven(limiters, events, tables) && fresh(limiters.data.Values - old(limiters.data.Values))
    ensures |events| == n + 1 && Recorded(ops, events)
  {
    ghost var e := Perform(limiters, ops[n], before);
    RunGrows(before, tables0, e, limiters.Contents());
    events, tables := before + [e], tables0 + [limiters.Contents()];
  }
}
