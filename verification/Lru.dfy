/** internal/cache/lru.go: the byte-capped LRU cache, and the recency list it implements. */
module Lru {
  import opened Wrappers
  import opened Sequences

  newtype byte = x: int | 0 <= x < 256

  type Bytes = seq<byte>

  // ---------------------------------------------------------------- the abstract recency list

  datatype Entry = Entry(key: string, value: Bytes)

  function Total(entries: seq<Entry>): nat {
    if entries == [] then 0 else |entries[0].value| + Total(entries[1..])
  }

  /** Most recently used first; every key once. */
  ghost predicate Unique(entries: seq<Entry>) {
    forall i, j :: 0 <= i < j < |entries| ==> entries[i].key != entries[j].key
  }

  function Lookup(entries: seq<Entry>, key: string): Option<Bytes> {
    if entries == [] then None
    else if entries[0].key == key then Some(entries[0].value)
    else Lookup(entries[1..], key)
  }

  function Without(entries: seq<Entry>, key: string): seq<Entry> {
    if entries == [] then []
    else if entries[0].key == key then entries[1..]
    else [entries[0]] + Without(entries[1..], key)
  }

  /** What remains when entries are dropped from the old end until the rest fits `budget` bytes. */
  function Evict(entries: seq<Entry>, budget: nat): seq<Entry> {
    if Total(entries) <= budget || entries == [] then entries else Evict(entries[..|entries| - 1], budget)
  }

  function Touch(entries: seq<Entry>, key: string): seq<Entry> {
    match Lookup(entries, key)
    case None => entries
    case Some(v) => [Entry(key, v)] + Without(entries, key)
  }

  function Put(capacity: int, entries: seq<Entry>, key: string, value: Bytes): seq<Entry> {
    if capacity <= 0 || |value| > capacity then Without(entries, key)
    else [Entry(key, value)] + Evict(Without(entries, key), capacity - |value|)
  }

  // ---------------------------------------------------------------- facts about the list

  lemma {:induction false} TotalAppend(a: seq<Entry>, b: seq<Entry>)
    ensures Total(a + b) == Total(a) + Total(b)
  {
    if a == [] {
      assert a + b == b;
    } else {
      assert (a + b)[1..] == a[1..] + b;
      TotalAppend(a[1..], b);
    }
  }

  /** An eviction keeps the longest prefix that fits. */
  lemma {:induction false} EvictKeepsLongestPrefix(entries: seq<Entry>, budget: nat)
    ensures var kept := Evict(entries, budget);
            && kept <= entries && Total(kept) <= budget
            && forall n :: |kept| < n <= |entries| ==> Total(entries[..n]) > budget
  {
    if Total(entries) > budget && entries != [] {
      var shorter := entries[..|entries| - 1];
      EvictKeepsLongestPrefix(shorter, budget);
      forall n | |Evict(shorter, budget)| < n <= |entries| ensures Total(entries[..n]) > budget {
        if n < |entries| { assert entries[..n] == shorter[..n]; } else { assert entries[..n] == entries; }
      }
    }
  }

  lemma {:induction false} LookupFinds(entries: seq<Entry>, key: string)
    ensures match Lookup(entries, key)
            case None => forall i :: 0 <= i < |entries| ==> entries[i].key != key
            case Some(v) => Entry(key, v) in entries
  {
    if entries != [] && entries[0].key != key { LookupFinds(entries[1..], key); }
  }

  lemma {:induction false} LookupOfMember(entries: seq<Entry>, e: Entry)
    requires Unique(entries) && e in entries
    ensures Lookup(entries, e.key) == Some(e.value)
  {
    if entries[0] != e {
      assert e in entries[1..];
      LookupOfMember(entries[1..], e);
    }
  }

  lemma {:induction false} WithoutMembers(entries: seq<Entry>, key: string)
    requires Unique(entries)
    ensures forall e :: e in Without(entries, key) <==> e in entries && e.key != key
  {
    if entries != [] {
      var tail := entries[1..];
      if entries[0].key != key {
        WithoutMembers(tail, key);
        assert forall e :: e in Without(entries, key) <==> e == entries[0] || e in Without(tail, key);
      }
    }
  }

  /** Removing a key takes out that entry alone and keeps the order of the others. */
  lemma {:induction false} WithoutRemoves(entries: seq<Entry>, key: string)
    requires Unique(entries)
    ensures var rest := Without(entries, key);
            && Unique(rest) && (forall e :: e in rest <==> e in entries && e.key != key)
            && Total(rest) <= Total(entries)
  {
    WithoutMembers(entries, key);
    if entries != [] && entries[0].key != key {
      var tail := entries[1..];
      WithoutRemoves(tail, key);
      UniquePrepend(entries[0], Without(tail, key), tail);
    }
  }

  lemma UniquePrepend(e: Entry, rest: seq<Entry>, tail: seq<Entry>)
    requires Unique([e] + tail) && Unique(rest) && forall r <- rest :: r in tail
    ensures Unique([e] + rest)
  {
    forall r <- rest ensures r.key != e.key {
      var i :| 0 <= i < |tail| && tail[i] == r;
      assert ([e] + tail)[i + 1] == r && ([e] + tail)[0] == e;
    }
  }

  lemma {:induction false} LookupUnderPrefix(kept: seq<Entry>, entries: seq<Entry>, key: string)
    requires kept <= entries && Lookup(kept, key).Some?
    ensures Lookup(kept, key) == Lookup(entries, key)
  {
    if kept[0].key != key { LookupUnderPrefix(kept[1..], entries[1..], key); }
  }

  lemma {:induction false} LookupOther(entries: seq<Entry>, key: string, other: string)
    requires key != other
    ensures Lookup(Without(entries, other), key) == Lookup(entries, key)
  {
    if entries != [] && entries[0].key != other { LookupOther(entries[1..], key, other); }
  }

  /** Both operations keep the list duplicate-free and within max(capacity, 0) bytes. */
  lemma {:induction false} PutFits(capacity: int, entries: seq<Entry>, key: string, value: Bytes)
    requires Unique(entries) && (capacity > 0 ==> Total(entries) <= capacity) && (capacity <= 0 ==> entries == [])
    ensures var after := Put(capacity, entries, key, value);
            Unique(after) && (capacity > 0 ==> Total(after) <= capacity) && (capacity <= 0 ==> after == [])
  {
    var rest, after := Without(entries, key), Put(capacity, entries, key, value);
    WithoutRemoves(entries, key);
    if capacity <= 0 || |value| > capacity {
      assert after == rest;
    } else {
      PutAccepted(capacity, rest, Entry(key, value));
    }
  }

  lemma {:induction false} PutAccepted(capacity: int, rest: seq<Entry>, e: Entry)
    requires Unique(rest) && |e.value| <= capacity && forall e' <- rest :: e'.key != e.key
    ensures var after := [e] + Evict(rest, capacity - |e.value|); Unique(after) && Total(after) <= capacity
  {
    EvictKeepsLongestPrefix(rest, capacity - |e.value|);
    Prepend(e, Evict(rest, capacity - |e.value|), rest);
  }

  lemma {:induction false} Prepend(e: Entry, kept: seq<Entry>, entries: seq<Entry>)
    requires Unique(entries) && kept <= entries && forall e' <- entries :: e'.key != e.key
    ensures Unique([e] + kept) && Total([e] + kept) == |e.value| + Total(kept)
  {
    assert ([e] + kept)[1..] == kept;
    forall i | 0 <= i < |kept| ensures kept[i].key != e.key {
      assert entries[i] in entries;
    }
  }

  lemma {:induction false} TouchReorders(entries: seq<Entry>, key: string)
    requires Unique(entries)
    ensures Unique(Touch(entries, key)) && Total(Touch(entries, key)) == Total(entries)
    ensures forall e :: e in Touch(entries, key) <==> e in entries
  {
    WithoutRemoves(entries, key);
    LookupFinds(entries, key);
    if Lookup(entries, key).Some? {
      var e := Entry(key, Lookup(entries, key).value);
      TotalWithout(entries, key);
      forall e' | e' in entries && e'.key == key ensures e' == e {
        LookupOfMember(entries, e');
      }
    }
  }

  lemma {:induction false} TotalWithout(entries: seq<Entry>, key: string)
    ensures Lookup(entries, key).Some? ==> Total(entries) == Total(Without(entries, key)) + |Lookup(entries, key).value|
    ensures Lookup(entries, key).None? ==> Without(entries, key) == entries
  {
    if entries != [] && entries[0].key != key { TotalWithout(entries[1..], key); }
  }

  // ---------------------------------------------------------------- what the two operations do to the list

  /** The entry of `key` sits at position `i`. */
  ghost predicate At(entries: seq<Entry>, key: string, i: nat) {
    i < |entries| && entries[i].key == key
  }

  ghost predicate Present(entries: seq<Entry>, key: string) {
    exists i: nat :: At(entries, key, i)
  }

  /** The list without position `i`, the others in their order. */
  function Dropped(entries: seq<Entry>, i: nat): seq<Entry>
    requires i < |entries|
  {
    entries[..i] + entries[i + 1..]
  }

  /** A hit brings its entry to the front and leaves the others in their order; a miss changes nothing. */
  ghost predicate Refreshed(before: seq<Entry>, key: string, after: seq<Entry>) {
    if Present(before, key) then
      exists i: nat :: At(before, key, i) && after == [before[i]] + Dropped(before, i)
    else after == before
  }

  /** `rest` holds the entries of all other keys in their order. */
  ghost predicate Forgotten(before: seq<Entry>, key: string, rest: seq<Entry>) {
    if Present(before, key) then exists i: nat :: At(before, key, i) && rest == Dropped(before, i) else rest == before
  }

  /** A value that fits comes first, followed by as many of the other entries as fit beside it, the most recently used
      ones; one that does not fit only removes its key. */
  ghost predicate Stored(capacity: int, before: seq<Entry>, key: string, value: Bytes, after: seq<Entry>) {
    exists rest ::
      && Forgotten(before, key, rest)
      && if capacity > 0 && |value| <= capacity then
           exists n: nat :: n <= |rest| && Cut(rest, n, capacity - |value|) && after == [Entry(key, value)] + rest[..n]
         else after == rest
  }

  /** The first `n` entries fit the budget and no more of them do. */
  ghost predicate Cut(rest: seq<Entry>, n: nat, budget: int)
    requires n <= |rest|
  {
    Total(rest[..n]) <= budget && forall m :: n < m <= |rest| ==> Total(rest[..m]) > budget
  }

  /** Total adds up the lengths of the values. */
  lemma TotalIsBytes(entries: seq<Entry>, e: Entry)
    ensures Total([]) == 0 && Total(entries + [e]) == Total(entries) + |e.value|
  {
    TotalAppend(entries, [e]);
    assert [e][1..] == [];
  }

  lemma {:induction false} LookupAt(entries: seq<Entry>, key: string)
    requires Unique(entries)
    ensures Lookup(entries, key).Some? <==> Present(entries, key)
    ensures forall i: nat :: At(entries, key, i) ==> Lookup(entries, key) == Some(entries[i].value)
  {
    LookupFinds(entries, key);
    if Lookup(entries, key).Some? {
      var i :| 0 <= i < |entries| && entries[i] == Entry(key, Lookup(entries, key).value);
      assert At(entries, key, i);
    }
    forall i: nat | At(entries, key, i) ensures Lookup(entries, key) == Some(entries[i].value) {
      LookupOfMember(entries, entries[i]);
    }
  }

  lemma {:induction false} WithoutAt(entries: seq<Entry>, key: string, i: nat)
    requires Unique(entries) && At(entries, key, i)
    ensures Without(entries, key) == Dropped(entries, i)
  {
    if entries[0].key != key {
      WithoutAt(entries[1..], key, i - 1);
      assert Dropped(entries, i) == [entries[0]] + Dropped(entries[1..], i - 1);
    }
  }

  lemma WithoutForgets(entries: seq<Entry>, key: string)
    requires Unique(entries)
    ensures Forgotten(entries, key, Without(entries, key))
  {
    LookupAt(entries, key);
    TotalWithout(entries, key);
    if i: nat :| At(entries, key, i) { WithoutAt(entries, key, i); }
  }

  lemma TouchRefreshes(entries: seq<Entry>, key: string)
    requires Unique(entries)
    ensures Refreshed(entries, key, Touch(entries, key))
  {
    LookupAt(entries, key);
    if i: nat :| At(entries, key, i) {
      WithoutAt(entries, key, i);
      assert Touch(entries, key) == [entries[i]] + Dropped(entries, i);
    }
  }

  lemma PutStores(capacity: int, entries: seq<Entry>, key: string, value: Bytes)
    requires Unique(entries)
    ensures Stored(capacity, entries, key, value, Put(capacity, entries, key, value))
  {
    var rest := Without(entries, key);
    WithoutForgets(entries, key);
    if capacity > 0 && |value| <= capacity {
      var kept := Evict(rest, capacity - |value|);
      EvictKeepsLongestPrefix(rest, capacity - |value|);
      assert kept == rest[..|kept|] && Cut(rest, |kept|, capacity - |value|);
    }
  }

  // ---------------------------------------------------------------- the class

  /** A `container/list` element holding an `*entry`. */
  class Element {
    const key: string
    const value: Bytes

    constructor (key: string, value: Bytes)
      ensures this.key == key && this.value == value
    {
      this.key, this.value := key, value;
    }
  }

  datatype Stats = Stats(entries: nat, bytesUsed: int, hits: nat, misses: nat)

  class LRU {
    const capacity: int
    var items: map<string, Element>
    var order: seq<Element>          // most recently used first
    var bytesUsed: int
    var hits: nat
    var misses: nat

    /** The list, the index and the byte counter represent one duplicate-free recency list. */
    ghost predicate Valid() reads this {
      && Indexed(order, items)
      && bytesUsed == Total(Contents())
      && (if capacity <= 0 then order == [] else bytesUsed <= capacity)
    }

    ghost function Contents(): seq<Entry> reads this {
      Entries(order)
    }

    lemma ContentsUnique()
      requires Valid()
      ensures Unique(Contents())
    {
      forall i, j | 0 <= i < j < |order| ensures order[i].key != order[j].key {
        assert order[i] in order && order[j] in order;
      }
    }

    constructor (capacity: int)
      ensures Valid() && this.capacity == capacity && Contents() == [] && hits == misses == 0
    {
      this.capacity := capacity;
      items, order, bytesUsed, hits, misses := map[], [], 0, 0, 0;
    }

    method Get(key: string) returns (value: Option<Bytes>)
      requires Valid()
      modifies this
      ensures Valid()
      ensures value == Lookup(old(Contents()), key) && Contents() == Touch(old(Contents()), key)
      ensures value.Some? <==> Present(old(Contents()), key)
      ensures value.Some? ==> Contents()[0] == Entry(key, value.value)
      ensures Refreshed(old(Contents()), key, Contents())
      ensures if value.Some? then hits == old(hits) + 1 && misses == old(misses)
              else hits == old(hits) && misses == old(misses) + 1
    {
      ghost var before := Contents();
      ContentsUnique();
      LookupAt(before, key);
      TouchRefreshes(before, key);
      if key !in items {
        AbsentKey(order, items, key);
        misses := misses + 1;
        return None;
      }
      var found := Refresh(key);
      hits := hits + 1;
      value := Some(found);
    }

    /** MoveToFront of a stored key. */
    method Refresh(key: string) returns (value: Bytes)
      requires Valid() && key in items
      modifies this`order
      ensures Valid() && Lookup(old(Contents()), key) == Some(value) && Contents() == Touch(old(Contents()), key)
    {
      var elem := items[key];
      Removal(order, elem);
      EntriesPrepend(elem, Remove(order, elem));
      TotalWithout(Contents(), key);
      order := [elem] + Remove(order, elem);
      value := elem.value;
    }

    method Set(key: string, value: Bytes)
      requires Valid()
      modifies this
      ensures Valid() && Contents() == Put(capacity, old(Contents()), key, value)
      ensures hits == old(hits) && misses == old(misses)
    {
      RemoveLocked(key);
      if capacity <= 0 || |value| > capacity {
        return;
      }
      MakeRoom(|value|);
      PushFront(key, value);
    }

    /** The eviction loop of `Set`. */
    method MakeRoom(size: nat)
      requires Valid() && size <= capacity && capacity > 0
      modifies this
      ensures Valid() && Contents() == Evict(old(Contents()), capacity - size) && bytesUsed + size <= capacity
      ensures items.Keys <= old(items.Keys) && hits == old(hits) && misses == old(misses)
    {
      while bytesUsed + size > capacity
        invariant Valid() && items.Keys <= old(items.Keys) && hits == old(hits) && misses == old(misses)
        invariant Evict(Contents(), capacity - size) == Evict(old(Contents()), capacity - size)
        decreases |order|
      {
        if |order| == 0 {
          assert false;       // an empty list holds no bytes, and size <= capacity
          break;
        }
        EvictLocked(order[|order| - 1]);
      }
    }

    method PushFront(key: string, value: Bytes)
      requires Valid() && key !in items && capacity > 0 && bytesUsed + |value| <= capacity
      modifies this
      ensures Valid() && Contents() == [Entry(key, value)] + old(Contents())
      ensures hits == old(hits) && misses == old(misses)
    {
      var elem := new Element(key, value);
      PushFrontSpec(order, items, elem);
      order := [elem] + order;
      items := items[elem.key := elem];
      bytesUsed := bytesUsed + |elem.value|;
    }

    /** Also the inlined removal at the start of an accepted `Set`. */
    method RemoveLocked(key: string)
      requires Valid()
      modifies this
      ensures Valid() && key !in items && Contents() == Without(old(Contents()), key)
      ensures hits == old(hits) && misses == old(misses)
    {
      if key !in items {
        AbsentKey(order, items, key);
        return;
      }
      var existing := items[key];
      RemovedSpec(order, items, existing);
      bytesUsed := bytesUsed - |existing.value|;
      order := Remove(order, existing);
      items := items - {key};
    }

    method EvictLocked(elem: Element)
      requires Valid() && order != [] && elem == order[|order| - 1]
      modifies this
      ensures Valid() && Contents() == old(Contents())[..|old(Contents())| - 1]
      ensures items == old(items) - {elem.key} && |order| < |old(order)| && hits == old(hits) && misses == old(misses)
    {
      RemoveLast(order);
      EvictedSpec(order, items);
      bytesUsed := bytesUsed - |elem.value|;
      order := Remove(order, elem);
      items := items - {elem.key};
    }

    method Snapshot() returns (stats: Stats)
      requires Valid()
      ensures stats == Stats(|Contents()|, Total(Contents()), hits, misses)
    {
      IndexSize(order, items);
      stats := Stats(|items|, bytesUsed, hits, misses);
    }
  }

  function Entries(order: seq<Element>): seq<Entry> {
    seq(|order|, i requires 0 <= i < |order| => Entry(order[i].key, order[i].value))
  }

  /** list.Remove. */
  function Remove(order: seq<Element>, elem: Element): seq<Element> {
    if order == [] then []
    else if order[0] == elem then order[1..]
    else [order[0]] + Remove(order[1..], elem)
  }

  ghost predicate Indexed(order: seq<Element>, items: map<string, Element>) {
    && Distinct(order) && (forall e <- order :: e.key in items && items[e.key] == e)
    && (forall k <- items :: items[k] in order && items[k].key == k)
  }

  lemma EntriesPrepend(elem: Element, order: seq<Element>)
    ensures Entries([elem] + order) == [Entry(elem.key, elem.value)] + Entries(order)
  {
  }

  lemma EntriesTail(order: seq<Element>)
    requires order != []
    ensures Entries(order)[1..] == Entries(order[1..])
  {
  }

  lemma {:induction false} AbsentKey(order: seq<Element>, items: map<string, Element>, key: string)
    requires Indexed(order, items) && key !in items
    ensures Lookup(Entries(order), key) == None && Without(Entries(order), key) == Entries(order)
  {
    forall e | e in Entries(order) ensures e.key != key {
      var i :| 0 <= i < |order| && Entries(order)[i] == e;
      assert order[i] in order;
    }
    LookupFinds(Entries(order), key);
    TotalWithout(Entries(order), key);
  }

  lemma DistinctPrepend(elem: Element, order: seq<Element>)
    requires Distinct(order) && elem !in order
    ensures Distinct([elem] + order)
  {
  }

  /** Taking an element out of the list takes its entry out of the recency list. */
  lemma {:induction false} Removal(order: seq<Element>, elem: Element)
    requires Distinct(order) && elem in order
    requires forall e <- order :: e.key == elem.key ==> e == elem
    ensures Entries(Remove(order, elem)) == Without(Entries(order), elem.key)
    ensures Lookup(Entries(order), elem.key) == Some(elem.value)
    ensures Distinct(Remove(order, elem)) && (forall e <- Remove(order, elem) :: e in order && e != elem)
    ensures forall e <- order | e != elem :: e in Remove(order, elem)
  {
    EntriesTail(order);
    if order[0] == elem {
      assert forall e <- order :: e == order[0] || e in order[1..];
    } else {
      assert elem in order[1..];
      assert order[0].key != elem.key;
      Removal(order[1..], elem);
      var rest := Remove(order[1..], elem);
      EntriesPrepend(order[0], rest);
      assert order[0] !in rest;
      DistinctPrepend(order[0], rest);
      assert forall e <- Remove(order, elem) :: e == order[0] || e in rest;
    }
  }

  lemma {:induction false} RemoveLast(order: seq<Element>)
    requires Distinct(order) && order != []
    ensures Remove(order, order[|order| - 1]) == order[..|order| - 1]
  {
    if |order| > 1 { RemoveLast(order[1..]); }
  }

  lemma {:induction false} EvictedSpec(order: seq<Element>, items: map<string, Element>)
    requires Indexed(order, items) && order != []
    ensures var n := |order| - 1;
            && Entries(order[..n]) == Entries(order)[..n]
            && Total(Entries(order)) == Total(Entries(order[..n])) + |order[n].value|
            && Indexed(order[..n], items - {order[n].key})
  {
    var n := |order| - 1;
    RemoveLast(order);
    RemovedSpec(order, items, order[n]);
    assert Entries(order) == Entries(order[..n]) + [Entry(order[n].key, order[n].value)];
  }

  lemma {:induction false} RemovedSpec(order: seq<Element>, items: map<string, Element>, elem: Element)
    requires Indexed(order, items) && elem in order
    ensures Entries(Remove(order, elem)) == Without(Entries(order), elem.key)
    ensures Total(Entries(order)) == Total(Entries(Remove(order, elem))) + |elem.value|
    ensures Indexed(Remove(order, elem), items - {elem.key})
  {
    forall e <- order | e.key == elem.key ensures e == elem {
    }
    Removal(order, elem);
    TotalWithout(Entries(order), elem.key);
    forall e <- Remove(order, elem) ensures e in order && e.key != elem.key {
      assert items[e.key] == e && items[elem.key] == elem;
    }
  }

  lemma {:induction false} PushFrontSpec(order: seq<Element>, items: map<string, Element>, elem: Element)
    requires Indexed(order, items) && elem.key !in items
    ensures Indexed([elem] + order, items[elem.key := elem])
    ensures Entries([elem] + order) == [Entry(elem.key, elem.value)] + Entries(order)
  {
    EntriesPrepend(elem, order);
    forall e <- order ensures e.key in items && e != elem {
    }
    DistinctPrepend(elem, order);
  }

  lemma {:induction false} IndexSize(order: seq<Element>, items: map<string, Element>)
    requires Indexed(order, items)
    ensures |items| == |order|
  {
    var keys := seq(|order|, i requires 0 <= i < |order| => order[i].key);
    forall i, j | 0 <= i < j < |keys| ensures keys[i] != keys[j] {
      assert order[i] in order && order[j] in order;
    }
    DistinctCardinality(keys);
    forall k ensures k in items <==> k in Elements(keys) {
      if k in items {
        var i :| 0 <= i < |order| && order[i] == items[k];
        assert keys[i] == k;
      }
      if k in Elements(keys) {
        var i :| 0 <= i < |keys| && keys[i] == k;
        assert order[i] in order;
      }
    }
    assert items.Keys == Elements(keys);
  }

  // ---------------------------------------------------------------- whole runs

  datatype Op = GetOp(key: string) | SetOp(key: string, value: Bytes)

  datatype Cache = Cache(entries: seq<Entry>, hits: nat, misses: nat)

  /** The abstract cache after a sequence of operations on a new one. */
  function Run(capacity: int, ops: seq<Op>): Cache {
    if ops == [] then Cache([], 0, 0)
    else
      var c := Run(capacity, ops[..|ops| - 1]);
      match ops[|ops| - 1]
      case GetOp(k) =>
        if Lookup(c.entries, k).Some? then Cache(Touch(c.entries, k), c.hits + 1, c.misses)
        else Cache(c.entries, c.hits, c.misses + 1)
      case SetOp(k, v) => c.(entries := Put(capacity, c.entries, k, v))
  }

  /** The value of the latest `Set` of the key. */
  function LatestSet(ops: seq<Op>, key: string): Option<Bytes> {
    if ops == [] then None
    else
      var op := ops[|ops| - 1];
      if op.SetOp? && op.key == key then Some(op.value) else LatestSet(ops[..|ops| - 1], key)
  }

  function Gets(ops: seq<Op>): nat {
    if ops == [] then 0 else Gets(ops[..|ops| - 1]) + (if ops[|ops| - 1].GetOp? then 1 else 0)
  }

  /** The class replays every run of the abstract cache. */
  method Replay(capacity: int, ops: seq<Op>) returns (lru: LRU)
    ensures fresh(lru) && lru.Valid() && lru.capacity == capacity
    ensures Cache(lru.Contents(), lru.hits, lru.misses) == Run(capacity, ops)
  {
    lru := new LRU(capacity);
    for n := 0 to |ops|
      invariant fresh(lru) && lru.Valid() && lru.capacity == capacity
      invariant Cache(lru.Contents(), lru.hits, lru.misses) == Run(capacity, ops[..n])
    {
      assert ops[..n + 1][..n] == ops[..n];
      match ops[n]
      case GetOp(k) => var _ := lru.Get(k);
      case SetOp(k, v) => lru.Set(k, v);
    }
    assert ops[..|ops|] == ops;
  }

  lemma {:induction false} RunInvariant(capacity: int, ops: seq<Op>)
    ensures var c := Run(capacity, ops).entries;
            Unique(c) && (capacity > 0 ==> Total(c) <= capacity) && (capacity <= 0 ==> c == [])
  {
    if ops != [] {
      var before := ops[..|ops| - 1];
      RunInvariant(capacity, before);
      match ops[|ops| - 1]
      case GetOp(k) => TouchReorders(Run(capacity, before).entries, k);
      case SetOp(k, v) => PutFits(capacity, Run(capacity, before).entries, k, v);
    }
  }

  lemma {:induction false} LookupTouch(entries: seq<Entry>, touched: string, key: string)
    requires Unique(entries)
    ensures Lookup(Touch(entries, touched), key) == Lookup(entries, key)
  {
    if touched != key {
      LookupOther(entries, key, touched);
      assert Lookup(entries, touched).Some? ==> Touch(entries, touched)[1..] == Without(entries, touched);
    }
  }

  lemma NoKeyLookup(entries: seq<Entry>, key: string)
    requires forall e <- entries :: e.key != key
    ensures Lookup(entries, key) == None
  {
    LookupFinds(entries, key);
  }

  lemma {:induction false} LookupPut(capacity: int, entries: seq<Entry>, put: string, value: Bytes, key: string)
    requires Unique(entries)
    ensures var found := Lookup(Put(capacity, entries, put, value), key);
            if key == put then found == (if capacity <= 0 || |value| > capacity then None else Some(value))
            else found.Some? ==> found == Lookup(entries, key)
  {
    var rest := Without(entries, put);
    WithoutRemoves(entries, put);
    NoKeyLookup(rest, put);
    if key != put { LookupOther(entries, key, put); }
    if capacity > 0 && |value| <= capacity {
      var kept := Evict(rest, capacity - |value|);
      EvictKeepsLongestPrefix(rest, capacity - |value|);
      assert Put(capacity, entries, put, value)[1..] == kept;
      if key != put && Lookup(kept, key).Some? { LookupUnderPrefix(kept, rest, key); }
    }
  }

  /** A hit always returns the value of the latest `Set` of that key, also after evictions and after
      oversized overwrites. */
  lemma {:induction false} HitIsLatestSet(capacity: int, ops: seq<Op>, key: string)
    requires Lookup(Run(capacity, ops).entries, key).Some?
    ensures Lookup(Run(capacity, ops).entries, key) == LatestSet(ops, key)
  {
    if ops != [] {
      var before := ops[..|ops| - 1];
      RunInvariant(capacity, before);
      var entries := Run(capacity, before).entries;
      match ops[|ops| - 1]
      case GetOp(k) =>
        LookupTouch(entries, k, key);
        HitIsLatestSet(capacity, before, key);
      case SetOp(k, v) =>
        LookupPut(capacity, entries, k, v, key);
        if k != key { HitIsLatestSet(capacity, before, key); }
    }
  }

  lemma {:induction false} CountersAddUp(capacity: int, ops: seq<Op>)
    ensures Run(capacity, ops).hits + Run(capacity, ops).misses == Gets(ops)
  {
    if ops != [] { CountersAddUp(capacity, ops[..|ops| - 1]); }
  }

  /** Get calls whose key was stored. */
  ghost function StoredGets(capacity: int, ops: seq<Op>): nat {
    if ops == [] then 0
    else
      var before, op := ops[..|ops| - 1], ops[|ops| - 1];
      StoredGets(capacity, before) + (if op.GetOp? && Present(Run(capacity, before).entries, op.key) then 1 else 0)
  }

  lemma {:induction false} HitsAreStoredGets(capacity: int, ops: seq<Op>)
    ensures Run(capacity, ops).hits == StoredGets(capacity, ops)
  {
    if ops != [] {
      var before := ops[..|ops| - 1];
      HitsAreStoredGets(capacity, before);
      RunInvariant(capacity, before);
      LookupAt(Run(capacity, before).entries, ops[|ops| - 1].key);
    }
  }

  // ---------------------------------------------------------------- recency

  /** When the key was last used, that is set or hit, counted from 1; 0 if never. */
  ghost function LastUse(capacity: int, ops: seq<Op>, key: string): nat {
    if ops == [] then 0
    else
      var before, op := ops[..|ops| - 1], ops[|ops| - 1];
      if op.key == key && (op.SetOp? || Present(Run(capacity, before).entries, key)) then |ops|
      else LastUse(capacity, before, key)
  }

  lemma {:induction false} LastUseBound(capacity: int, ops: seq<Op>, key: string)
    ensures LastUse(capacity, ops, key) <= |ops|
  {
    if ops != [] { LastUseBound(capacity, ops[..|ops| - 1], key); }
  }

  ghost function Recency(capacity: int, ops: seq<Op>): string -> nat {
    key => LastUse(capacity, ops, key)
  }

  ghost predicate Ordered(entries: seq<Entry>, recency: string -> nat) {
    forall i, j :: 0 <= i < j < |entries| ==> recency(entries[i].key) > recency(entries[j].key)
  }

  /** The key just used comes first, the others as before. */
  lemma NewestFirst(e: Entry, rest: seq<Entry>, recency: string -> nat, before: string -> nat)
    requires Ordered(rest, before)
    requires forall r <- rest :: recency(r.key) == before(r.key) < recency(e.key)
    ensures Ordered([e] + rest, recency)
  {
    var all := [e] + rest;
    forall i, j | 0 <= i < j < |all| ensures recency(all[i].key) > recency(all[j].key) {
      assert rest[j - 1] in rest;
      if i > 0 { assert rest[i - 1] in rest; }
    }
  }

  lemma SameOrder(rest: seq<Entry>, recency: string -> nat, before: string -> nat)
    requires Ordered(rest, before) && forall r <- rest :: recency(r.key) == before(r.key)
    ensures Ordered(rest, recency)
  {
    forall i, j | 0 <= i < j < |rest| ensures recency(rest[i].key) > recency(rest[j].key) {
      assert rest[i] in rest && rest[j] in rest;
    }
  }

  lemma DroppedKeepsOrder(entries: seq<Entry>, i: nat, recency: string -> nat)
    requires i < |entries| && Unique(entries) && Ordered(entries, recency)
    ensures Ordered(Dropped(entries, i), recency)
    ensures forall r <- Dropped(entries, i) :: r in entries && r.key != entries[i].key
  {
    var rest := Dropped(entries, i);
    assert forall m :: 0 <= m < |rest| ==> rest[m] == entries[if m < i then m else m + 1];
  }

  lemma ForgottenKeepsOrder(entries: seq<Entry>, key: string, rest: seq<Entry>, recency: string -> nat)
    requires Unique(entries) && Ordered(entries, recency) && Forgotten(entries, key, rest)
    ensures Ordered(rest, recency) && forall r <- rest :: r.key != key
  {
    if i: nat :| At(entries, key, i) && rest == Dropped(entries, i) {
      DroppedKeepsOrder(entries, i, recency);
    } else {
      forall r <- rest ensures r.key != key {
        var i: nat :| i < |entries| && entries[i] == r;
        assert !At(entries, key, i);
      }
    }
  }

  lemma ForgottenLosesNothing(entries: seq<Entry>, key: string, rest: seq<Entry>, e: Entry)
    requires Forgotten(entries, key, rest) && e in entries && e.key != key
    ensures e in rest
  {
    if i: nat :| At(entries, key, i) && rest == Dropped(entries, i) {
      var m :| 0 <= m < |entries| && entries[m] == e;
      assert rest[if m < i then m else m - 1] == e;
    }
  }

  /** The operation uses no other key. */
  lemma OthersUnused(capacity: int, ops: seq<Op>, entries: seq<Entry>)
    requires ops != [] && forall e <- entries :: e.key != ops[|ops| - 1].key
    ensures forall e <- entries ::
              Recency(capacity, ops)(e.key) == Recency(capacity, ops[..|ops| - 1])(e.key) < |ops|
  {
    forall e <- entries ensures LastUse(capacity, ops[..|ops| - 1], e.key) < |ops| {
      LastUseBound(capacity, ops[..|ops| - 1], e.key);
    }
  }

  /** After any run the list is in strictly descending order of latest use. */
  lemma {:induction false} RunIsByRecency(capacity: int, ops: seq<Op>)
    ensures Ordered(Run(capacity, ops).entries, Recency(capacity, ops))
  {
    if ops != [] {
      var before := ops[..|ops| - 1];
      RunIsByRecency(capacity, before);
      RunInvariant(capacity, before);
      if ops[|ops| - 1].GetOp? {
        GetByRecency(capacity, ops, Run(capacity, before).entries);
      } else {
        SetByRecency(capacity, ops, Run(capacity, before).entries);
      }
    }
  }

  lemma GetByRecency(capacity: int, ops: seq<Op>, entries: seq<Entry>)
    requires ops != [] && ops[|ops| - 1].GetOp? && Unique(entries)
    requires entries == Run(capacity, ops[..|ops| - 1]).entries && Ordered(entries, Recency(capacity, ops[..|ops| - 1]))
    ensures Ordered(Touch(entries, ops[|ops| - 1].key), Recency(capacity, ops))
    ensures Lookup(entries, ops[|ops| - 1].key).None? ==> Ordered(entries, Recency(capacity, ops))
  {
    var before, key := ops[..|ops| - 1], ops[|ops| - 1].key;
    var recency, recency' := Recency(capacity, before), Recency(capacity, ops);
    LookupAt(entries, key);
    TouchRefreshes(entries, key);
    if Present(entries, key) {
      var i: nat :| At(entries, key, i) && Touch(entries, key) == [entries[i]] + Dropped(entries, i);
      DroppedKeepsOrder(entries, i, recency);
      OthersUnused(capacity, ops, Dropped(entries, i));
      NewestFirst(entries[i], Dropped(entries, i), recency', recency);
    } else {
      SameOrder(entries, recency', recency);
    }
  }

  lemma SetByRecency(capacity: int, ops: seq<Op>, entries: seq<Entry>)
    requires ops != [] && ops[|ops| - 1].SetOp? && Unique(entries)
    requires Ordered(entries, Recency(capacity, ops[..|ops| - 1]))
    ensures Ordered(Put(capacity, entries, ops[|ops| - 1].key, ops[|ops| - 1].value), Recency(capacity, ops))
  {
    var before := ops[..|ops| - 1];
    var SetOp(k, v) := ops[|ops| - 1];
    var recency, recency' := Recency(capacity, before), Recency(capacity, ops);
    var rest, n := StoredParts(capacity, entries, k, v);
    ForgottenKeepsOrder(entries, k, rest, recency);
    OthersUnused(capacity, ops, rest);
    assert recency'(k) == |ops|;
    if capacity > 0 && |v| <= capacity {
      PrefixKeepsOrder(rest, n, recency);
      NewestFirst(Entry(k, v), rest[..n], recency', recency);
    } else {
      SameOrder(rest, recency', recency);
    }
  }

  lemma PrefixKeepsOrder(rest: seq<Entry>, n: nat, recency: string -> nat)
    requires n <= |rest| && Ordered(rest, recency)
    ensures Ordered(rest[..n], recency) && forall r <- rest[..n] :: r in rest
  {
  }

  lemma StoredParts(capacity: int, entries: seq<Entry>, key: string, value: Bytes) returns (rest: seq<Entry>, n: nat)
    requires Unique(entries)
    ensures Forgotten(entries, key, rest) && n <= |rest|
    ensures Put(capacity, entries, key, value) ==
              if capacity > 0 && |value| <= capacity then [Entry(key, value)] + rest[..n] else rest
  {
    rest, n := Without(entries, key), 0;
    WithoutForgets(entries, key);
    if capacity > 0 && |value| <= capacity {
      EvictKeepsLongestPrefix(rest, capacity - |value|);
      n := |Evict(rest, capacity - |value|)|;
    }
  }

  /** Whatever a Set evicts was used less recently than every other entry that it keeps. */
  lemma EvictionTakesLeastRecentlyUsed(capacity: int, ops: seq<Op>, gone: Entry, kept: Entry)
    requires ops != [] && ops[|ops| - 1].SetOp? && gone.key != ops[|ops| - 1].key && kept.key != ops[|ops| - 1].key
    requires gone in Run(capacity, ops[..|ops| - 1]).entries && gone !in Run(capacity, ops).entries
    requires kept in Run(capacity, ops).entries
    ensures LastUse(capacity, ops, gone.key) < LastUse(capacity, ops, kept.key)
  {
    var before := ops[..|ops| - 1];
    var SetOp(k, v) := ops[|ops| - 1];
    var entries := Run(capacity, before).entries;
    RunInvariant(capacity, before);
    RunIsByRecency(capacity, before);
    var rest, n := StoredParts(capacity, entries, k, v);
    ForgottenKeepsOrder(entries, k, rest, Recency(capacity, before));
    ForgottenLosesNothing(entries, k, rest, gone);
    PrefixIsMoreRecent(rest, n, Recency(capacity, before), gone, kept);
  }

  lemma PrefixIsMoreRecent(rest: seq<Entry>, n: nat, recency: string -> nat, gone: Entry, kept: Entry)
    requires n <= |rest| && Ordered(rest, recency) && gone in rest && gone !in rest[..n] && kept in rest[..n]
    ensures recency(gone.key) < recency(kept.key)
  {
    var a :| 0 <= a < |rest| && rest[a] == gone;
    var b :| 0 <= b < n && rest[b] == kept;
    assert forall m :: 0 <= m < n ==> rest[..n][m] == rest[m];
    assert b < a;
  }

  // ---------------------------------------------------------------- when nothing is ever evicted

  /** A bound on the size of every value ever set under a key, one line per key. */
  datatype Line = Line(key: string, size: nat)

  function Sizes(lines: seq<Line>): nat {
    if lines == [] then 0 else lines[0].size + Sizes(lines[1..])
  }

  ghost predicate Within(lines: seq<Line>, key: string, value: Bytes) {
    exists l <- lines :: l.key == key && |value| <= l.size
  }

  ghost predicate Covers(lines: seq<Line>, ops: seq<Op>) {
    && (forall i, j :: 0 <= i < j < |lines| ==> lines[i].key != lines[j].key)
    && (forall op <- ops | op.SetOp? :: Within(lines, op.key, op.value))
  }

  lemma {:induction false} SizesWithout(lines: seq<Line>, j: nat)
    requires j < |lines|
    ensures Sizes(lines) == lines[j].size + Sizes(lines[..j] + lines[j + 1..])
  {
    if j == 0 {
      assert lines[..0] + lines[1..] == lines[1..];
    } else {
      SizesWithout(lines[1..], j - 1);
      assert (lines[..j] + lines[j + 1..])[1..] == lines[1..][..j - 1] + lines[1..][j..];
    }
  }

  lemma {:induction false} TotalWithinSizes(entries: seq<Entry>, lines: seq<Line>)
    requires Unique(entries) && forall e <- entries :: Within(lines, e.key, e.value)
    requires forall i, j :: 0 <= i < j < |lines| ==> lines[i].key != lines[j].key
    ensures Total(entries) <= Sizes(lines)
  {
    if entries != [] {
      var e := entries[0];
      var l :| l in lines && l.key == e.key && |e.value| <= l.size;
      var j :| 0 <= j < |lines| && lines[j] == l;
      var others := lines[..j] + lines[j + 1..];
      SizesWithout(lines, j);
      forall e' <- entries[1..] ensures Within(others, e'.key, e'.value) {
        var l' :| l' in lines && l'.key == e'.key && |e'.value| <= l'.size;
        assert l' in others;
      }
      TotalWithinSizes(entries[1..], others);
    }
  }

  /** If the largest sizes ever set under each key add up to at most a positive capacity, every key
      answers with its latest value for ever. */
  lemma {:induction false} NothingEvicted(capacity: int, ops: seq<Op>, lines: seq<Line>, key: string)
    requires 0 < capacity && Covers(lines, ops) && Sizes(lines) <= capacity
    ensures Lookup(Run(capacity, ops).entries, key) == LatestSet(ops, key)
    ensures forall e <- Run(capacity, ops).entries :: Within(lines, e.key, e.value)
  {
    if ops != [] {
      var before := ops[..|ops| - 1];
      var entries := Run(capacity, before).entries;
      NothingEvicted(capacity, before, lines, key);
      RunInvariant(capacity, before);
      match ops[|ops| - 1]
      case GetOp(k) =>
        LookupTouch(entries, k, key);
        TouchReorders(entries, k);
      case SetOp(k, v) =>
        assert Within(lines, k, v);
        PutEvictsNothing(capacity, entries, k, v, lines);
        if k != key { LookupOther(entries, key, k); }
        assert Put(capacity, entries, k, v)[1..] == Without(entries, k);
    }
  }

  lemma {:induction false} PutEvictsNothing(capacity: int, entries: seq<Entry>, key: string, value: Bytes,
                                            lines: seq<Line>)
    requires 0 < capacity && Unique(entries) && Sizes(lines) <= capacity
    requires forall i, j :: 0 <= i < j < |lines| ==> lines[i].key != lines[j].key
    requires Within(lines, key, value) && forall e <- entries :: Within(lines, e.key, e.value)
    ensures Put(capacity, entries, key, value) == [Entry(key, value)] + Without(entries, key)
    ensures forall e <- Put(capacity, entries, key, value) :: Within(lines, e.key, e.value)
  {
    WithoutRemoves(entries, key);
    AllFit(capacity, Without(entries, key), Entry(key, value), lines);
    forall e | e in Put(capacity, entries, key, value) ensures Within(lines, e.key, e.value) {
      if e != Entry(key, value) { assert e in Without(entries, key); }
    }
  }

  lemma {:induction false} AllFit(capacity: int, rest: seq<Entry>, e: Entry, lines: seq<Line>)
    requires Unique(rest) && Sizes(lines) <= capacity && forall e' <- rest :: e'.key != e.key
    requires forall i, j :: 0 <= i < j < |lines| ==> lines[i].key != lines[j].key
    requires Within(lines, e.key, e.value) && forall e' <- rest :: Within(lines, e'.key, e'.value)
    ensures |e.value| <= capacity && Evict(rest, capacity - |e.value|) == rest
  {
    var all := [e] + rest;
    assert all[1..] == rest;
    TotalWithinSizes(all, lines);
  }

  /** In every run within the bounds of `lines`, every key answers with its latest value. */
  ghost predicate KeepsLatest(capacity: int) {
    forall ops, lines, key :: Covers(lines, ops) && Sizes(lines) <= capacity ==>
      Lookup(Run(capacity, ops).entries, key) == LatestSet(ops, key)
  }

  /** A capacity that covers the sizes is enough exactly when it is not zero. */
  lemma CapacitySufficesExactly(capacity: int)
    ensures KeepsLatest(capacity) <==> capacity != 0
  {
    if capacity > 0 {
      forall ops, lines, key | Covers(lines, ops) && Sizes(lines) <= capacity
        ensures Lookup(Run(capacity, ops).entries, key) == LatestSet(ops, key)
      {
        NothingEvicted(capacity, ops, lines, key);
      }
    }
    if capacity == 0 {
      ZeroCapacityDropsEmptyValues("");
      var ops, lines := [SetOp("", [])], [Line("", 0)];
      assert Covers(lines, ops) && Sizes(lines) <= capacity;
      assert Lookup(Run(capacity, ops).entries, "") != LatestSet(ops, "");
    }
  }

  /** The positive capacity is needed: a cache of capacity zero drops even a zero-length value. */
  lemma ZeroCapacityDropsEmptyValues(key: string)
    ensures var ops := [SetOp(key, [])];
            && Covers([Line(key, 0)], ops) && Sizes([Line(key, 0)]) <= 0
            && LatestSet(ops, key) == Some([]) && Lookup(Run(0, ops).entries, key) == None
  {
    var ops := [SetOp(key, [])];
    assert ops[..0] == [];
    assert Line(key, 0) in [Line(key, 0)];
    assert Run(0, []).entries == [];
  }
}
