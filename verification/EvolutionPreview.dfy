/** internal/tools/evolution_preview.go: the breadth-first walk over evolutions and its sorted output. */
module EvolutionPreview {
  import opened Gamemaster
  import opened Sequences

  const MAX_EVOLUTION_DEPTH := 5

  datatype Frame = Frame(speciesId: string, path: seq<string>)

  /** `view` stands for the CP, stats and league fit computed from the species by the engine. */
  datatype Stage<V> = Stage(species: string, path: seq<string>, view: V)

  // ---------------------------------------------------------------- what is being computed

  /** A path of evolution edges from `base`: it excludes the base itself and only its last id may be
      missing from the gamemaster. */
  ghost predicate IsPath(dex: Pokedex, base: Species, p: seq<string>) {
    var n := |p|;
    && n > 0
    && if n == 1 then p[0] in base.evolutions
       else IsPath(dex, base, p[..n - 1]) && p[n - 2] in dex && p[n - 1] in dex[p[n - 2]].evolutions
  }

  ghost predicate Leads(dex: Pokedex, base: Species, p: seq<string>, id: string) {
    IsPath(dex, base, p) && p[|p| - 1] == id
  }

  ghost predicate Shortest(dex: Pokedex, base: Species, p: seq<string>) {
    IsPath(dex, base, p) && forall q :: Leads(dex, base, q, p[|p| - 1]) ==> |p| <= |q|
  }

  /** The known species other than the base that some path of at most five edges reaches. */
  ghost predicate Descendant(dex: Pokedex, base: Species, id: string) {
    id in dex && id != base.id && exists p :: Leads(dex, base, p, id) && |p| <= 5
  }

  /** Each descendant once, along a shortest path, and nothing else. */
  ghost predicate Exact<V>(dex: Pokedex, base: Species, project: Species -> V, stages: seq<Stage<V>>) {
    && (forall i, j :: 0 <= i < j < |stages| ==> stages[i].species != stages[j].species)
    && (forall st <- stages ::
          && Descendant(dex, base, st.species) && st.view == project(dex[st.species])
          && Leads(dex, base, st.path, st.species) && Shortest(dex, base, st.path))
    && (forall id :: Descendant(dex, base, id) ==> exists st <- stages :: st.species == id)
  }

  /** `resolveSpeciesLookup` hands the walk a base that is an entry of the snapshot. */
  ghost predicate Snapshot(dex: Pokedex, base: Species) {
    WellKeyed(dex) && base.id in dex && dex[base.id] == base
  }

  // ---------------------------------------------------------------- enqueueing

  /** The ids of `children` not seen before, each at its first occurrence. */
  function Fresh(children: seq<string>, seen: set<string>): seq<string> {
    if children == [] then []
    else if children[0] in seen then Fresh(children[1..], seen)
    else [children[0]] + Fresh(children[1..], seen + {children[0]})
  }

  function Frames(prefix: seq<string>, ids: seq<string>): seq<Frame> {
    seq(|ids|, i requires 0 <= i < |ids| => Frame(ids[i], prefix + [ids[i]]))
  }

  lemma {:induction false} FreshIsNew(children: seq<string>, seen: set<string>)
    ensures Distinct(Fresh(children, seen))
    ensures forall id :: id in Fresh(children, seen) <==> id in children && id !in seen
  {
    if children != [] {
      var c, rest := children[0], children[1..];
      FreshIsNew(rest, seen);
      FreshIsNew(rest, seen + {c});
      forall id ensures id in children <==> id == c || id in rest {
        assert children == [c] + rest;
      }
    }
  }

  method Enqueue(prefix: seq<string>, children: seq<string>, seen: set<string>, frontier: seq<Frame>)
      returns (seen': set<string>, frontier': seq<Frame>)
    ensures seen' == seen + Elements(children)
    ensures frontier' == frontier + Frames(prefix, Fresh(children, seen))
  {
    seen', frontier' := seen, frontier;
    for i := 0 to |children|
      invariant seen' == seen + Elements(children[..i])
      invariant frontier' + Frames(prefix, Fresh(children[i..], seen')) ==
                  frontier + Frames(prefix, Fresh(children, seen))
    {
      var id := children[i];
      assert Elements(children[..i + 1]) == Elements(children[..i]) + {id};
      assert children[i..][1..] == children[i + 1..];
      if id in seen' { continue; }
      seen' := seen' + {id};
      ghost var later := Fresh(children[i + 1..], seen');
      assert Frames(prefix, [id] + later) == [Frame(id, prefix + [id])] + Frames(prefix, later);
      frontier' := frontier' + [Frame(id, prefix + [id])];
    }
    assert children[..|children|] == children;
  }

  // ---------------------------------------------------------------- the invariant of the walk

  /** The path under which each enqueued id was discovered. */
  type Found = map<string, seq<string>>

  /** `done` are the dequeued ids. */
  ghost predicate Walked(dex: Pokedex, base: Species, seen: set<string>, found: Found, done: set<string>) {
    && base.id in seen && found.Keys == seen - {base.id} && done <= found.Keys
    && (forall id <- found :: Leads(dex, base, found[id], id) && |found[id]| <= MAX_EVOLUTION_DEPTH
                              && Shortest(dex, base, found[id]))
    && (forall c <- base.evolutions :: c in seen)
    && (forall id <- done | id in dex && |found[id]| < MAX_EVOLUTION_DEPTH ::
          forall c <- dex[id].evolutions :: c in seen)
  }

  /** Every enqueued id closer than `depth` has been dequeued. */
  ghost predicate DoneBelow(found: Found, done: set<string>, depth: nat) {
    forall id <- found | |found[id]| < depth :: id in done
  }

  ghost predicate Queue(found: Found, done: set<string>, frontier: seq<Frame>) {
    && (forall f <- frontier :: f.speciesId in found && f.speciesId !in done && f.path == found[f.speciesId])
    && (forall i, j :: 0 <= i < j < |frontier| ==> frontier[i].speciesId != frontier[j].speciesId)
    && (forall i, j :: 0 <= i < j < |frontier| ==> |frontier[i].path| <= |frontier[j].path| <= |frontier[i].path| + 1)
    && (forall id <- found | id !in done :: exists f <- frontier :: f.speciesId == id)
  }

  ghost predicate Emitted<V>(dex: Pokedex, project: Species -> V, found: Found, done: set<string>,
                             stages: seq<Stage<V>>) {
    && (forall i, j :: 0 <= i < j < |stages| ==> stages[i].species != stages[j].species)
    && (forall st <- stages :: st.species in done && st.species in dex && st.species in found
                               && st.path == found[st.species] && st.view == project(dex[st.species]))
    && (forall id <- done | id in dex :: exists st <- stages :: st.species == id)
  }

  /** Whatever a path of at most `depth` edges reaches has been seen. */
  lemma {:induction false} ShortPathsAreSeen(dex: Pokedex, base: Species, seen: set<string>, found: Found,
                                             done: set<string>, depth: nat, p: seq<string>)
    requires Snapshot(dex, base) && Walked(dex, base, seen, found, done) && DoneBelow(found, done, depth)
    requires IsPath(dex, base, p) && |p| <= depth <= MAX_EVOLUTION_DEPTH
    ensures p[|p| - 1] in seen
  {
    if |p| > 1 {
      var q := p[..|p| - 1];
      var z := q[|q| - 1];
      ShortPathsAreSeen(dex, base, seen, found, done, depth, q);
      assert Leads(dex, base, q, z);
      assert z in dex && p[|p| - 1] in dex[z].evolutions;
      if z != base.id { assert |found[z]| <= |q|; }
    }
  }

  /** A child first seen from a queue head of least depth is discovered along a shortest path. */
  lemma DiscoveredShortest(dex: Pokedex, base: Species, seen: set<string>, found: Found, done: set<string>,
                           f: Frame, c: string)
    requires Snapshot(dex, base) && Walked(dex, base, seen, found, done) && DoneBelow(found, done, |f.path|)
    requires f.speciesId in dex && Leads(dex, base, f.path, f.speciesId) && |f.path| < MAX_EVOLUTION_DEPTH
    requires c in dex[f.speciesId].evolutions && c !in seen
    ensures Leads(dex, base, f.path + [c], c) && Shortest(dex, base, f.path + [c])
  {
    var p := f.path + [c];
    forall q | Leads(dex, base, q, c) ensures |p| <= |q| {
      if |q| <= |f.path| { ShortPathsAreSeen(dex, base, seen, found, done, |f.path|, q); }
    }
  }

  function Discover(found: Found, prefix: seq<string>, ids: seq<string>): Found {
    found + map c | c in ids :: prefix + [c]
  }

  lemma HeadIsNearest(found: Found, done: set<string>, f: Frame, rest: seq<Frame>)
    requires Queue(found, done, [f] + rest)
    ensures DoneBelow(found, done, |f.path|)
    ensures forall g <- rest :: |f.path| <= |g.path| <= |f.path| + 1
  {
    var all := [f] + rest;
    forall g <- all ensures |f.path| <= |g.path| <= |f.path| + 1 {
      var i :| 0 <= i < |all| && all[i] == g;
      assert i > 0 ==> |all[0].path| <= |all[i].path| <= |all[0].path| + 1;
    }
  }

  /** Dequeuing an id that is unknown or at the depth cap. */
  lemma DequeueOnly(dex: Pokedex, base: Species, seen: set<string>, found: Found, done: set<string>,
                    f: Frame, rest: seq<Frame>)
    requires Walked(dex, base, seen, found, done) && Queue(found, done, [f] + rest)
    requires f.speciesId !in dex || |f.path| >= MAX_EVOLUTION_DEPTH
    ensures Walked(dex, base, seen, found, done + {f.speciesId}) && Queue(found, done + {f.speciesId}, rest)
  {
    QueueTail(found, done, f, rest);
    assert f in [f] + rest;
  }

  lemma TailInQueue(all: seq<Frame>, f: Frame, rest: seq<Frame>)
    requires all == [f] + rest
    requires forall i, j :: 0 <= i < j < |all| ==> all[i].speciesId != all[j].speciesId
    ensures forall i, j :: 0 <= i < j < |rest| ==> rest[i].speciesId != rest[j].speciesId
    ensures forall g <- rest :: g in all && g.speciesId != f.speciesId
    ensures forall g <- all :: g == f || g in rest
  {
    forall i, j | 0 <= i < j < |rest| ensures rest[i].speciesId != rest[j].speciesId {
      assert all[i + 1] == rest[i] && all[j + 1] == rest[j];
    }
    forall g <- rest ensures g in all && g.speciesId != f.speciesId {
      var i :| 0 <= i < |rest| && rest[i] == g;
      assert all[0] == f && all[i + 1] == g;
    }
  }

  lemma TailIsSorted(all: seq<Frame>, f: Frame, rest: seq<Frame>)
    requires all == [f] + rest
    requires forall i, j :: 0 <= i < j < |all| ==> |all[i].path| <= |all[j].path| <= |all[i].path| + 1
    ensures forall i, j :: 0 <= i < j < |rest| ==> |rest[i].path| <= |rest[j].path| <= |rest[i].path| + 1
  {
    forall i, j | 0 <= i < j < |rest| ensures |rest[i].path| <= |rest[j].path| <= |rest[i].path| + 1 {
      assert all[i + 1] == rest[i] && all[j + 1] == rest[j];
    }
  }

  lemma QueueTail(found: Found, done: set<string>, f: Frame, rest: seq<Frame>)
    requires Queue(found, done, [f] + rest)
    ensures Queue(found, done + {f.speciesId}, rest) && forall g <- rest :: g.speciesId != f.speciesId
  {
    TailInQueue([f] + rest, f, rest);
    TailIsSorted([f] + rest, f, rest);
    forall id <- found | id !in done + {f.speciesId} ensures exists g <- rest :: g.speciesId == id {
      var g :| g in [f] + rest && g.speciesId == id;
    }
  }

  /** The dequeued id's fresh children join `found` along shortest paths. */
  lemma ChildrenFound(dex: Pokedex, base: Species, seen: set<string>, found: Found, done: set<string>, f: Frame,
                      ids: seq<string>)
    requires Snapshot(dex, base) && Walked(dex, base, seen, found, done) && DoneBelow(found, done, |f.path|)
    requires f.speciesId in dex && |f.path| < MAX_EVOLUTION_DEPTH
    requires f.speciesId in found && f.path == found[f.speciesId]
    requires ids == Fresh(dex[f.speciesId].evolutions, seen)
    ensures Walked(dex, base, seen + Elements(dex[f.speciesId].evolutions), Discover(found, f.path, ids),
                   done + {f.speciesId})
  {
    FreshIsNew(dex[f.speciesId].evolutions, seen);
    DiscoveredLead(dex, base, seen, found, done, f, ids);
  }

  lemma DiscoveredLead(dex: Pokedex, base: Species, seen: set<string>, found: Found, done: set<string>, f: Frame,
                       ids: seq<string>)
    requires Snapshot(dex, base) && Walked(dex, base, seen, found, done) && DoneBelow(found, done, |f.path|)
    requires f.speciesId in dex && |f.path| < MAX_EVOLUTION_DEPTH
    requires f.speciesId in found && f.path == found[f.speciesId]
    requires ids == Fresh(dex[f.speciesId].evolutions, seen)
    ensures var found' := Discover(found, f.path, ids);
            forall id <- found' ::
              Leads(dex, base, found'[id], id) && |found'[id]| <= MAX_EVOLUTION_DEPTH && Shortest(dex, base, found'[id])
  {
    var found' := Discover(found, f.path, ids);
    FreshIsNew(dex[f.speciesId].evolutions, seen);
    forall id <- found'
      ensures Leads(dex, base, found'[id], id) && |found'[id]| <= MAX_EVOLUTION_DEPTH && Shortest(dex, base, found'[id])
    {
      if id in ids { DiscoveredShortest(dex, base, seen, found, done, f, id); }
    }
  }

  /** Dequeuing a known id below the cap and enqueueing its fresh children. */
  lemma DequeueKnown(dex: Pokedex, base: Species, seen: set<string>, found: Found, done: set<string>,
                     f: Frame, rest: seq<Frame>, ids: seq<string>)
    requires Snapshot(dex, base) && Walked(dex, base, seen, found, done) && Queue(found, done, [f] + rest)
    requires f.speciesId in dex && |f.path| < MAX_EVOLUTION_DEPTH
    requires ids == Fresh(dex[f.speciesId].evolutions, seen)
    ensures Walked(dex, base, seen + Elements(dex[f.speciesId].evolutions), Discover(found, f.path, ids),
                   done + {f.speciesId})
    ensures Queue(Discover(found, f.path, ids), done + {f.speciesId}, rest + Frames(f.path, ids))
  {
    assert f in [f] + rest;
    HeadIsNearest(found, done, f, rest);
    ChildrenFound(dex, base, seen, found, done, f, ids);
    QueueTail(found, done, f, rest);
    FreshIsNew(dex[f.speciesId].evolutions, seen);
    QueueGrows(found, done + {f.speciesId}, f, rest, ids);
  }

  lemma QueueGrows(found: Found, done: set<string>, f: Frame, rest: seq<Frame>, ids: seq<string>)
    requires Queue(found, done, rest) && Distinct(ids) && done <= found.Keys
    requires forall c <- ids :: c !in found
    requires forall g <- rest :: |f.path| <= |g.path| <= |f.path| + 1
    ensures Queue(Discover(found, f.path, ids), done, rest + Frames(f.path, ids))
  {
    var found', added := Discover(found, f.path, ids), Frames(f.path, ids);
    var all := rest + added;
    forall g <- all ensures g.speciesId in found' && g.speciesId !in done && g.path == found'[g.speciesId] {
      AddedFrame(rest, f.path, ids, g);
    }
    forall id <- found' | id !in done ensures exists g <- all :: g.speciesId == id {
      if id in found {
        var g :| g in rest && g.speciesId == id;
        assert g in all;
      } else {
        var i :| 0 <= i < |ids| && ids[i] == id;
        assert all[|rest| + i] == added[i];
      }
    }
    AppendedFrames(found, f, rest, ids);
  }

  lemma AddedFrame(rest: seq<Frame>, prefix: seq<string>, ids: seq<string>, g: Frame)
    requires g in rest + Frames(prefix, ids)
    ensures g in rest || (g.speciesId in ids && g.path == prefix + [g.speciesId])
  {
  }

  lemma AppendedFrames(found: Found, f: Frame, rest: seq<Frame>, ids: seq<string>)
    requires Distinct(ids) && forall c <- ids :: c !in found
    requires forall g <- rest :: g.speciesId in found && |f.path| <= |g.path| <= |f.path| + 1
    requires forall i, j :: 0 <= i < j < |rest| ==> rest[i].speciesId != rest[j].speciesId
    requires forall i, j :: 0 <= i < j < |rest| ==> |rest[i].path| <= |rest[j].path| <= |rest[i].path| + 1
    ensures var all := rest + Frames(f.path, ids);
            forall i, j :: 0 <= i < j < |all| ==>
              all[i].speciesId != all[j].speciesId && |all[i].path| <= |all[j].path| <= |all[i].path| + 1
  {
    var all := rest + Frames(f.path, ids);
    forall i, j | 0 <= i < j < |all|
      ensures all[i].speciesId != all[j].speciesId && |all[i].path| <= |all[j].path| <= |all[i].path| + 1
    {
      assert i < |rest| ==> all[i] == rest[i] && rest[i] in rest;
      assert i >= |rest| ==> all[i].speciesId == ids[i - |rest|] && |all[i].path| == |f.path| + 1;
      assert j < |rest| ==> all[j] == rest[j];
      assert j >= |rest| ==> all[j].speciesId == ids[j - |rest|] && |all[j].path| == |f.path| + 1;
    }
  }

  lemma StartWalked(dex: Pokedex, base: Species, ids: seq<string>)
    requires Snapshot(dex, base) && ids == Fresh(base.evolutions, {base.id})
    ensures Walked(dex, base, {base.id} + Elements(base.evolutions), Discover(map[], [], ids), {})
  {
    FreshIsNew(base.evolutions, {base.id});
    forall c <- ids ensures Leads(dex, base, [] + [c], c) && Shortest(dex, base, [] + [c]) {
      assert [] + [c] == [c];
    }
  }

  lemma StartQueue(base: Species, ids: seq<string>)
    requires ids == Fresh(base.evolutions, {base.id})
    ensures Queue(Discover(map[], [], ids), {}, Frames([], ids))
  {
    FreshIsNew(base.evolutions, {base.id});
    QueueGrows(map[], {}, Frame(base.id, []), [], ids);
    assert [] + Frames([], ids) == Frames([], ids);
  }

  lemma Emit<V>(dex: Pokedex, project: Species -> V, found: Found, done: set<string>, stages: seq<Stage<V>>, f: Frame)
    requires Emitted(dex, project, found, done, stages)
    requires f.speciesId in dex && f.speciesId in found && f.speciesId !in done && f.path == found[f.speciesId]
    ensures Emitted(dex, project, found, done + {f.speciesId},
                    stages + [Stage(f.speciesId, f.path, project(dex[f.speciesId]))])
  {
    var st := Stage(f.speciesId, f.path, project(dex[f.speciesId]));
    forall id <- done + {f.speciesId} | id in dex ensures exists st' <- stages + [st] :: st'.species == id {
      if id == f.speciesId {
        assert st in stages + [st];
      } else {
        var old_ :| old_ in stages && old_.species == id;
        assert old_ in stages + [st];
      }
    }
  }

  ghost predicate Ordered<V>(stages: seq<Stage<V>>, frontier: seq<Frame>) {
    && (forall i, j :: 0 <= i < j < |stages| ==> |stages[i].path| <= |stages[j].path|)
    && (forall st <- stages, f <- frontier :: |st.path| <= |f.path|)
  }

  // ---------------------------------------------------------------- the walk

  method CollectEvolutionStages<V>(dex: Pokedex, base: Species, project: Species -> V) returns (stages: seq<Stage<V>>)
    requires Snapshot(dex, base)
    ensures Exact(dex, base, project, stages)
    ensures forall i, j :: 0 <= i < j < |stages| ==> |stages[i].path| <= |stages[j].path|
  {
    var seen, frontier;
    ghost var found, done;
    seen, frontier, found, done := Seed(dex, base, project);
    stages := [];
    while frontier != []
      invariant WalkInv(dex, base, project, seen, found, done, frontier, stages)
      invariant seen <= Universe(dex, base)
      decreases |Universe(dex, base) - seen|, |frontier|
    {
      var frame, rest := frontier[0], frontier[1..];
      assert [frame] + rest == frontier;
      seen, frontier, stages, found, done := Visit(dex, base, project, frame, rest, seen, stages, found, done);
    }
    FinishedIsExact(dex, base, project, seen, found, done, stages);
  }

  /** The queue holds the children of the base. */
  method Seed<V>(dex: Pokedex, base: Species, ghost project: Species -> V)
      returns (seen: set<string>, frontier: seq<Frame>, ghost found: Found, ghost done: set<string>)
    requires Snapshot(dex, base)
    ensures WalkInv(dex, base, project, seen, found, done, frontier, []) && seen <= Universe(dex, base)
  {
    found, done := Discover(map[], [], Fresh(base.evolutions, {base.id})), {};
    seen, frontier := Enqueue([], base.evolutions, {base.id}, []);
    Start(dex, base, project, seen, frontier);
  }

  /** The loop body: `frame` has just been taken off the frontier, `rest` is what remains. */
  method Visit<V>(dex: Pokedex, base: Species, project: Species -> V, frame: Frame, rest: seq<Frame>,
                  seen: set<string>, stages: seq<Stage<V>>, ghost found: Found, ghost done: set<string>)
      returns (seen': set<string>, frontier: seq<Frame>, stages': seq<Stage<V>>, ghost found': Found,
              ghost done': set<string>)
    requires Snapshot(dex, base) && WalkInv(dex, base, project, seen, found, done, [frame] + rest, stages)
    requires seen <= Universe(dex, base)
    ensures WalkInv(dex, base, project, seen', found', done', frontier, stages')
    ensures seen' <= Universe(dex, base)
    ensures || |Universe(dex, base) - seen'| < |Universe(dex, base) - seen| || (seen' == seen && |frontier| == |rest|)
  {
    seen', frontier, stages', found', done' := seen, rest, stages, found, done + {frame.speciesId};
    if frame.speciesId !in dex {
      Skip(dex, base, project, seen, found, done, frame, rest, stages);
      return;
    }
    var evolved := dex[frame.speciesId];
    stages' := stages + [Stage(evolved.id, frame.path, project(evolved))];
    if |frame.path| >= MAX_EVOLUTION_DEPTH {
      Cap(dex, base, project, seen, found, done, frame, rest, stages, stages');
      return;
    }
    ghost var ids := Fresh(evolved.evolutions, seen);
    Expand(dex, base, project, seen, found, done, frame, rest, stages, stages', ids);
    found' := Discover(found, frame.path, ids);
    seen', frontier := Enqueue(frame.path, evolved.evolutions, seen, rest);
    EnqueuedLess(Universe(dex, base), seen, evolved.evolutions, seen', frame.path, rest);
  }

  ghost predicate WalkInv<V>(dex: Pokedex, base: Species, project: Species -> V, seen: set<string>, found: Found,
                             done: set<string>, frontier: seq<Frame>, stages: seq<Stage<V>>)
  {
    && Walked(dex, base, seen, found, done) && Queue(found, done, frontier)
    && Emitted(dex, project, found, done, stages) && Ordered(stages, frontier)
  }

  lemma Start<V>(dex: Pokedex, base: Species, project: Species -> V, seen: set<string>, frontier: seq<Frame>)
    requires Snapshot(dex, base)
    requires seen == {base.id} + Elements(base.evolutions)
    requires frontier == [] + Frames([], Fresh(base.evolutions, {base.id}))
    ensures WalkInv(dex, base, project, seen, Discover(map[], [], Fresh(base.evolutions, {base.id})), {}, frontier, [])
    ensures seen <= Universe(dex, base)
  {
    var ids := Fresh(base.evolutions, {base.id});
    assert frontier == Frames([], ids);
    StartWalked(dex, base, ids);
    StartQueue(base, ids);
  }

  lemma Skip<V>(dex: Pokedex, base: Species, project: Species -> V, seen: set<string>, found: Found, done: set<string>,
                f: Frame, rest: seq<Frame>, stages: seq<Stage<V>>)
    requires WalkInv(dex, base, project, seen, found, done, [f] + rest, stages) && f.speciesId !in dex
    ensures WalkInv(dex, base, project, seen, found, done + {f.speciesId}, rest, stages)
  {
    DequeueOnly(dex, base, seen, found, done, f, rest);
  }

  /** Appending the head of the queue to the output. */
  lemma Append<V>(dex: Pokedex, project: Species -> V, found: Found, done: set<string>,
                  f: Frame, rest: seq<Frame>, before: seq<Stage<V>>, stages: seq<Stage<V>>)
    requires Queue(found, done, [f] + rest) && Emitted(dex, project, found, done, before) && Ordered(before, [f] + rest)
    requires f.speciesId in dex && stages == before + [Stage(f.speciesId, f.path, project(dex[f.speciesId]))]
    ensures Emitted(dex, project, found, done + {f.speciesId}, stages) && Ordered(stages, rest)
    ensures forall st <- stages :: |st.path| <= |f.path|
  {
    assert f in [f] + rest;
    Emit(dex, project, found, done, before, f);
    HeadIsNearest(found, done, f, rest);
  }

  lemma Cap<V>(dex: Pokedex, base: Species, project: Species -> V, seen: set<string>, found: Found, done: set<string>,
               f: Frame, rest: seq<Frame>, before: seq<Stage<V>>, stages: seq<Stage<V>>)
    requires WalkInv(dex, base, project, seen, found, done, [f] + rest, before)
    requires f.speciesId in dex && |f.path| >= MAX_EVOLUTION_DEPTH
    requires stages == before + [Stage(f.speciesId, f.path, project(dex[f.speciesId]))]
    ensures WalkInv(dex, base, project, seen, found, done + {f.speciesId}, rest, stages)
  {
    DequeueOnly(dex, base, seen, found, done, f, rest);
    Append(dex, project, found, done, f, rest, before, stages);
  }

  lemma OrderedGrows<V>(stages: seq<Stage<V>>, prefix: seq<string>, rest: seq<Frame>, ids: seq<string>)
    requires Ordered(stages, rest) && forall st <- stages :: |st.path| <= |prefix|
    ensures Ordered(stages, rest + Frames(prefix, ids))
  {
  }

  lemma Expand<V>(dex: Pokedex, base: Species, project: Species -> V, seen: set<string>, found: Found,
                  done: set<string>,
                  f: Frame, rest: seq<Frame>, before: seq<Stage<V>>, stages: seq<Stage<V>>, ids: seq<string>)
    requires Snapshot(dex, base) && WalkInv(dex, base, project, seen, found, done, [f] + rest, before)
    requires f.speciesId in dex && |f.path| < MAX_EVOLUTION_DEPTH
    requires stages == before + [Stage(f.speciesId, f.path, project(dex[f.speciesId]))]
    requires ids == Fresh(dex[f.speciesId].evolutions, seen)
    ensures WalkInv(dex, base, project, seen + Elements(dex[f.speciesId].evolutions), Discover(found, f.path, ids),
                    done + {f.speciesId}, rest + Frames(f.path, ids), stages)
    ensures Elements(dex[f.speciesId].evolutions) <= Universe(dex, base)
  {
    Append(dex, project, found, done, f, rest, before, stages);
    DequeueKnown(dex, base, seen, found, done, f, rest, ids);
    OrderedGrows(stages, f.path, rest, ids);
    NewIds(found, seen, dex[f.speciesId].evolutions, ids);
    assert f in [f] + rest;
    EmittedGrows(dex, project, found, f.path, ids, done + {f.speciesId}, stages);
  }

  lemma NewIds(found: Found, seen: set<string>, children: seq<string>, ids: seq<string>)
    requires ids == Fresh(children, seen) && found.Keys <= seen
    ensures forall c <- ids :: c !in found
  {
    FreshIsNew(children, seen);
  }

  lemma EmittedGrows<V>(dex: Pokedex, project: Species -> V, found: Found, prefix: seq<string>, ids: seq<string>,
                        done: set<string>, stages: seq<Stage<V>>)
    requires Emitted(dex, project, found, done, stages) && done <= found.Keys && forall c <- ids :: c !in found
    ensures Emitted(dex, project, Discover(found, prefix, ids), done, stages)
  {
  }

  /** Either something new was seen, or the queue only lost its head. */
  lemma EnqueuedLess(universe: set<string>, before: set<string>, children: seq<string>, after: set<string>,
                     prefix: seq<string>, rest: seq<Frame>)
    requires before <= after <= universe && after == before + Elements(children)
    ensures || |universe - after| < |universe - before|
            || (after == before && |rest + Frames(prefix, Fresh(children, before))| == |rest|)
  {
    var ids := Fresh(children, before);
    FreshIsNew(children, before);
    if ids == [] {
      assert forall c <- children :: c in before;
    } else {
      assert ids[0] in ids;
      SmallerRemainder(universe, before, after);
    }
  }

  /** All ids that can ever be enqueued. */
  ghost function Universe(dex: Pokedex, base: Species): set<string> {
    {base.id} + Elements(base.evolutions) + set id, c | id in dex && c in dex[id].evolutions :: c
  }

  lemma SmallerRemainder(universe: set<string>, before: set<string>, after: set<string>)
    requires before <= after <= universe && before != after
    ensures |universe - after| < |universe - before|
  {
    var x :| x in after && x !in before;
    assert universe - after <= (universe - before) - {x};
    SubsetSize(universe - after, (universe - before) - {x});
  }

  lemma FinishedIsExact<V>(dex: Pokedex, base: Species, project: Species -> V,
                           seen: set<string>, found: Found, done: set<string>, stages: seq<Stage<V>>)
    requires Snapshot(dex, base) && WalkInv(dex, base, project, seen, found, done, [], stages)
    ensures Exact(dex, base, project, stages)
    ensures forall i, j :: 0 <= i < j < |stages| ==> |stages[i].path| <= |stages[j].path|
  {
    forall id | Descendant(dex, base, id) ensures exists st <- stages :: st.species == id {
      var p :| Leads(dex, base, p, id) && |p| <= MAX_EVOLUTION_DEPTH;
      ShortPathsAreSeen(dex, base, seen, found, done, MAX_EVOLUTION_DEPTH, p);
      assert id in done;
    }
  }

  // ---------------------------------------------------------------- the sorted result

  /** The comparison of `sort.Slice`: path length, then species id. */
  ghost predicate Before<V>(a: Stage<V>, b: Stage<V>) {
    KeyLess((|a.path|, a.species), (|b.path|, b.species))
  }

  type SortKey = (nat, string)

  ghost predicate KeyLess(a: SortKey, b: SortKey) {
    a.0 < b.0 || (a.0 == b.0 && StringLess(a.1, b.1))
  }

  /** All that `sort.Slice` promises: a reordering in which no later element comes before an earlier one. */
  ghost predicate SortedFrom<V>(out: seq<Stage<V>>, stages: seq<Stage<V>>) {
    && (exists perm: seq<nat> :: Reorders(out, stages, perm))
    && (forall i, j :: 0 <= i < j < |out| ==> !Before(out[j], out[i]))
  }

  function Keys<V>(stages: seq<Stage<V>>): seq<SortKey> {
    seq(|stages|, i requires 0 <= i < |stages| => (|stages[i].path|, stages[i].species))
  }

  ghost predicate StrictlySorted(keys: seq<SortKey>) {
    forall i, j :: 0 <= i < j < |keys| ==> KeyLess(keys[i], keys[j])
  }

  lemma KeyLessAsymmetric(a: SortKey, b: SortKey)
    ensures a == b || KeyLess(a, b) || KeyLess(b, a)
    ensures !(KeyLess(a, b) && KeyLess(b, a)) && !KeyLess(a, a)
  {
    StringLessTotal(a.1, b.1);
    StringLessTotal(a.1, a.1);
  }

  /** Strictly sorted lists of the same keys are equal. */
  lemma {:induction false} SortedUnique(a: seq<SortKey>, b: seq<SortKey>)
    requires StrictlySorted(a) && StrictlySorted(b) && Elements(a) == Elements(b)
    ensures a == b
  {
    if a != [] { assert a[0] in Elements(b); }
    if b != [] { assert b[0] in Elements(a); }
    if a != [] {
      var i :| 0 <= i < |a| && a[i] == b[0];
      var j :| 0 <= j < |b| && b[j] == a[0];
      KeyLessAsymmetric(a[0], b[0]);
      TailElements(a);
      TailElements(b);
      SortedUnique(a[1..], b[1..]);
      assert a == [a[0]] + a[1..] && b == [b[0]] + b[1..];
    }
  }

  lemma TailElements(a: seq<SortKey>)
    requires StrictlySorted(a) && a != []
    ensures Elements(a[1..]) == Elements(a) - {a[0]}
  {
    KeyLessAsymmetric(a[0], a[0]);
    forall k | k in Elements(a) && k != a[0] ensures k in a[1..] {
      var i :| 0 <= i < |a| && a[i] == k;
      assert a[1..][i - 1] == k;
    }
  }

  lemma SortedKeys<V>(dex: Pokedex, base: Species, project: Species -> V, stages: seq<Stage<V>>, out: seq<Stage<V>>)
    requires Exact(dex, base, project, stages) && SortedFrom(out, stages)
    ensures Exact(dex, base, project, out) && StrictlySorted(Keys(out))
  {
    var perm :| Reorders(out, stages, perm);
    forall id | Descendant(dex, base, id) ensures exists st <- out :: st.species == id {
      var st :| st in stages && st.species == id;
      var k :| 0 <= k < |stages| && stages[k] == st;
      var i := ReorderCovers(out, stages, perm, k);
      assert out[i] in out;
    }
    forall i, j | 0 <= i < j < |out| ensures out[i].species != out[j].species {
      assert perm[i] != perm[j] && out[i] == stages[perm[i]] && out[j] == stages[perm[j]];
    }
    var keys := Keys(out);
    forall i, j | 0 <= i < j < |keys| ensures KeyLess(keys[i], keys[j]) {
      KeyLessAsymmetric(keys[i], keys[j]);
      assert !Before(out[j], out[i]);
    }
  }

  /** The same evolution graph, the children listed in another order or with other repetitions. */
  ghost predicate SameGraph(dex: Pokedex, base: Species, dex': Pokedex, base': Species) {
    && base.id == base'.id && Elements(base.evolutions) == Elements(base'.evolutions)
    && dex.Keys == dex'.Keys
    && (forall id <- dex :: Elements(dex[id].evolutions) == Elements(dex'[id].evolutions))
  }

  lemma {:induction false} SamePaths(dex: Pokedex, base: Species, dex': Pokedex, base': Species, p: seq<string>)
    requires SameGraph(dex, base, dex', base') && IsPath(dex, base, p)
    ensures IsPath(dex', base', p)
  {
    var n := |p|;
    if n == 1 {
      assert p[0] in Elements(base'.evolutions);
    } else {
      SamePaths(dex, base, dex', base', p[..n - 1]);
      assert p[n - 1] in Elements(dex'[p[n - 2]].evolutions);
    }
  }

  lemma SameDescendants(dex: Pokedex, base: Species, dex': Pokedex, base': Species, id: string)
    requires SameGraph(dex, base, dex', base') && Descendant(dex, base, id)
    ensures Descendant(dex', base', id)
  {
    var p :| Leads(dex, base, p, id) && |p| <= MAX_EVOLUTION_DEPTH;
    SamePaths(dex, base, dex', base', p);
    assert Leads(dex', base', p, id);
  }

  lemma SameLength(dex: Pokedex, base: Species, dex': Pokedex, base': Species, p: seq<string>, p': seq<string>)
    requires SameGraph(dex, base, dex', base') && Shortest(dex, base, p) && Shortest(dex', base', p')
    requires p[|p| - 1] == p'[|p'| - 1]
    ensures |p| == |p'|
  {
    SamePaths(dex, base, dex', base', p);
    SamePaths(dex', base', dex, base, p');
    assert Leads(dex', base', p, p[|p| - 1]) && Leads(dex, base, p', p[|p| - 1]);
  }

  /** What one stage tells about the other output. */
  lemma Counterpart<V>(dex: Pokedex, base: Species, dex': Pokedex, base': Species, project: Species -> V,
                       st: Stage<V>, out': seq<Stage<V>>) returns (j: nat)
    requires SameGraph(dex, base, dex', base') && Exact(dex', base', project, out')
    requires Descendant(dex, base, st.species) && Leads(dex, base, st.path, st.species) && Shortest(dex, base, st.path)
    ensures j < |out'| && out'[j].species == st.species && |out'[j].path| == |st.path|
  {
    SameDescendants(dex, base, dex', base', st.species);
    var st' :| st' in out' && st'.species == st.species;
    SameLength(dex, base, dex', base', st.path, st'.path);
    j :| 0 <= j < |out'| && out'[j] == st';
  }

  lemma SameKeys<V>(dex: Pokedex, base: Species, dex': Pokedex, base': Species, project: Species -> V,
                    out: seq<Stage<V>>, out': seq<Stage<V>>)
    requires SameGraph(dex, base, dex', base') && Exact(dex, base, project, out) && Exact(dex', base', project, out')
    ensures Elements(Keys(out)) <= Elements(Keys(out'))
  {
    forall key | key in Elements(Keys(out)) ensures key in Elements(Keys(out')) {
      var i :| 0 <= i < |out| && Keys(out)[i] == key;
      assert out[i] in out;
      var j := Counterpart(dex, base, dex', base', project, out[i], out');
      assert Keys(out')[j] == key;
    }
  }

  /** The result does not depend on the order of the child lists: whatever sort is used, the species
      sequence and the path lengths are the same. */
  lemma OutputIsDeterministic<V>(dex: Pokedex, base: Species, dex': Pokedex, base': Species, project: Species -> V,
                                 stages: seq<Stage<V>>, stages': seq<Stage<V>>, out: seq<Stage<V>>, out': seq<Stage<V>>)
    requires SameGraph(dex, base, dex', base')
    requires Exact(dex, base, project, stages) && SortedFrom(out, stages)
    requires Exact(dex', base', project, stages') && SortedFrom(out', stages')
    ensures |out| == |out'|
    ensures forall i :: 0 <= i < |out| ==> out[i].species == out'[i].species && |out[i].path| == |out'[i].path|
  {
    SortedKeys(dex, base, project, stages, out);
    SortedKeys(dex', base', project, stages', out');
    SameKeys(dex, base, dex', base', project, out, out');
    SameKeys(dex', base', dex, base, project, out', out);
    SortedUnique(Keys(out), Keys(out'));
    forall i | 0 <= i < |out| ensures out[i].species == out'[i].species && |out[i].path| == |out'[i].path| {
      assert Keys(out)[i] == Keys(out')[i];
    }
  }
}
