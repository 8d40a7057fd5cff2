/** Queries and ingestions of many tenants sharing the cache (app/query/service.py,
    app/cache/redis.py, app/ingestion/tasks.py), one Redis or database operation a step. */
module QueryCache {
  import opened Wrappers
  import opened Strings
  import opened CacheStore

  type Doc = nat
  type RunId = nat

  /** `answer` stands for retrieval and generation: what a query yields on a set of documents. */
  datatype Env = Env(hashing: Hashing, answer: (string, string, set<Doc>) -> string)

  /** A cached response and where it comes from: the run that stored it, the query that was
      asked, the documents its search saw, how often the tenant had been invalidated by then,
      and the version it was stored under. */
  datatype Response =
    Response(answer: string, run: RunId, tenant: string, query: string, snapshot: set<Doc>, since: nat, version: nat)

  datatype Run =
    | Asking(tenant: string, query: string)
    | Looking(tenant: string, query: string, version: nat)            // version read, key not yet fetched
    | Missed(tenant: string, query: string)
    | Answering(tenant: string, query: string, snapshot: set<Doc>, since: nat)
    | Storing(tenant: string, query: string, snapshot: set<Doc>, since: nat, version: nat)
    | Served(tenant: string, query: string, version: nat, response: Response)
    | Stored

  /** `bumps` records, per tenant, the ingestions in the order of their invalidations. */
  datatype System = System(
    store: Store<Response>,
    committed: map<string, set<Doc>>,
    bumps: map<string, seq<Doc>>,
    finishing: set<(string, Doc)>,   // ingestions committed and about to invalidate
    runs: map<RunId, Run>)

  const INITIAL := System(Store(map[], map[]), map[], map[], {}, map[])

  /** `Advance` is the next operation of a run, which its phase determines. */
  datatype Step =
    | Commit(tenant: string, doc: Doc)
    | Invalidate(tenant: string, doc: Doc)
    | Start(id: RunId, tenant: string, query: string)
    | Advance(id: RunId)
    | Expire(key: string)

  function Committed(s: System, tenant: string): set<Doc> { if tenant in s.committed then s.committed[tenant] else {} }

  function Bumps(s: System, tenant: string): seq<Doc> { if tenant in s.bumps then s.bumps[tenant] else [] }

  function ResponseOf(env: Env, id: RunId, r: Run): Response
    requires r.Storing?
  {
    Response(env.answer(r.tenant, r.query, r.snapshot), id, r.tenant, r.query, r.snapshot, r.since, r.version)
  }

  /** The phase after the next operation of a run. */
  function NextPhase(env: Env, s: System, r: Run): Run {
    match r
    case Asking(t, q) => Looking(t, q, Version(s.store, t))
    case Looking(t, q, v) =>
      var hit := CacheStore.Lookup(s.store, CacheKey(env.hashing, v, t, q));
      if hit.Some? then Served(t, q, v, hit.value) else Missed(t, q)
    case Missed(t, q) => Answering(t, q, Committed(s, t), |Bumps(s, t)|)
    case Answering(t, q, snapshot, since) => Storing(t, q, snapshot, since, Version(s.store, t))
    case Storing(t, q, snapshot, since, v) => Stored
    case Served(t, q, v, response) => r
    case Stored => r
  }

  function StoreAfter(env: Env, s: System, id: RunId, r: Run): Store<Response> {
    if !r.Storing? then s.store
    else Put(s.store, CacheKey(env.hashing, r.version, r.tenant, r.query), ResponseOf(env, id, r))
  }

  /** A step that is not possible in a state leaves it as it is. */
  function After(env: Env, s: System, step: Step): System {
    match step
    case Commit(t, d) =>
      s.(committed := s.committed[t := Committed(s, t) + {d}], finishing := s.finishing + {(t, d)})
    case Invalidate(t, d) =>
      if (t, d) !in s.finishing then s
      else
        s.(store := Bumped(s.store, t), bumps := s.bumps[t := Bumps(s, t) + [d]], finishing := s.finishing - {(t, d)})
    case Start(id, t, q) =>
      if id in s.runs || ':' in t then s else s.(runs := s.runs[id := Asking(t, q)])
    case Advance(id) =>
      if id !in s.runs then s
      else
        var r := s.runs[id];
        s.(store := StoreAfter(env, s, id, r), runs := s.runs[id := NextPhase(env, s, r)])
    case Expire(key) => s.(store := s.store.(responses := s.store.responses - {key}))
  }

  function RunOf(env: Env, steps: seq<Step>): System {
    if steps == [] then INITIAL else After(env, RunOf(env, steps[..|steps| - 1]), steps[|steps| - 1])
  }

  // ---------------------------------------------------------------- the invariant

  /** The documents among the first n invalidations of a tenant were all seen. */
  ghost predicate Saw(bumps: seq<Doc>, n: nat, snapshot: set<Doc>) {
    n <= |bumps| && forall i :: 0 <= i < n ==> bumps[i] in snapshot
  }

  ghost predicate ValidResponse(env: Env, s: System, r: Response) {
    && ':' !in r.tenant && r.answer == env.answer(r.tenant, r.query, r.snapshot)
    && r.since <= r.version <= |Bumps(s, r.tenant)| && Saw(Bumps(s, r.tenant), r.since, r.snapshot)
  }

  ghost predicate ValidRun(env: Env, s: System, r: Run) {
    match r
    case Asking(t, q) => ':' !in t
    case Looking(t, q, v) => ':' !in t && v <= |Bumps(s, t)|
    case Missed(t, q) => ':' !in t
    case Answering(t, q, snapshot, since) => ':' !in t && Saw(Bumps(s, t), since, snapshot)
    case Storing(t, q, snapshot, since, v) =>
      ':' !in t && Saw(Bumps(s, t), since, snapshot) && since <= v <= |Bumps(s, t)|
    case Served(t, q, v, response) =>
      && ValidResponse(env, s, response) && response.version == v
      && response.tenant == t && env.hashing.normalise(response.query) == env.hashing.normalise(q)
    case Stored => true
  }

  ghost predicate Inv(env: Env, s: System) {
    && (forall t :: Version(s.store, t) == |Bumps(s, t)|)
    && (forall t, i :: 0 <= i < |Bumps(s, t)| ==> Bumps(s, t)[i] in Committed(s, t))
    && (forall p :: p in s.finishing ==> p.1 in Committed(s, p.0))
    && (forall k :: k in s.store.responses ==>
          var r := s.store.responses[k];
          ValidResponse(env, s, r) && k == CacheKey(env.hashing, r.version, r.tenant, r.query))
    && (forall id :: id in s.runs ==> ValidRun(env, s, s.runs[id]))
  }

  // ---------------------------------------------------------------- every step keeps it

  lemma BumpedVersion<V>(st: Store<V>, t: string, other: string)
    ensures Version(Bumped(st, t), other) == Version(st, other) + if t == other then 1 else 0
  {
    if VersionKey(t) == VersionKey(other) {
      SamePrefix("rag:cv:", t, other);
    }
  }

  /** More committed documents and longer records of invalidations keep runs and responses valid. */
  ghost predicate Grows(s: System, s': System) {
    forall t :: |Bumps(s, t)| <= |Bumps(s', t)| && Bumps(s', t)[..|Bumps(s, t)|] == Bumps(s, t)
  }

  lemma StaysValid(env: Env, s: System, s': System, r: Run)
    requires Grows(s, s') && ValidRun(env, s, r)
    ensures ValidRun(env, s', r)
  {
    match r
    case Answering(t, q, snapshot, since) => SawMore(s, s', t, since, snapshot);
    case Storing(t, q, snapshot, since, v) =>
      SawMore(s, s', t, since, snapshot);
      assert |Bumps(s, t)| <= |Bumps(s', t)|;
    case Looking(t, q, v) => assert |Bumps(s, t)| <= |Bumps(s', t)|;
    case Served(t, q, v, response) => ResponseStaysValid(env, s, s', response);
    case _ =>
  }

  lemma SawMore(s: System, s': System, t: string, n: nat, snapshot: set<Doc>)
    requires Grows(s, s') && Saw(Bumps(s, t), n, snapshot)
    ensures Saw(Bumps(s', t), n, snapshot)
  {
    assert |Bumps(s, t)| <= |Bumps(s', t)|;
    forall i | 0 <= i < n ensures Bumps(s', t)[i] in snapshot {
      assert Bumps(s', t)[..|Bumps(s, t)|][i] == Bumps(s, t)[i];
    }
  }

  lemma ResponseStaysValid(env: Env, s: System, s': System, r: Response)
    requires Grows(s, s') && ValidResponse(env, s, r)
    ensures ValidResponse(env, s', r)
  {
    SawMore(s, s', r.tenant, r.since, r.snapshot);
    assert |Bumps(s, r.tenant)| <= |Bumps(s', r.tenant)|;
  }

  lemma InvalidateGrows(env: Env, s: System, t: string, d: Doc)
    requires Inv(env, s) && (t, d) in s.finishing
    ensures var s' := After(env, s, Invalidate(t, d));
      && Grows(s, s')
      && (forall other :: Version(s'.store, other) == |Bumps(s', other)|)
      && (forall other, i :: 0 <= i < |Bumps(s', other)| ==> Bumps(s', other)[i] in Committed(s', other))
  {
    var s' := After(env, s, Invalidate(t, d));
    assert (t, d).1 in Committed(s, (t, d).0);
    forall other ensures Version(s'.store, other) == |Bumps(s', other)| {
      BumpedVersion(s.store, t, other);
    }
  }

  lemma InvalidateKeeps(env: Env, s: System, t: string, d: Doc)
    requires Inv(env, s) && (t, d) in s.finishing
    ensures Inv(env, After(env, s, Invalidate(t, d)))
  {
    hide CacheKey, Saw, Grows, VersionKey, ValidResponse;
    var s' := After(env, s, Invalidate(t, d));
    InvalidateGrows(env, s, t, d);
    forall k | k in s'.store.responses ensures ValidResponse(env, s', s'.store.responses[k]) {
      ResponseStaysValid(env, s, s', s.store.responses[k]);
    }
    forall id | id in s'.runs ensures ValidRun(env, s', s'.runs[id]) {
      StaysValid(env, s, s', s.runs[id]);
    }
  }

  lemma CommitKeeps(env: Env, s: System, t: string, d: Doc)
    requires Inv(env, s)
    ensures Inv(env, After(env, s, Commit(t, d)))
  {
    hide CacheKey, Saw;
    var s' := After(env, s, Commit(t, d));
    assert forall other :: Committed(s, other) <= Committed(s', other) && Bumps(s', other) == Bumps(s, other);
    assert Grows(s, s');
    forall k | k in s'.store.responses ensures ValidResponse(env, s', s'.store.responses[k]) {
      ResponseStaysValid(env, s, s', s.store.responses[k]);
    }
    forall id | id in s'.runs ensures ValidRun(env, s', s'.runs[id]) {
      StaysValid(env, s, s', s.runs[id]);
    }
  }

  lemma PhaseKeeps(env: Env, s: System, r: Run)
    requires Inv(env, s) && ValidRun(env, s, r) && CollisionFree(env.hashing)
    ensures ValidRun(env, s, NextPhase(env, s, r))
  {
    match r
    case Asking(t, q) => assert Version(s.store, t) == |Bumps(s, t)|;
    case Looking(t, q, v) =>
      var key := CacheKey(env.hashing, v, t, q);
      if key in s.store.responses {
        var response := s.store.responses[key];
        assert ValidResponse(env, s, response);
        KeysInjective(env.hashing, v, t, q, response.version, response.tenant, response.query);
      }
    case Missed(t, q) =>
    case Answering(t, q, snapshot, since) => assert Version(s.store, t) == |Bumps(s, t)|;
    case _ =>
  }

  /** A write adds a valid response under its own key. */
  lemma StoreKeeps(env: Env, s: System, id: RunId, r: Run)
    requires Inv(env, s) && ValidRun(env, s, r)
    ensures forall t :: Version(StoreAfter(env, s, id, r), t) == Version(s.store, t)
    ensures forall k :: k in StoreAfter(env, s, id, r).responses ==>
      var x := StoreAfter(env, s, id, r).responses[k];
      ValidResponse(env, s, x) && k == CacheKey(env.hashing, x.version, x.tenant, x.query)
  {
    hide CacheKey, Saw;
  }

  lemma AdvanceKeeps(env: Env, s: System, id: RunId)
    requires Inv(env, s) && CollisionFree(env.hashing) && id in s.runs
    ensures Inv(env, After(env, s, Advance(id)))
  {
    hide CacheKey, Saw, NextPhase, StoreAfter, CollisionFree;
    var s', r := After(env, s, Advance(id)), s.runs[id];
    PhaseKeeps(env, s, r);
    StoreKeeps(env, s, id, r);
    assert Grows(s, s');
    forall k | k in s'.store.responses
      ensures var x := s'.store.responses[k];
        ValidResponse(env, s', x) && k == CacheKey(env.hashing, x.version, x.tenant, x.query)
    {
      ResponseStaysValid(env, s, s', s'.store.responses[k]);
    }
    forall other | other in s'.runs ensures ValidRun(env, s', s'.runs[other]) {
      StaysValid(env, s, s', s'.runs[other]);
    }
  }

  lemma StepKeeps(env: Env, s: System, step: Step)
    requires Inv(env, s) && CollisionFree(env.hashing)
    ensures Inv(env, After(env, s, step))
  {
    hide CacheKey, Saw, ValidRun, ValidResponse;
    match step
    case Commit(t, d) => CommitKeeps(env, s, t, d);
    case Invalidate(t, d) => if (t, d) in s.finishing { InvalidateKeeps(env, s, t, d); }
    case Advance(id) => if id in s.runs { AdvanceKeeps(env, s, id); }
    case Start(id, t, q) => QuietKeeps(env, s, After(env, s, step));
    case Expire(key) => QuietKeeps(env, s, After(env, s, step));
  }

  /** Steps that only start runs or lose responses. */
  lemma QuietKeeps(env: Env, s: System, s': System)
    requires Inv(env, s)
    requires s'.bumps == s.bumps && s'.committed == s.committed && s'.finishing == s.finishing
    requires s'.store.versions == s.store.versions
    requires forall k :: k in s'.store.responses ==>
      k in s.store.responses && s'.store.responses[k] == s.store.responses[k]
    requires forall id :: id in s'.runs ==>
      (id in s.runs && s'.runs[id] == s.runs[id]) || (s'.runs[id].Asking? && ':' !in s'.runs[id].tenant)
    ensures Inv(env, s')
  {
    hide CacheKey, Saw;
    assert forall t :: Bumps(s', t) == Bumps(s, t) && Committed(s', t) == Committed(s, t);
    assert forall t :: Version(s'.store, t) == Version(s.store, t);
    assert Grows(s, s');
    forall k | k in s'.store.responses ensures ValidResponse(env, s', s'.store.responses[k]) {
      ResponseStaysValid(env, s, s', s.store.responses[k]);
    }
    forall id | id in s'.runs ensures ValidRun(env, s', s'.runs[id]) {
      if id in s.runs && s'.runs[id] == s.runs[id] {
        StaysValid(env, s, s', s.runs[id]);
      }
    }
  }

  lemma {:induction false} Reachable(env: Env, steps: seq<Step>)
    requires CollisionFree(env.hashing)
    ensures Inv(env, RunOf(env, steps))
  {
    hide After, ValidRun, ValidResponse;
    if steps != [] {
      var p := steps[..|steps| - 1];
      Reachable(env, p);
      StepKeeps(env, RunOf(env, p), steps[|p|]);
    }
  }

  // ---------------------------------------------------------------- one invalidation an ingestion

  /** How often a document was committed. */
  function Commits(steps: seq<Step>, t: string, d: Doc): nat {
    if steps == [] then 0
    else Commits(steps[..|steps| - 1], t, d) + if steps[|steps| - 1] == Commit(t, d) then 1 else 0
  }

  /** A document is never invalidated for more often than it was committed. */
  lemma {:induction false} OneInvalidationEach(env: Env, steps: seq<Step>, t: string, d: Doc)
    ensures var s := RunOf(env, steps);
      multiset(Bumps(s, t))[d] + (if (t, d) in s.finishing then 1 else 0) <= Commits(steps, t, d)
  {
    if steps != [] {
      var p, step := steps[..|steps| - 1], steps[|steps| - 1];
      OneInvalidationEach(env, p, t, d);
      BumpsOfStep(env, RunOf(env, p), step, t, d);
    }
  }

  lemma BumpsOfStep(env: Env, s: System, step: Step, t: string, d: Doc)
    ensures var s' := After(env, s, step);
      multiset(Bumps(s', t))[d] + (if (t, d) in s'.finishing then 1 else 0) <=
        multiset(Bumps(s, t))[d] + (if (t, d) in s.finishing then 1 else 0) + (if step == Commit(t, d) then 1 else 0)
  {
    hide CacheKey, NextPhase, StoreAfter, Bumped;
  }

  /** The end of its time takes a response away and changes nothing else. */
  lemma ExpiryRemoves(env: Env, s: System, key: string, other: string)
    ensures var s' := After(env, s, Expire(key));
      && CacheStore.Lookup(s'.store, other) == (if other == key then None else CacheStore.Lookup(s.store, other))
      && s'.store.versions == s.store.versions && s'.runs == s.runs
      && s'.committed == s.committed && s'.bumps == s.bumps && s'.finishing == s.finishing
  {
  }

  /** An invalidation is for one ingestion, which it finishes. */
  lemma InvalidationCounts(env: Env, s: System, t: string, d: Doc)
    requires (t, d) in s.finishing
    ensures var s' := After(env, s, Invalidate(t, d));
      Bumps(s', t) == Bumps(s, t) + [d] && (t, d) !in s'.finishing && Version(s'.store, t) == Version(s.store, t) + 1
  {
  }

  // ---------------------------------------------------------------- what a hit returns

  /** The response was computed on every document whose invalidation came before the
      version read of the hit. */
  ghost predicate Fresh(s: System, r: Run)
    requires r.Served? && r.version <= |Bumps(s, r.tenant)|
  {
    forall i :: 0 <= i < r.version ==> Bumps(s, r.tenant)[i] in r.response.snapshot
  }

  /** Step a is the search of run `id`. */
  ghost predicate SearchedAt(env: Env, steps: seq<Step>, a: nat, id: RunId,
                             t: string, q: string, snapshot: set<Doc>, since: nat) {
    && a < |steps| && steps[a] == Advance(id)
    && var s := RunOf(env, steps[..a]);
       id in s.runs && s.runs[id] == Missed(t, q) && snapshot == Committed(s, t) && since == |Bumps(s, t)|
  }

  /** Step b is the version read of the write of run `id`. */
  ghost predicate VersionReadAt(env: Env, steps: seq<Step>, b: nat, id: RunId,
                                t: string, q: string, snapshot: set<Doc>, since: nat, version: nat) {
    && b < |steps| && steps[b] == Advance(id)
    && var s := RunOf(env, steps[..b]);
       id in s.runs && s.runs[id] == Answering(t, q, snapshot, since) && version == Version(s.store, t)
  }

  /** Step i invalidates the tenant for a document. */
  ghost predicate InvalidatedAt(env: Env, steps: seq<Step>, i: nat, t: string, d: Doc) {
    i < |steps| && steps[i] == Invalidate(t, d) && (t, d) in RunOf(env, steps[..i]).finishing
  }

  /** Every invalidation of the tenant between steps a and b is for a document in `snapshot`. */
  ghost predicate Undisturbed(env: Env, steps: seq<Step>, a: nat, b: nat, t: string, snapshot: set<Doc>) {
    forall i, d :: a < i < b && InvalidatedAt(env, steps, i, t, d) ==> d in snapshot
  }

  /** Invalidations from number `from` up to number `to` are all for documents in `snapshot`. */
  ghost predicate AllIn(bumps: seq<Doc>, from: nat, to: nat, snapshot: set<Doc>)
    requires to <= |bumps|
  {
    forall i :: from <= i < to ==> bumps[i] in snapshot
  }

  lemma SamePast(env: Env, steps: seq<Step>, id: RunId)
    requires steps != [] && id in RunOf(env, steps).runs && steps[|steps| - 1] != Advance(id)
    ensures var s := RunOf(env, steps[..|steps| - 1]);
      (id in s.runs && s.runs[id] == RunOf(env, steps).runs[id]) || RunOf(env, steps).runs[id].Asking?
  {
  }

  /** A run that has searched has a search in its past. */
  lemma {:induction false} SearchOf(env: Env, steps: seq<Step>, id: RunId) returns (a: nat)
    requires id in RunOf(env, steps).runs && RunOf(env, steps).runs[id].Answering?
    ensures var r := RunOf(env, steps).runs[id];
      SearchedAt(env, steps, a, id, r.tenant, r.query, r.snapshot, r.since)
    decreases |steps|
  {
    var p := steps[..|steps| - 1];
    if steps[|p|] == Advance(id) {
      a := |p|;
    } else {
      SamePast(env, steps, id);
      a := SearchOf(env, p, id);
      assert p[..a] == steps[..a];
    }
  }

  /** A run about to write has read the version after its search. */
  lemma {:induction false} VersionReadOf(env: Env, steps: seq<Step>, id: RunId) returns (a: nat, b: nat)
    requires id in RunOf(env, steps).runs && RunOf(env, steps).runs[id].Storing?
    ensures var r := RunOf(env, steps).runs[id];
      && SearchedAt(env, steps, a, id, r.tenant, r.query, r.snapshot, r.since) && a < b
      && VersionReadAt(env, steps, b, id, r.tenant, r.query, r.snapshot, r.since, r.version)
    decreases |steps|
  {
    var p := steps[..|steps| - 1];
    if steps[|p|] == Advance(id) {
      b := |p|;
      a := SearchOf(env, p, id);
      assert p[..a] == steps[..a];
    } else {
      SamePast(env, steps, id);
      a, b := VersionReadOf(env, p, id);
      assert p[..a] == steps[..a] && p[..b] == steps[..b];
    }
  }

  /** The search and the version read behind a response. */
  ghost predicate Origin(env: Env, steps: seq<Step>, x: Response, a: nat, b: nat) {
    && a < b && SearchedAt(env, steps, a, x.run, x.tenant, x.query, x.snapshot, x.since)
    && VersionReadAt(env, steps, b, x.run, x.tenant, x.query, x.snapshot, x.since, x.version)
  }

  lemma OriginStays(env: Env, p: seq<Step>, steps: seq<Step>, x: Response, a: nat, b: nat)
    requires p <= steps && Origin(env, p, x, a, b)
    ensures Origin(env, steps, x, a, b)
  {
    assert p[..a] == steps[..a] && p[..b] == steps[..b];
  }

  lemma {:induction false} StoredOrigin(env: Env, steps: seq<Step>, key: string) returns (a: nat, b: nat)
    requires key in RunOf(env, steps).store.responses
    ensures Origin(env, steps, RunOf(env, steps).store.responses[key], a, b)
    decreases |steps|
  {
    hide Origin, CacheKey;
    var p, step := steps[..|steps| - 1], steps[|steps| - 1];
    var s, x := RunOf(env, p), RunOf(env, steps).store.responses[key];
    if key in s.store.responses && s.store.responses[key] == x {
      a, b := StoredOrigin(env, p, key);
    } else {
      a, b := VersionReadOf(env, p, step.id);
      WrittenOrigin(env, p, step.id, a, b);
    }
    OriginStays(env, p, steps, x, a, b);
  }

  lemma WrittenOrigin(env: Env, steps: seq<Step>, id: RunId, a: nat, b: nat)
    requires id in RunOf(env, steps).runs && RunOf(env, steps).runs[id].Storing? && a < b
    requires var r := RunOf(env, steps).runs[id];
      && SearchedAt(env, steps, a, id, r.tenant, r.query, r.snapshot, r.since)
      && VersionReadAt(env, steps, b, id, r.tenant, r.query, r.snapshot, r.since, r.version)
    ensures Origin(env, steps, ResponseOf(env, id, RunOf(env, steps).runs[id]), a, b)
  {
  }

  /** A hit returns what is stored under the key of its version. */
  lemma ServedStep(env: Env, s: System, step: Step, id: RunId)
    requires id in After(env, s, step).runs && After(env, s, step).runs[id].Served?
    requires !(id in s.runs && s.runs[id].Served?)
    ensures id in s.runs && s.runs[id].Looking?
    ensures var r := s.runs[id];
      var key := CacheKey(env.hashing, r.version, r.tenant, r.query);
      key in s.store.responses && s.store.responses[key] == After(env, s, step).runs[id].response
  {
    hide CacheKey;
  }

  lemma {:induction false} ServedOrigin(env: Env, steps: seq<Step>, id: RunId) returns (a: nat, b: nat)
    requires id in RunOf(env, steps).runs && RunOf(env, steps).runs[id].Served?
    ensures Origin(env, steps, RunOf(env, steps).runs[id].response, a, b)
    decreases |steps|
  {
    hide Origin, CacheKey;
    var p, x := steps[..|steps| - 1], RunOf(env, steps).runs[id].response;
    var s := RunOf(env, p);
    if id in s.runs && s.runs[id].Served? {
      a, b := ServedOrigin(env, p, id);
    } else {
      hide After;
      ServedStep(env, s, steps[|p|], id);
      var r := s.runs[id];
      a, b := StoredOrigin(env, p, CacheKey(env.hashing, r.version, r.tenant, r.query));
    }
    OriginStays(env, p, steps, x, a, b);
  }

  /** What step i adds to the record of a tenant's invalidations. */
  ghost function Added(env: Env, steps: seq<Step>, i: nat, t: string): seq<Doc>
    requires i < |steps|
  {
    if steps[i].Invalidate? && InvalidatedAt(env, steps, i, t, steps[i].doc) then [steps[i].doc] else []
  }

  lemma BumpsStep(env: Env, steps: seq<Step>, i: nat, t: string)
    requires i < |steps|
    ensures Bumps(RunOf(env, steps[..i + 1]), t) == Bumps(RunOf(env, steps[..i]), t) + Added(env, steps, i, t)
  {
    assert steps[..i + 1][..i] == steps[..i];
  }

  lemma AddedIn(env: Env, steps: seq<Step>, i: nat, t: string, snapshot: set<Doc>)
    requires i < |steps|
    ensures (forall d :: d in Added(env, steps, i, t) ==> d in snapshot) <==>
      forall d :: InvalidatedAt(env, steps, i, t, d) ==> d in snapshot
  {
    forall d ensures InvalidatedAt(env, steps, i, t, d) <==> d in Added(env, steps, i, t) {
    }
  }

  lemma UndisturbedStep(env: Env, steps: seq<Step>, a: nat, b: nat, t: string, snapshot: set<Doc>)
    requires a < b < |steps|
    ensures Undisturbed(env, steps, a, b + 1, t, snapshot) <==>
      Undisturbed(env, steps, a, b, t, snapshot) && forall d :: d in Added(env, steps, b, t) ==> d in snapshot
  {
    hide InvalidatedAt, Added;
    AddedIn(env, steps, b, t, snapshot);
  }

  lemma AllInAppend(bumps: seq<Doc>, more: seq<Doc>, from: nat, snapshot: set<Doc>)
    requires from <= |bumps|
    ensures AllIn(bumps + more, from, |bumps + more|, snapshot) <==>
      AllIn(bumps, from, |bumps|, snapshot) && forall d :: d in more ==> d in snapshot
  {
    var all := bumps + more;
    assert forall i :: 0 <= i < |bumps| ==> all[i] == bumps[i];
    assert forall i :: 0 <= i < |more| ==> all[|bumps| + i] == more[i];
  }

  /** The record of a tenant's invalidations grows by those between two steps. */
  lemma {:induction false} BumpsBetween(env: Env, steps: seq<Step>, a: nat, b: nat, t: string, snapshot: set<Doc>)
    requires a < b <= |steps| && !steps[a].Invalidate?
    ensures var earlier, later := Bumps(RunOf(env, steps[..a]), t), Bumps(RunOf(env, steps[..b]), t);
      && |earlier| <= |later| && later[..|earlier|] == earlier
      && (AllIn(later, |earlier|, |later|, snapshot) <==> Undisturbed(env, steps, a, b, t, snapshot))
    decreases b
  {
    hide RunOf, Bumps, AllIn, InvalidatedAt;
    var earlier, bumps := Bumps(RunOf(env, steps[..a]), t), Bumps(RunOf(env, steps[..b - 1]), t);
    BumpsStep(env, steps, b - 1, t);
    if b == a + 1 {
      AllInAppend(bumps, Added(env, steps, b - 1, t), |earlier|, snapshot);
      NoneYet(earlier, snapshot);
    } else {
      BumpsBetween(env, steps, a, b - 1, t, snapshot);
      AllInAppend(bumps, Added(env, steps, b - 1, t), |earlier|, snapshot);
      UndisturbedStep(env, steps, a, b - 1, t, snapshot);
    }
  }

  lemma NoneYet(bumps: seq<Doc>, snapshot: set<Doc>)
    ensures AllIn(bumps, |bumps|, |bumps|, snapshot)
  {
  }

  /** In every run of any number of queries and ingestions, a hit returns the answer to a
      query of the same tenant and normal form, computed on the documents committed at the
      search of the run that stored it.  It holds every document invalidated before the hit
      read its version exactly when every invalidation that came between that search and the
      version read of that write was for a document already committed at the search. */
  lemma HitIsFreshIffUndisturbed(env: Env, steps: seq<Step>, id: RunId) returns (search: nat, read: nat)
    requires CollisionFree(env.hashing)
    requires id in RunOf(env, steps).runs && RunOf(env, steps).runs[id].Served?
    ensures var s := RunOf(env, steps);
      var r := s.runs[id];
      var x := r.response;
      && x.tenant == r.tenant && env.hashing.normalise(x.query) == env.hashing.normalise(r.query)
      && x.answer == env.answer(r.tenant, x.query, x.snapshot)
      && x.version == r.version <= |Bumps(s, r.tenant)|
      && Origin(env, steps, x, search, read)
      && (Fresh(s, r) <==> Undisturbed(env, steps, search, read, r.tenant, x.snapshot))
  {
    var s := RunOf(env, steps);
    var r := s.runs[id];
    var x := r.response;
    Reachable(env, steps);
    assert ValidRun(env, s, r);
    search, read := ServedOrigin(env, steps, id);
    Reachable(env, steps[..read]);
    BumpsBetween(env, steps, search, read, r.tenant, x.snapshot);
    BumpsBetween(env, steps, read, |steps|, r.tenant, x.snapshot);
    assert steps[..|steps|] == steps;
    var later := Bumps(RunOf(env, steps[..read]), r.tenant);
    assert |later| == x.version && Bumps(s, r.tenant)[..x.version] == later;
    FreshIsAllIn(s, r, later);
  }

  lemma FreshIsAllIn(s: System, r: Run, later: seq<Doc>)
    requires r.Served? && r.version == |later| <= |Bumps(s, r.tenant)| && Bumps(s, r.tenant)[..r.version] == later
    requires Saw(Bumps(s, r.tenant), r.response.since, r.response.snapshot) && r.response.since <= r.version
    ensures Fresh(s, r) <==> AllIn(later, r.response.since, |later|, r.response.snapshot)
  {
    assert forall i :: 0 <= i < r.version ==> Bumps(s, r.tenant)[i] == later[i];
  }

  /** The cache serves: once a run has stored its answer, and as long as neither an invalidation
      nor the end of its time comes between, a later query of the same tenant and normal form
      is served that answer. */
  lemma RepeatIsServed(env: Env, steps: seq<Step>, writer: RunId, reader: RunId, q: string)
    requires var s := RunOf(env, steps);
      && writer in s.runs && s.runs[writer].Storing? && reader !in s.runs && ':' !in s.runs[writer].tenant
      && s.runs[writer].version == Version(s.store, s.runs[writer].tenant)
      && env.hashing.normalise(q) == env.hashing.normalise(s.runs[writer].query)
    ensures var w := RunOf(env, steps).runs[writer];
      var started := steps + [Advance(writer)] + [Start(reader, w.tenant, q)];
      var s' := RunOf(env, started + [Advance(reader)] + [Advance(reader)]);
      && reader in s'.runs && s'.runs[reader].Served?
      && s'.runs[reader].response.answer == env.answer(w.tenant, w.query, w.snapshot)
      && s'.runs[reader].response.run == writer
  {
    var w := RunOf(env, steps).runs[writer];
    var stored := steps + [Advance(writer)];
    var started := stored + [Start(reader, w.tenant, q)];
    var looking := started + [Advance(reader)];
    RunOfAppend(env, steps, Advance(writer));
    RunOfAppend(env, stored, Start(reader, w.tenant, q));
    RunOfAppend(env, started, Advance(reader));
    RunOfAppend(env, looking, Advance(reader));
    hide RunOf;
    assert CacheKey(env.hashing, w.version, w.tenant, q) == CacheKey(env.hashing, w.version, w.tenant, w.query);
    hide CacheKey;
  }

  /** No invalidation of a tenant takes effect while one of its runs is between its
      search and the version read of its write. */
  ghost predicate Quiet(env: Env, steps: seq<Step>) {
    forall i, id :: 0 <= i < |steps| && steps[i].Invalidate? && id in RunOf(env, steps[..i]).runs ==>
      var r := RunOf(env, steps[..i]).runs[id];
      !(r.Answering? && r.tenant == steps[i].tenant)
  }

  /** A step leaves a run or moves it to its next phase. */
  lemma Moves(env: Env, steps: seq<Step>, n: nat, id: RunId)
    requires n < |steps| && id in RunOf(env, steps[..n]).runs
    ensures var s, s' := RunOf(env, steps[..n]), RunOf(env, steps[..n + 1]);
      id in s'.runs && s'.runs[id] == if steps[n] == Advance(id) then NextPhase(env, s, s.runs[id]) else s.runs[id]
  {
    hide NextPhase, StoreAfter;
    assert steps[..n + 1][..n] == steps[..n];
  }

  /** After its search a run waits for its version read or is past it. */
  lemma {:induction false} Searched(env: Env, steps: seq<Step>, a: nat, n: nat, id: RunId,
                                    t: string, q: string, snapshot: set<Doc>, since: nat)
    requires SearchedAt(env, steps, a, id, t, q, snapshot, since) && a < n <= |steps|
    ensures id in RunOf(env, steps[..n]).runs
    ensures var r := RunOf(env, steps[..n]).runs[id]; r == Answering(t, q, snapshot, since) || r.Storing? || r.Stored?
    decreases n
  {
    hide CacheKey, RunOf;
    if n > a + 1 {
      Searched(env, steps, a, n - 1, id, t, q, snapshot, since);
    }
    Moves(env, steps, n - 1, id);
  }

  ghost predicate PastRead(s: System, id: RunId) {
    id in s.runs && (s.runs[id].Storing? || s.runs[id].Stored?)
  }

  lemma StoresOnce(env: Env, steps: seq<Step>, n: nat, id: RunId)
    requires n < |steps| && PastRead(RunOf(env, steps[..n]), id)
    ensures PastRead(RunOf(env, steps[..n + 1]), id)
  {
    hide RunOf;
    Moves(env, steps, n, id);
  }

  /** A run that has read the version of its write does not search again. */
  lemma {:induction false} NotBack(env: Env, steps: seq<Step>, i: nat, n: nat, id: RunId)
    requires i <= n <= |steps| && PastRead(RunOf(env, steps[..i]), id)
    ensures PastRead(RunOf(env, steps[..n]), id)
    decreases n
  {
    hide RunOf, PastRead;
    if n > i {
      NotBack(env, steps, i, n - 1, id);
      StoresOnce(env, steps, n - 1, id);
    }
  }

  /** In quiet runs every hit is fresh: no invalidation comes between the two steps. */
  lemma QuietHitsAreFresh(env: Env, steps: seq<Step>, id: RunId)
    requires CollisionFree(env.hashing) && Quiet(env, steps)
    requires id in RunOf(env, steps).runs && RunOf(env, steps).runs[id].Served?
    ensures RunOf(env, steps).runs[id].version <= |Bumps(RunOf(env, steps), RunOf(env, steps).runs[id].tenant)|
    ensures Fresh(RunOf(env, steps), RunOf(env, steps).runs[id])
  {
    hide RunOf, Fresh;
    var a, b := HitIsFreshIffUndisturbed(env, steps, id);
    var x := RunOf(env, steps).runs[id].response;
    forall i, d | a < i < b && InvalidatedAt(env, steps, i, x.tenant, d) ensures false {
      Searched(env, steps, a, i, x.run, x.tenant, x.query, x.snapshot, x.since);
      if !RunOf(env, steps[..i]).runs[x.run].Answering? {
        NotBack(env, steps, i, b, x.run);
      }
    }
  }

  // ---------------------------------------------------------------- old versions never come back

  lemma {:induction false} RunOfAppend(env: Env, a: seq<Step>, step: Step)
    ensures RunOf(env, a + [step]) == After(env, RunOf(env, a), step)
  {
    assert (a + [step])[..|a|] == a;
  }

  /** The version a run works with is no older than the tenant's version in an earlier state. */
  ghost predicate ReadLate(earlier: System, s: System, id: RunId) {
    && (forall t :: Version(s.store, t) >= Version(earlier.store, t))
    && (id in s.runs ==>
          var r := s.runs[id];
          && (r.Looking? ==> r.version >= Version(earlier.store, r.tenant))
          && (r.Served? ==> r.response.version == r.version >= Version(earlier.store, r.tenant)))
  }

  lemma ReadLateStep(env: Env, earlier: System, s: System, step: Step, id: RunId)
    requires Inv(env, s) && Inv(env, After(env, s, step)) && ReadLate(earlier, s, id)
    ensures ReadLate(earlier, After(env, s, step), id)
  {
    hide CacheKey, Saw, Bumped, ValidResponse;
    var s' := After(env, s, step);
    VersionsGrow(env, s, step);
    if id in s'.runs {
      assert ValidRun(env, s', s'.runs[id]);
    }
  }

  /** After an invalidation, a run that has not yet read its version never serves a
      response stored under an earlier one, however the system goes on. */
  lemma {:induction false} InvalidatedForGood(env: Env, before: seq<Step>, after: seq<Step>, id: RunId)
    requires CollisionFree(env.hashing)
    requires id in RunOf(env, before).runs ==> RunOf(env, before).runs[id].Asking?
    ensures ReadLate(RunOf(env, before), RunOf(env, before + after), id)
  {
    if after == [] {
      assert before + after == before;
    } else {
      var p, last := after[..|after| - 1], after[|after| - 1];
      InvalidatedForGood(env, before, p, id);
      assert before + after == (before + p) + [last];
      RunOfAppend(env, before + p, last);
      Reachable(env, before + p);
      Reachable(env, before + after);
      ReadLateStep(env, RunOf(env, before), RunOf(env, before + p), last, id);
    }
  }

  lemma VersionsGrow(env: Env, s: System, step: Step)
    ensures forall t :: Version(After(env, s, step).store, t) >= Version(s.store, t)
  {
    if step.Invalidate? {
      forall t ensures Version(Bumped(s.store, step.tenant), t) >= Version(s.store, t) {
        BumpedVersion(s.store, step.tenant, t);
      }
    }
  }

  // ---------------------------------------------------------------- the race

  /** A query searches, an ingestion commits and invalidates, and only then the query
      reads the version it stores its answer under. */
  function Race(t: string, q: string, d: Doc): seq<Step> {
    [Start(0, t, q), Advance(0), Advance(0), Advance(0)] + [Commit(t, d), Invalidate(t, d)] +
    [Advance(0), Advance(0)] + [Start(1, t, q), Advance(1), Advance(1)]
  }

  /** The condition is needed: the race ends in a hit that misses an invalidated document. */
  lemma RaceServesStale(env: Env, t: string, q: string, d: Doc)
    requires ':' !in t
    ensures var s := RunOf(env, Race(t, q, d));
      1 in s.runs && s.runs[1].Served? && s.runs[1].tenant == t && s.runs[1].version == 1 &&
      Bumps(s, t) == [d] && !Fresh(s, s.runs[1])
  {
    hide CacheKey;
    var s0 := INITIAL;
    var s1 := After(env, After(env, After(env, After(env, s0, Start(0, t, q)), Advance(0)), Advance(0)), Advance(0));
    assert s1 == s0.(runs := map[0 := Answering(t, q, {}, 0)]);
    var s2 := After(env, After(env, s1, Commit(t, d)), Invalidate(t, d));
    assert Bumps(s2, t) == [d] && Version(s2.store, t) == 1 && s2.runs == s1.runs;
    var s3 := After(env, After(env, s2, Advance(0)), Advance(0));
    var key := CacheKey(env.hashing, 1, t, q);
    var response := Response(env.answer(t, q, {}), 0, t, q, {}, 0, 1);
    assert key in s3.store.responses && s3.store.responses[key] == response;
    assert Version(s3.store, t) == 1 && 1 !in s3.runs;
    var s4 := After(env, After(env, After(env, s3, Start(1, t, q)), Advance(1)), Advance(1));
    assert s4.runs[1] == Served(t, q, 1, response) && Bumps(s4, t) == [d];
    RaceRun(env, t, q, d);
    assert !Fresh(s4, s4.runs[1]) by { assert Bumps(s4, t)[0] !in response.snapshot; }
  }

  lemma RaceRun(env: Env, t: string, q: string, d: Doc)
    ensures var s0 := After(env, After(env, INITIAL, Start(0, t, q)), Advance(0));
      var s1 := After(env, After(env, s0, Advance(0)), Advance(0));
      var s2 := After(env, After(env, s1, Commit(t, d)), Invalidate(t, d));
      var s3 := After(env, After(env, s2, Advance(0)), Advance(0));
      RunOf(env, Race(t, q, d)) == After(env, After(env, After(env, s3, Start(1, t, q)), Advance(1)), Advance(1))
  {
    hide After;
    var x := Race(t, q, d);
    assert RunOf(env, x[..0]) == INITIAL;
    forall i | 0 <= i < |x| ensures RunOf(env, x[..i + 1]) == After(env, RunOf(env, x[..i]), x[i]) {
      assert x[..i + 1] == x[..i] + [x[i]];
      RunOfAppend(env, x[..i], x[i]);
    }
    assert x[..11] == x;
    assert RunOf(env, x[..4]) == After(env, After(env, After(env, After(env, INITIAL, x[0]), x[1]), x[2]), x[3]);
    assert RunOf(env, x[..6]) == After(env, After(env, RunOf(env, x[..4]), x[4]), x[5]);
    assert RunOf(env, x[..8]) == After(env, After(env, RunOf(env, x[..6]), x[6]), x[7]);
  }
}
